/** Which recommendations keep the patches in place the same documents as the patches with copies: the exact
    condition for every list, however often the templates are changed on the way. */
module PatchAlike {
  import opened Text
  import opened NestedSet
  import opened NestedStore
  import opened PatchPlan
  import opened PatchSharing
  import opened PatchReading

  /** Two documents, each with its templates, read the same at every path. */
  ghost predicate Alike(t: Templates, d: Json, u: Templates, e: Json) {
    forall p :: Look(t, d, p) == Look(u, e, p)
  }

  /** What stands at a path, references on the way followed; a reference that stands there is not. */
  function Reach(t: Templates, d: Json, p: seq<Cell>): Option<Json>
    decreases |p|, if d.Shared? then 1 else 0
  {
    if p == [] then Some(d)
    else if d.Shared? then if d.id in t then Reach(t, t[d.id], p) else None
    else if Has(d, p[0]) then Reach(t, Part(d, p[0]), p[1..])
    else None
  }

  /** At the path stands a reference to the template. */
  predicate Refers(t: Templates, d: Json, p: seq<Cell>, b: nat) {
    Reach(t, d, p) == Some(Shared(b))
  }

  lemma {:induction false} LookReach(t: Templates, d: Json, p: seq<Cell>, s: seq<Cell>)
    requires Reach(t, d, p).Some?
    ensures Look(t, d, p + s) == Look(t, Reach(t, d, p).value, s)
    decreases |p|, if d.Shared? then 1 else 0
  {
    if p == [] {
      assert p + s == s;
    } else if d.Shared? {
      LookReach(t, t[d.id], p, s);
    } else {
      assert (p + s)[0] == p[0] && (p + s)[1..] == p[1..] + s;
      LookReach(t, Part(d, p[0]), p[1..], s);
    }
  }

  lemma {:induction false} ReachOn(t: Templates, d: Json, p: seq<Cell>, b: nat, c: seq<Cell>)
    requires Refers(t, d, p, b) && b in t && c != []
    ensures Reach(t, d, p + c) == Reach(t, t[b], c)
    decreases |p|, if d.Shared? then 1 else 0
  {
    if p == [] {
      assert p + c == c;
    } else if d.Shared? {
      ReachOn(t, t[d.id], p, b, c);
    } else {
      assert (p + c)[0] == p[0] && (p + c)[1..] == p[1..] + c;
      ReachOn(t, Part(d, p[0]), p[1..], b, c);
    }
  }

  /** No reference to the template on the way to the path. */
  ghost predicate Avoids(t: Templates, d: Json, q: seq<Cell>, b: nat) {
    forall n :: 0 <= n < |q| ==> !Refers(t, d, q[..n], b)
  }

  lemma AvoidsPart(t: Templates, d: Json, q: seq<Cell>, b: nat)
    requires Avoids(t, d, q, b) && !d.Shared? && q != [] && Has(d, q[0])
    ensures Avoids(t, Part(d, q[0]), q[1..], b)
  {
    forall n | 0 <= n < |q| - 1 ensures !Refers(t, Part(d, q[0]), q[1..][..n], b) {
      assert !Refers(t, d, q[..n + 1], b);
      assert q[..n + 1][0] == q[0] && q[..n + 1][1..] == q[1..][..n];
    }
  }

  lemma AvoidsTemplate(t: Templates, d: Json, q: seq<Cell>, b: nat)
    requires Avoids(t, d, q, b) && d.Shared? && d.id in t
    ensures Avoids(t, t[d.id], q, b)
  {
    forall n | 0 <= n < |q| ensures !Refers(t, t[d.id], q[..n], b) {
      assert !Refers(t, d, q[..n], b);
    }
  }

  /** Where the way avoids a template, changing the template changes nothing. */
  lemma {:induction false} ReachAvoids(t: Templates, x: Json, d: Json, q: seq<Cell>, b: nat)
    requires Avoids(t, d, q, b) && !x.Shared? && b in t
    ensures Reach(t[b := x], d, q) == Reach(t, d, q)
    decreases |q|, if d.Shared? then 1 else 0
  {
    if q != [] {
      if d.Shared? {
        assert q[..0] == [];
        assert !Refers(t, d, q[..0], b);
        if d.id in t {
          AvoidsTemplate(t, d, q, b);
          ReachAvoids(t, x, t[d.id], q, b);
        }
      } else if Has(d, q[0]) {
        AvoidsPart(t, d, q, b);
        ReachAvoids(t, x, Part(d, q[0]), q[1..], b);
      }
    }
  }

  lemma LookAvoids(t: Templates, x: Json, d: Json, q: seq<Cell>, b: nat)
    requires Avoids(t, d, q, b) && !Refers(t, d, q, b) && !x.Shared? && b in t
    ensures Look(t[b := x], d, q) == Look(t, d, q)
    decreases |q|, if d.Shared? then 1 else 0
  {
    if d.Shared? {
      assert q[..0] == [];
      if q != [] { assert !Refers(t, d, q[..0], b); }
      if d.id in t {
        AvoidsTemplate(t, d, q, b);
        if q == [] { assert !t[d.id].Shared?; }
        LookAvoids(t, x, t[d.id], q, b);
      }
    } else if q != [] && Has(d, q[0]) {
      AvoidsPart(t, d, q, b);
      LookAvoids(t, x, Part(d, q[0]), q[1..], b);
    }
  }

  // ---- documents without references ------------------------------------------------------------

  lemma {:induction false} PlainGet(e: Json, p: seq<Cell>)
    requires Look(map[], e, p).Some?
    ensures Get(e, p).Some? && forall s :: Look(map[], e, p + s) == Look(map[], Get(e, p).value, s)
    decreases |p|
  {
    if p != [] { PlainGet(Part(e, p[0]), p[1..]); }
    forall s ensures Look(map[], e, p + s) == Look(map[], Get(e, p).value, s) { LookAlong(map[], e, p, s); }
  }

  lemma {:induction false} GetSmaller(e: Json, p: seq<Cell>)
    requires p != [] && Get(e, p).Some?
    ensures Get(e, p).value < e
    decreases |p|
  {
    if |p| > 1 { GetSmaller(Part(e, p[0]), p[1..]); }
  }

  lemma {:induction false} PlainClear(e: Json, path: seq<Cell>)
    requires Closed(e, map[])
    ensures Clear(e, path)
    decreases |path|
  {
    if |path| > 1 && Has(e, path[0]) { PlainClear(Part(e, path[0]), path[1..]); }
  }

  /** A document that is read like a finite one has no template within itself. */
  lemma {:induction false} NoLoop(t: Templates, b: nat, c: seq<Cell>, e: Json)
    requires b in t && c != [] && Refers(t, t[b], c, b) && Alike(t, t[b], map[], e)
    ensures false
    decreases e
  {
    LookReach(t, t[b], c, []);
    assert c + [] == c;
    assert Look(t, t[b], []).Some?;
    assert Look(t, t[b], c).Some?;
    PlainGet(e, c);
    GetSmaller(e, c);
    var f := Get(e, c).value;
    forall s ensures Look(t, t[b], s) == Look(map[], f, s) { LookReach(t, t[b], c, s); }
    NoLoop(t, b, c, f);
  }

  /** Below a reference there is no other reference to the same template. */
  lemma OneOnTheWay(t: Templates, d: Json, e: Json, p: seq<Cell>, c: seq<Cell>, b: nat)
    requires Alike(t, d, map[], e) && b in t && Refers(t, d, p, b) && c != []
    ensures !Refers(t, d, p + c, b)
  {
    if Refers(t, d, p + c, b) {
      ReachOn(t, d, p, b, c);
      TemplateAlike(t, d, e, p, b);
      NoLoop(t, b, c, Get(e, p).value);
    }
  }

  /** What a document refers to reads as the part of the other one. */
  lemma TemplateAlike(t: Templates, d: Json, e: Json, p: seq<Cell>, b: nat)
    requires Alike(t, d, map[], e) && b in t && Refers(t, d, p, b)
    ensures Get(e, p).Some? && Alike(t, t[b], map[], Get(e, p).value)
  {
    assert p + [] == p;
    LookReach(t, d, p, []);
    assert Look(t, Shared(b), []).Some?;
    assert Look(t, d, p).Some?;
    PlainGet(e, p);
    forall s ensures Look(t, t[b], s) == Look(map[], Get(e, p).value, s) {
      LookReach(t, d, p, s);
      assert Look(t, Shared(b), s) == Look(t, t[b], s);
    }
  }

  lemma {:induction false} ClosedGet(d: Json, p: seq<Cell>, t: Templates)
    requires Closed(d, t) && Get(d, p).Some?
    ensures Closed(Get(d, p).value, t)
    decreases |p|
  {
    if p != [] {
      assert Has(d, p[0]);
      ClosedGet(Part(d, p[0]), p[1..], t);
    }
  }

  lemma LookSelf(t: Templates, d: Json)
    requires Closed(d, t)
    ensures Look(t, d, []).Some?
  {
  }

  lemma LookHas(t: Templates, d: Json, c: Cell)
    requires Closed(d, t) && !d.Shared?
    ensures Has(d, c) <==> Look(t, d, [c]).Some?
  {
    if Has(d, c) {
      assert Closed(Part(d, c), t);
      assert [c][1..] == [] && Look(t, d, [c]) == Look(t, Part(d, c), []);
      LookSelf(t, Part(d, c));
    }
  }

  /** Documents that read the same have the same parts, and these read the same. */
  lemma PartsAlike(t: Templates, x: Json, u: Templates, y: Json)
    requires Alike(t, x, u, y) && !x.Shared? && !y.Shared? && Closed(x, t) && Closed(y, u)
    ensures x.Obj? == y.Obj? && x.Arr? == y.Arr? && (x.Leaf? ==> x == y)
    ensures forall c :: Has(x, c) <==> Has(y, c)
    ensures forall c :: Has(x, c) ==> Alike(t, Part(x, c), u, Part(y, c))
    ensures x.Arr? ==> |x.items| == |y.items|
  {
    assert Look(t, x, []) == Look(u, y, []);
    forall c ensures Has(x, c) <==> Has(y, c) {
      LookHas(t, x, c);
      LookHas(u, y, c);
    }
    forall c, p | Has(x, c) ensures Look(t, Part(x, c), p) == Look(u, Part(y, c), p) {
      assert ([c] + p)[1..] == p;
      assert Look(t, x, [c] + p) == Look(u, y, [c] + p);
    }
    if x.Arr? {
      assert Has(x, Pos(|y.items|)) <==> Has(y, Pos(|y.items|));
      assert Has(x, Pos(|x.items|)) <==> Has(y, Pos(|x.items|));
    }
  }

  lemma PutAlike(t: Templates, x: Json, w: Json, u: Templates, y: Json, v: Json, c: Cell)
    requires Alike(t, x, u, y) && !x.Shared? && !y.Shared? && Closed(x, t) && Closed(y, u)
    requires Fits(x, c) && Fits(y, c) && Alike(t, w, u, v)
    ensures Alike(t, Put(x, c, w), u, Put(y, c, v))
  {
    PartsAlike(t, x, u, y);
    var nx, ny := Put(x, c, w), Put(y, c, v);
    forall p ensures Look(t, nx, p) == Look(u, ny, p) {
      if p != [] {
        if p[0] == c {
          assert Part(nx, c) == w && Part(ny, c) == v;
        } else if Has(x, p[0]) {
          assert Part(nx, p[0]) == Part(x, p[0]) && Part(ny, p[0]) == Part(y, p[0]);
        } else if Has(nx, p[0]) {
          assert Part(nx, p[0]) == Obj(map[]) == Part(ny, p[0]);
          NothingInside(t, u, p[1..]);
        }
      }
    }
  }

  lemma NothingInside(t: Templates, u: Templates, p: seq<Cell>)
    ensures Look(t, Obj(map[]), p) == Look(u, Obj(map[]), p) && Look(t, Arr([]), p) == Look(u, Arr([]), p)
  {
  }

  /** Setting alike values in documents that read the same succeeds in both or neither, and they still do. */
  lemma {:induction false} SetAlike(t: Templates, x: Json, w: Json, u: Templates, y: Json, v: Json, path: seq<Cell>)
    requires path != [] && Clear(x, path) && Clear(y, path)
    requires Alike(t, x, u, y) && Closed(x, t) && Closed(y, u)
    ensures Set(x, path, w).Some? <==> Set(y, path, v).Some?
    ensures Alike(t, w, u, v) && Set(x, path, w).Some? ==> Alike(t, Set(x, path, w).value, u, Set(y, path, v).value)
    decreases |path|
  {
    PartsAlike(t, x, u, y);
    if Fits(x, path[0]) {
      if |path| == 1 {
        if Alike(t, w, u, v) { PutAlike(t, x, w, u, y, v, path[0]); }
      } else {
        var cx, cy := Child(x, path[0], path[1]), Child(y, path[0], path[1]);
        ChildAlike(t, x, u, y, path);
        SetAlike(t, cx, w, u, cy, v, path[1..]);
        var nx, ny := Set(cx, path[1..], w), Set(cy, path[1..], v);
        if Alike(t, w, u, v) && nx.Some? { PutAlike(t, x, nx.value, u, y, ny.value, path[0]); }
      }
    }
    hide Alike, Put, Child, Closed, Clear;
  }

  lemma ChildAlike(t: Templates, x: Json, u: Templates, y: Json, path: seq<Cell>)
    requires |path| > 1 && Clear(x, path) && Clear(y, path) && Fits(x, path[0]) && Fits(y, path[0])
    requires Alike(t, x, u, y) && Closed(x, t) && Closed(y, u)
    ensures var cx, cy := Child(x, path[0], path[1]), Child(y, path[0], path[1]);
      Alike(t, cx, u, cy) && Closed(cx, t) && Closed(cy, u) && Clear(cx, path[1..]) && Clear(cy, path[1..])
  {
    PartsAlike(t, x, u, y);
    if Has(x, path[0]) {
      assert Child(x, path[0], path[1]) == Part(x, path[0]) && Child(y, path[0], path[1]) == Part(y, path[0]);
    } else {
      forall p ensures Look(t, Obj(map[]), p) == Look(u, Obj(map[]), p) && Look(t, Arr([]), p) == Look(u, Arr([]), p) {
        NothingInside(t, u, p);
      }
    }
  }

  /** A document without references is what it reads. */
  lemma {:induction false} ReadsEqual(x: Json, y: Json)
    requires Alike(map[], x, map[], y) && Closed(x, map[]) && Closed(y, map[])
    ensures x == y
    decreases x
  {
    PartsAlike(map[], x, map[], y);
    forall c | Has(x, c) ensures Part(x, c) == Part(y, c) { ReadsEqual(Part(x, c), Part(y, c)); }
    hide Alike, Closed;
    match x
    case Obj(fields) =>
      forall k ensures k in fields <==> k in y.fields { assert Has(x, Name(k)) <==> Has(y, Name(k)); }
      forall k | k in fields ensures fields[k] == y.fields[k] {
        assert Has(x, Name(k)) && Part(x, Name(k)) == fields[k];
      }
      assert fields == y.fields;
    case Arr(items) =>
      forall i | 0 <= i < |items| ensures items[i] == y.items[i] {
        assert Has(x, Pos(i)) && Part(x, Pos(i)) == items[i];
      }
    case Leaf(_) =>
  }

  /** Where the path leads: within the document, or to a reference and from there within its template. */
  lemma {:induction false} FindLeads(t: Templates, base: Option<nat>, d: Json, walked: seq<Cell>, path: seq<Cell>)
    returns (n: nat)
    requires path != [] && Closed(d, t) && forall id :: id in t ==> Closed(t[id], t)
    ensures var (r, rest) := Find(t, base, d, walked, path);
      || (r == base && rest == walked + path && Clear(d, path))
      || (r.Some? && r.value in t && n < |path| && rest == path[n..] && Refers(t, d, path[..n], r.value)
          && Clear(t[r.value], rest))
    decreases |path|, if d.Shared? then 1 else 0
  {
    n := 0;
    var (r, rest) := Find(t, base, d, walked, path);
    if d.Shared? {
      var m := FindLeads(t, Some(d.id), t[d.id], [], path);
      if !(r == Some(d.id) && rest == [] + path && Clear(t[d.id], path)) {
        n := m;
        assert m == 0 ==> path[..m] == [];
      } else {
        assert path[..0] == [] && path[0..] == path && [] + path == path;
      }
    } else if |path| > 1 && Has(d, path[0]) {
      var m := FindLeads(t, base, Part(d, path[0]), walked + [path[0]], path[1..]);
      if r == base && rest == walked + [path[0]] + path[1..] && Clear(Part(d, path[0]), path[1..]) {
        assert walked + [path[0]] + path[1..] == walked + path;
      } else {
        n := m + 1;
        assert path[1..][m..] == path[n..] && path[..n][0] == path[0] && path[..n][1..] == path[1..][..m];
      }
    }
  }

  // ---- a value set in a template ---------------------------------------------------------------

  lemma {:induction false} ReplaceReads(e: Json, p: seq<Cell>, z: Json, q: seq<Cell>)
    requires Get(e, p).Some? && Look(map[], e, p).Some?
    ensures Look(map[], Replace(e, p, z), q) == if p <= q then Look(map[], z, q[|p|..]) else Look(map[], e, q)
    decreases |p|
  {
    if p != [] {
      var part := Part(e, p[0]);
      PutParts(e, p[0], Replace(part, p[1..], z));
      hide Put;
      if q != [] && q[0] == p[0] {
        PrefixRest(p, q);
        ReplaceReads(part, p[1..], z, q[1..]);
        if p <= q { assert q[1..][|p| - 1..] == q[|p|..]; }
      }
    }
  }

  /** What a changed template reads, seen from a document that refers to it. */
  lemma TemplateReads(t: Templates, b: nat, rest: seq<Cell>, w: Json, x: Json, v: Json, d: Json, e: Json, p: seq<Cell>)
    requires b in t && Closed(t[b], t) && Clear(t[b], rest) && rest != [] && Set(t[b], rest, w) == Some(x) && !x.Shared?
    requires Alike(t, d, map[], e) && Refers(t, d, p, b) && Closed(e, map[])
    ensures Get(e, p).Some? && Set(Get(e, p).value, rest, v).Some?
    ensures forall s :: Look(t[b := x], d, p + s) == Look(t[b := x], x, s)
    ensures Alike(t[b := x], w, map[], v) ==> Alike(t[b := x], x, map[], Set(Get(e, p).value, rest, v).value)
  {
    var nu: Templates := t[b := x];
    TemplateAlike(t, d, e, p, b);
    var y := Get(e, p).value;
    FirstOnTheWay(t, d, e, p, b);
    ReachAvoids(t, x, d, p, b);
    forall s ensures Look(nu, d, p + s) == Look(nu, x, s) {
      LookReach(nu, d, p, s);
      assert Look(nu, Shared(b), s) == Look(nu, x, s);
    }
    forall s ensures Look(nu, t[b], s) == Look(map[], y, s) {
      NotWithin(t, b, y, s);
      LookAvoids(t, x, t[b], s, b);
    }
    ClosedKeys(t[b], t, nu);
    ClosedGet(e, p, map[]);
    PlainClear(y, rest);
    SetAlike(nu, t[b], w, map[], y, v, rest);
  }

  lemma FirstOnTheWay(t: Templates, d: Json, e: Json, p: seq<Cell>, b: nat)
    requires Alike(t, d, map[], e) && b in t && Refers(t, d, p, b)
    ensures Avoids(t, d, p, b)
  {
    forall n | 0 <= n < |p| ensures !Refers(t, d, p[..n], b) {
      assert p[..n] + p[n..] == p;
      if Refers(t, d, p[..n], b) { OneOnTheWay(t, d, e, p[..n], p[n..], b); }
    }
  }

  lemma NotWithin(t: Templates, b: nat, y: Json, q: seq<Cell>)
    requires b in t && Alike(t, t[b], map[], y)
    ensures Avoids(t, t[b], q, b) && !Refers(t, t[b], q, b)
  {
    forall p ensures !Refers(t, t[b], p, b) {
      if p != [] && Refers(t, t[b], p, b) { NoLoop(t, b, p, y); }
    }
  }

  // ---- one step, from any state in which the patches agree -------------------------------------

  ghost predicate AllAlike(s: Sharing, plan: Plan) {
    s.docs.Keys == plan.patches.Keys
    && forall k :: Alike(s.tpls, PatchFor(s.docs, k), map[], PatchFor(plan.patches, k))
  }

  /** References lead to templates, and copies have none. */
  ghost predicate WellFormed(s: Sharing, plan: Plan) {
    && s.tpls.Keys == PRISTINE.Keys && (forall id :: id in s.tpls ==> Closed(s.tpls[id], s.tpls))
    && forall k :: Closed(PatchFor(s.docs, k), s.tpls) && Closed(PatchFor(plan.patches, k), map[])
  }

  /** Nothing but the place `p` of `key` refers to the template, directly or through others. */
  ghost predicate OnlyReference(s: Sharing, key: Key, p: seq<Cell>, b: nat) {
    forall k, q :: Refers(s.tpls, PatchFor(s.docs, k), q, b) ==> k == key && q == p
  }

  /** The template reads the value at that place. */
  ghost predicate ReadsThere(t: Templates, x: Json, rest: seq<Cell>, v: Json) {
    forall r :: Look(t, x, rest + r) == Look(map[], v, r)
  }

  /** The template `b`, to which `p` of `key` refers, was set to `x`; the copy there became `z`. */
  ghost predicate TemplateSet(s: Sharing, plan: Plan, nu: Sharing, out: Plan, key: Key, p: seq<Cell>, b: nat, x: Json,
      z: Json)
  {
    && b in s.tpls && !x.Shared? && nu.tpls == s.tpls[b := x] && Refers(s.tpls, PatchFor(s.docs, key), p, b)
    && (forall k :: PatchFor(nu.docs, k) == PatchFor(s.docs, k)) && nu.docs.Keys == out.patches.Keys
    && Get(PatchFor(plan.patches, key), p).Some?
    && forall k ::
      PatchFor(out.patches, k) ==
        if k == key then Replace(PatchFor(plan.patches, key), p, z) else PatchFor(plan.patches, k)
  }

  lemma AlikeIfOnly(s: Sharing, plan: Plan, nu: Sharing, out: Plan, key: Key, p: seq<Cell>, b: nat, x: Json, z: Json)
    requires AllAlike(s, plan) && TemplateSet(s, plan, nu, out, key, p, b, x, z) && OnlyReference(s, key, p, b)
    requires forall r :: Look(nu.tpls, PatchFor(s.docs, key), p + r) == Look(nu.tpls, x, r)
    requires Alike(nu.tpls, x, map[], z)
    ensures AllAlike(nu, out)
  {
    hide Look, Reach, PatchFor, Replace, Get;
    forall k, q ensures Look(nu.tpls, PatchFor(nu.docs, k), q) == Look(map[], PatchFor(out.patches, k), q) {
      var d, e := PatchFor(s.docs, k), PatchFor(plan.patches, k);
      if k == key {
        ReadsPlace(s.tpls, d, e, p, b);
        ReplaceReads(e, p, z, q);
        if p <= q { assert p + q[|p|..] == q; }
      }
      if !(k == key && p <= q) { LookAvoids(s.tpls, x, d, q, b); }
    }
  }

  lemma ReadsPlace(t: Templates, d: Json, e: Json, p: seq<Cell>, b: nat)
    requires Alike(t, d, map[], e) && b in t && Refers(t, d, p, b)
    ensures Look(map[], e, p).Some?
  {
    LookReach(t, d, p, []);
    assert p + [] == p;
    assert Look(t, Shared(b), []).Some?;
  }

  /** Templates that read as before leave every document reading as before. */
  lemma {:induction false} SameReading(t: Templates, b: nat, x: Json, d: Json, q: seq<Cell>)
    requires b in t && !x.Shared? && forall r :: Look(t[b := x], x, r) == Look(t, t[b], r)
    ensures Look(t[b := x], d, q) == Look(t, d, q)
    decreases |q|, if d.Shared? then 1 else 0
  {
    if d.Shared? {
      if d.id in t && d.id != b { SameReading(t, b, x, t[d.id], q); }
    } else if q != [] && Has(d, q[0]) {
      SameReading(t, b, x, Part(d, q[0]), q[1..]);
    }
  }

  lemma AlikeIfSame(s: Sharing, plan: Plan, nu: Sharing, out: Plan, key: Key, p: seq<Cell>, b: nat, x: Json, y: Json)
    requires AllAlike(s, plan) && TemplateSet(s, plan, nu, out, key, p, b, x, y)
    requires y == Get(PatchFor(plan.patches, key), p).value && Alike(nu.tpls, x, map[], y)
    ensures AllAlike(nu, out)
  {
    var d, e := PatchFor(s.docs, key), PatchFor(plan.patches, key);
    TemplateAlike(s.tpls, d, e, p, b);
    ReplaceSame(e, p);
    forall k, q ensures Look(nu.tpls, PatchFor(nu.docs, k), q) == Look(map[], PatchFor(out.patches, k), q) {
      SameReading(s.tpls, b, x, PatchFor(s.docs, k), q);
    }
    hide Look, Reach, PatchFor, Replace;
  }

  /** Another place that refers to the template shows the change. */
  lemma OtherShows(s: Sharing, plan: Plan, nu: Sharing, out: Plan, key: Key, p: seq<Cell>, b: nat, x: Json, z: Json,
      rest: seq<Cell>, w: Json, v: Json)
    requires AllAlike(s, plan) && AllAlike(nu, out) && WellFormed(s, plan)
    requires TemplateSet(s, plan, nu, out, key, p, b, x, z) && !OnlyReference(s, key, p, b)
    requires rest != [] && Clear(s.tpls[b], rest) && Set(s.tpls[b], rest, w) == Some(x) && Alike(nu.tpls, w, map[], v)
    ensures ReadsThere(s.tpls, s.tpls[b], rest, v)
  {
    hide Look, Reach, PatchFor, Replace, Set, Get, Closed, Clear;
    var k, q :| Refers(s.tpls, PatchFor(s.docs, k), q, b) && !(k == key && q == p);
    TemplateReads(s.tpls, b, rest, w, x, v, PatchFor(s.docs, k), PatchFor(plan.patches, k), q);
    forall r ensures Look(s.tpls, s.tpls[b], rest + r) == Look(map[], v, r) {
      ShowsAt(s, plan, nu, out, key, p, b, x, z, rest, w, v, k, q, r);
    }
  }

  lemma ShowsAt(s: Sharing, plan: Plan, nu: Sharing, out: Plan, key: Key, p: seq<Cell>, b: nat, x: Json, z: Json,
      rest: seq<Cell>, w: Json, v: Json, k: Key, q: seq<Cell>, r: seq<Cell>)
    requires AllAlike(s, plan) && AllAlike(nu, out)
    requires TemplateSet(s, plan, nu, out, key, p, b, x, z)
    requires Refers(s.tpls, PatchFor(s.docs, k), q, b) && !(k == key && q == p)
    requires rest != [] && Set(s.tpls[b], rest, w) == Some(x) && Alike(nu.tpls, w, map[], v)
    requires forall o :: Look(nu.tpls, PatchFor(s.docs, k), q + o) == Look(nu.tpls, x, o)
    ensures Look(s.tpls, s.tpls[b], rest + r) == Look(map[], v, r)
  {
    hide Look, Reach, PatchFor, Replace, Set, Get;
    var d, e, at := PatchFor(s.docs, k), PatchFor(plan.patches, k), q + (rest + r);
    GetAfterSet(s.tpls[b], rest, w);
    LookAlong(nu.tpls, x, rest, r);
    assert Look(nu.tpls, d, at) == Look(map[], v, r);
    LookReach(s.tpls, d, q, rest + r);
    LookShared(s.tpls, b, rest + r);
    assert Look(map[], PatchFor(out.patches, k), at) == Look(map[], v, r);
    if k == key { OtherPlace(s.tpls, d, e, p, q, b, z, rest + r); }
    assert Look(map[], e, at) == Look(s.tpls, d, at);
  }

  lemma LookShared(t: Templates, b: nat, p: seq<Cell>)
    requires b in t
    ensures Look(t, Shared(b), p) == Look(t, t[b], p)
  {
  }

  /** Two places of a document that refer to one template do not lie below each other. */
  lemma OtherPlace(t: Templates, d: Json, e: Json, p: seq<Cell>, q: seq<Cell>, b: nat, z: Json, s: seq<Cell>)
    requires Alike(t, d, map[], e) && b in t && Refers(t, d, p, b) && Refers(t, d, q, b) && p != q
    ensures Get(e, p).Some? && Look(map[], Replace(e, p, z), q + s) == Look(map[], e, q + s)
  {
    TemplateAlike(t, d, e, p, b);
    ReadsPlace(t, d, e, p, b);
    ReplaceReads(e, p, z, q + s);
    if p <= q + s {
      if |p| < |q| {
        assert q == p + q[|p|..];
        OneOnTheWay(t, d, e, p, q[|p|..], b);
      } else {
        assert p == q + p[|q|..];
        if |q| < |p| { OneOnTheWay(t, d, e, q, p[|q|..], b); }
      }
    }
  }

  /** Before the step: the field does not fit, or what is assigned reads as its value, and if it is set in a
      template, then nothing else refers to that template, or it reads that value there already. */
  ghost predicate StaysAlike(s: Sharing, rec: Rec) {
    KeyOf(rec).None?
    ||
    var doc, path := PatchFor(s.docs, KeyOf(rec).value), PathOf(rec);
    var (base, rest) := Find(s.tpls, None, doc, [], path);
    var x := Set(BaseDoc(doc, s.tpls, base), rest, ItemOf(rec));
    || x.None?
    || (base.None? && Alike(s.tpls, ItemOf(rec), map[], ValueOf(rec)))
    || (base.Some? && Alike(s.tpls[base.value := x.value], ItemOf(rec), map[], ValueOf(rec))
        && (OnlyReference(s, KeyOf(rec).value, path[..|path| - |rest|], base.value)
            || ReadsThere(s.tpls, s.tpls[base.value], rest, ValueOf(rec))))
  }

  /** A value set in the template to which `p` of `key` refers. */
  lemma TemplateIff(s: Sharing, plan: Plan, nu: Sharing, out: Plan, key: Key, p: seq<Cell>, b: nat, x: Json,
      rest: seq<Cell>, w: Json, v: Json)
    requires AllAlike(s, plan) && WellFormed(s, plan) && Closed(v, map[])
    requires b in s.tpls && Refers(s.tpls, PatchFor(s.docs, key), p, b) && Get(PatchFor(plan.patches, key), p).Some?
    requires rest != [] && Clear(s.tpls[b], rest) && Set(s.tpls[b], rest, w) == Some(x)
    requires var z := Set(Get(PatchFor(plan.patches, key), p).value, rest, v);
      z.Some? && TemplateSet(s, plan, nu, out, key, p, b, x, z.value)
    ensures AllAlike(nu, out) <==>
      Alike(nu.tpls, w, map[], v) && (OnlyReference(s, key, p, b) || ReadsThere(s.tpls, s.tpls[b], rest, v))
  {
    hide Look, Reach, PatchFor, Replace, Set, Get, Closed, Clear, ReadsThere, OnlyReference, Alike, AllAlike,
      WellFormed, TemplateSet;
    var y := Get(PatchFor(plan.patches, key), p).value;
    var z := Set(y, rest, v).value;
    TemplateFacts(s, plan, nu, key, p, b, x, rest, w, v, out);
    if AllAlike(nu, out) {
      OwnShows(s, plan, nu, out, key, p, b, x, z, rest, w, v);
      if !OnlyReference(s, key, p, b) { OtherShows(s, plan, nu, out, key, p, b, x, z, rest, w, v); }
    }
    if Alike(nu.tpls, w, map[], v) {
      if OnlyReference(s, key, p, b) {
        AlikeIfOnly(s, plan, nu, out, key, p, b, x, z);
      } else if ReadsThere(s.tpls, s.tpls[b], rest, v) {
        SameCopy(s, plan, key, p, b, rest, v);
        AlikeIfSame(s, plan, nu, out, key, p, b, x, y);
      }
    }
  }

  lemma TemplateFacts(s: Sharing, plan: Plan, nu: Sharing, key: Key, p: seq<Cell>, b: nat, x: Json, rest: seq<Cell>,
      w: Json, v: Json, out: Plan)
    requires AllAlike(s, plan) && WellFormed(s, plan) && Get(PatchFor(plan.patches, key), p).Some?
    requires b in s.tpls && rest != [] && Clear(s.tpls[b], rest) && Set(s.tpls[b], rest, w) == Some(x)
    requires var z := Set(Get(PatchFor(plan.patches, key), p).value, rest, v);
      z.Some? && TemplateSet(s, plan, nu, out, key, p, b, x, z.value)
    ensures forall r :: Look(nu.tpls, PatchFor(s.docs, key), p + r) == Look(nu.tpls, x, r)
    ensures Alike(nu.tpls, w, map[], v) ==>
      Alike(nu.tpls, x, map[], Set(Get(PatchFor(plan.patches, key), p).value, rest, v).value)
  {
    hide Look, Reach, PatchFor, Replace, Set, Get, Closed, Clear, Alike;
    TemplateReads(s.tpls, b, rest, w, x, v, PatchFor(s.docs, key), PatchFor(plan.patches, key), p);
  }

  /** The place itself shows what was assigned. */
  lemma OwnShows(s: Sharing, plan: Plan, nu: Sharing, out: Plan, key: Key, p: seq<Cell>, b: nat, x: Json, z: Json,
      rest: seq<Cell>, w: Json, v: Json)
    requires AllAlike(s, plan) && AllAlike(nu, out) && TemplateSet(s, plan, nu, out, key, p, b, x, z)
    requires rest != [] && Set(s.tpls[b], rest, w) == Some(x)
    requires Set(Get(PatchFor(plan.patches, key), p).value, rest, v) == Some(z)
    requires forall r :: Look(nu.tpls, PatchFor(s.docs, key), p + r) == Look(nu.tpls, x, r)
    ensures Alike(nu.tpls, w, map[], v)
  {
    hide Look, Reach, PatchFor, Replace, Set, Get;
    var d, e := PatchFor(s.docs, key), PatchFor(plan.patches, key);
    GetAfterSet(s.tpls[b], rest, w);
    GetAfterSet(Get(e, p).value, rest, v);
    ReadsPlace(s.tpls, d, e, p, b);
    forall r ensures Look(nu.tpls, w, r) == Look(map[], v, r) {
      LookAlong(nu.tpls, x, rest, r);
      LookAlong(map[], z, rest, r);
      ReplaceReads(e, p, z, p + (rest + r));
      assert (p + (rest + r))[|p|..] == rest + r;
      assert Look(nu.tpls, d, p + (rest + r)) == Look(map[], PatchFor(out.patches, key), p + (rest + r));
    }
  }

  /** A copy that reads the value there has it, so setting it changes nothing. */
  lemma SameCopy(s: Sharing, plan: Plan, key: Key, p: seq<Cell>, b: nat, rest: seq<Cell>, v: Json)
    requires AllAlike(s, plan) && WellFormed(s, plan) && Closed(v, map[]) && rest != [] && b in s.tpls
    requires Refers(s.tpls, PatchFor(s.docs, key), p, b) && ReadsThere(s.tpls, s.tpls[b], rest, v)
    ensures Get(PatchFor(plan.patches, key), p).Some?
    ensures var y := Get(PatchFor(plan.patches, key), p).value; Set(y, rest, v) == Some(y)
  {
    hide Reach, PatchFor, Set, Get;
    var e := PatchFor(plan.patches, key);
    TemplateAlike(s.tpls, PatchFor(s.docs, key), e, p, b);
    var y := Get(e, p).value;
    ClosedGet(e, p, map[]);
    assert rest + [] == rest;
    assert Look(map[], y, rest + []) == Look(map[], v, []);
    PlainGet(y, rest);
    ClosedGet(y, rest, map[]);
    var g := Get(y, rest).value;
    forall r ensures Look(map[], g, r) == Look(map[], v, r) {
      assert Look(map[], y, rest + r) == Look(s.tpls, s.tpls[b], rest + r);
    }
    ReadsEqual(g, v);
    SetSame(y, rest, v);
  }

  /** A value set in a patch of its own. */
  lemma OwnIff(s: Sharing, plan: Plan, nu: Sharing, out: Plan, key: Key, path: seq<Cell>, w: Json, v: Json)
    requires AllAlike(s, plan) && WellFormed(s, plan) && path != [] && Clear(PatchFor(s.docs, key), path)
    ensures Set(PatchFor(s.docs, key), path, w).Some? <==> Set(PatchFor(plan.patches, key), path, v).Some?
    ensures var d, e := Set(PatchFor(s.docs, key), path, w), Set(PatchFor(plan.patches, key), path, v);
      d.Some? && nu.tpls == s.tpls && nu.docs == s.docs[key := d.value]
      && out.patches == plan.patches[key := e.value] ==>
        (AllAlike(nu, out) <==> Alike(s.tpls, w, map[], v))
  {
    hide Look, Set, Get, Closed, Clear, Alike, NewPatch;
    var d, e := PatchFor(s.docs, key), PatchFor(plan.patches, key);
    PlainClear(e, path);
    SetAlike(s.tpls, d, w, map[], e, v, path);
    var x, z := Set(d, path, w), Set(e, path, v);
    if x.Some? && nu.tpls == s.tpls && nu.docs == s.docs[key := x.value]
       && out.patches == plan.patches[key := z.value] {
      assert forall k :: PatchFor(nu.docs, k) == if k == key then x.value else PatchFor(s.docs, k);
      assert forall k :: PatchFor(out.patches, k) == if k == key then z.value else PatchFor(plan.patches, k);
      if AllAlike(nu, out) {
        assert Alike(s.tpls, PatchFor(nu.docs, key), map[], PatchFor(out.patches, key));
        SetShows(s.tpls, d, w, e, v, path);
      }
    }
  }

  /** Documents that read the same after setting were given the same. */
  lemma SetShows(t: Templates, d: Json, w: Json, e: Json, v: Json, path: seq<Cell>)
    requires path != [] && Set(d, path, w).Some? && Set(e, path, v).Some?
    requires Alike(t, Set(d, path, w).value, map[], Set(e, path, v).value)
    ensures Alike(t, w, map[], v)
  {
    hide Look, Set, Get;
    GetAfterSet(d, path, w);
    GetAfterSet(e, path, v);
    forall r ensures Look(t, w, r) == Look(map[], v, r) {
      LookAlong(t, Set(d, path, w).value, path, r);
      LookAlong(map[], Set(e, path, v).value, path, r);
    }
  }

  lemma StepIff(s: Sharing, plan: Plan, rec: Rec)
    requires AllAlike(s, plan) && WellFormed(s, plan)
    ensures ShareStep(s, rec).Some? <==> Step(plan, rec).Some?
    ensures ShareStep(s, rec).None? ==> StaysAlike(s, rec)
    ensures ShareStep(s, rec).Some? ==>
      (AllAlike(ShareStep(s, rec).value, Step(plan, rec).value) <==> StaysAlike(s, rec))
  {
    hide Look, Set, Get, Closed, Clear, Alike, KeyOf, PathOf, ItemOf, ValueOf, AddsProbe, Find, Reach, ReadsThere,
      OnlyReference, NewPatch;
    if KeyOf(rec).None? {
      return;
    }
    var key, path := KeyOf(rec).value, PathOf(rec);
    var doc := PatchFor(s.docs, key);
    var n := FindLeads(s.tpls, None, doc, [], path);
    assert [] + path == path;
    if Find(s.tpls, None, doc, [], path).0.None? {
      OwnStep(s, plan, rec);
    } else {
      TemplateStep(s, plan, rec, n);
    }
  }

  lemma OwnStep(s: Sharing, plan: Plan, rec: Rec)
    requires AllAlike(s, plan) && WellFormed(s, plan) && KeyOf(rec).Some?
    requires var doc := PatchFor(s.docs, KeyOf(rec).value);
      Find(s.tpls, None, doc, [], PathOf(rec)) == (None, PathOf(rec)) && Clear(doc, PathOf(rec))
    ensures ShareStep(s, rec).Some? <==> Step(plan, rec).Some?
    ensures ShareStep(s, rec).None? ==> StaysAlike(s, rec)
    ensures ShareStep(s, rec).Some? ==>
      (AllAlike(ShareStep(s, rec).value, Step(plan, rec).value) <==> StaysAlike(s, rec))
  {
    hide Look, Set, Get, Closed, Clear, Alike, KeyOf, PathOf, ItemOf, ValueOf, AddsProbe, Find, Reach, ReadsThere,
      OnlyReference, NewPatch, WellFormed, ShareStep, AllAlike;
    var key := KeyOf(rec).value;
    ShareStepOwn(s, rec);
    var nu, out := ShareStep(s, rec), Step(plan, rec);
    OwnIff(s, plan, if nu.Some? then nu.value else s, if out.Some? then out.value else plan, key, PathOf(rec),
           ItemOf(rec), ValueOf(rec));
    if Set(PatchFor(s.docs, key), PathOf(rec), ItemOf(rec)).None? && nu.Some? {
      KeptAlikeToo(s, plan, nu.value, out.value, key);
    }
  }

  /** Where nothing is set, a new patch may be begun. */
  lemma KeptAlikeToo(s: Sharing, plan: Plan, nu: Sharing, out: Plan, key: Key)
    requires AllAlike(s, plan) && nu.tpls == s.tpls && nu.docs == s.docs[key := PatchFor(s.docs, key)]
    requires out.patches == plan.patches[key := PatchFor(plan.patches, key)]
    ensures AllAlike(nu, out)
  {
    hide Look, Alike, NewPatch;
    assert forall k :: PatchFor(nu.docs, k) == PatchFor(s.docs, k);
    assert forall k :: PatchFor(out.patches, k) == PatchFor(plan.patches, k);
  }

  lemma TemplateStep(s: Sharing, plan: Plan, rec: Rec, n: nat)
    requires AllAlike(s, plan) && WellFormed(s, plan) && KeyOf(rec).Some? && n < |PathOf(rec)|
    requires var doc, path := PatchFor(s.docs, KeyOf(rec).value), PathOf(rec);
      var (base, rest) := Find(s.tpls, None, doc, [], path);
      && base.Some? && base.value in s.tpls && rest == path[n..] && Refers(s.tpls, doc, path[..n], base.value)
      && Clear(s.tpls[base.value], rest)
    ensures ShareStep(s, rec).Some? <==> Step(plan, rec).Some?
    ensures ShareStep(s, rec).None? ==> StaysAlike(s, rec)
    ensures ShareStep(s, rec).Some? ==>
      (AllAlike(ShareStep(s, rec).value, Step(plan, rec).value) <==> StaysAlike(s, rec))
  {
    hide Look, Set, Get, Closed, Clear, Alike, KeyOf, PathOf, ItemOf, ValueOf, AddsProbe, Find, Reach, ReadsThere,
      OnlyReference, NewPatch, AllAlike, Replace;
    var key, path, w, v := KeyOf(rec).value, PathOf(rec), ItemOf(rec), ValueOf(rec);
    var doc, e := PatchFor(s.docs, key), PatchFor(plan.patches, key);
    var p, rest, b := path[..n], path[n..], Find(s.tpls, None, doc, [], path).0.value;
    assert path == p + rest;
    BothSet(s, plan, key, p, b, rest, w, v);
    var nu, out, x := ShareStep(s, rec), Step(plan, rec), Set(s.tpls[b], rest, w);
    ValueClosed(rec);
    if x.None? {
      if nu.Some? { KeptAlikeToo(s, plan, nu.value, out.value, key); }
    } else {
      var z := Set(Get(e, p).value, rest, v).value;
      assert forall k :: PatchFor(nu.value.docs, k) == PatchFor(s.docs, k);
      assert forall k ::
        PatchFor(out.value.patches, k) == if k == key then Replace(e, p, z) else PatchFor(plan.patches, k);
      AllAlikeKeys(s, plan);
      TemplateIff(s, plan, nu.value, out.value, key, p, b, x.value, rest, w, v);
    }
  }

  lemma AllAlikeKeys(s: Sharing, plan: Plan)
    requires AllAlike(s, plan)
    ensures s.docs.Keys == plan.patches.Keys
  {
  }

  /** The value is set in the template exactly when it is set in the copy. */
  lemma BothSet(s: Sharing, plan: Plan, key: Key, p: seq<Cell>, b: nat, rest: seq<Cell>, w: Json, v: Json)
    requires AllAlike(s, plan) && WellFormed(s, plan) && b in s.tpls && rest != []
    requires Refers(s.tpls, PatchFor(s.docs, key), p, b) && Clear(s.tpls[b], rest)
    ensures var e := PatchFor(plan.patches, key);
      && Get(e, p).Some?
      && (Set(s.tpls[b], rest, w).Some? <==> Set(Get(e, p).value, rest, v).Some?)
      && Set(e, p + rest, v) == var y := Set(Get(e, p).value, rest, v);
        if y.None? then None else Some(Replace(e, p, y.value))
  {
    hide Look, Set, Get, Clear, Reach, Replace, PatchFor;
    var d, e := PatchFor(s.docs, key), PatchFor(plan.patches, key);
    TemplateAlike(s.tpls, d, e, p, b);
    var y := Get(e, p).value;
    ClosedGet(e, p, map[]);
    PlainClear(y, rest);
    SetAlike(s.tpls, s.tpls[b], w, map[], y, v, rest);
    SetBelow(e, p, rest, v);
  }

  /** Every step keeps references leading to templates, and copies without any. */
  lemma StaysWellFormed(s: Sharing, plan: Plan, rec: Rec)
    requires WellFormed(s, plan) && ShareStep(s, rec).Some? && Step(plan, rec).Some?
    ensures WellFormed(ShareStep(s, rec).value, Step(plan, rec).value)
  {
    hide ShareStep, Step, Closed, PatchFor;
    var nu, out := ShareStep(s, rec).value, Step(plan, rec).value;
    StaysClosed(s, rec);
    forall k ensures Closed(PatchFor(out.patches, k), map[]) { CopiesStayPlain(plan, rec, k); }
  }

  lemma StaysClosed(s: Sharing, rec: Rec)
    requires s.tpls.Keys == PRISTINE.Keys && forall id :: id in s.tpls ==> Closed(s.tpls[id], s.tpls)
    requires (forall k :: Closed(PatchFor(s.docs, k), s.tpls)) && ShareStep(s, rec).Some?
    ensures var nu := ShareStep(s, rec).value;
      && nu.tpls.Keys == PRISTINE.Keys && (forall id :: id in nu.tpls ==> Closed(nu.tpls[id], nu.tpls))
      && forall k :: Closed(PatchFor(nu.docs, k), nu.tpls)
  {
    hide Set, Closed, KeyOf, PathOf, ItemOf, AddsProbe, Find, NewPatch;
    if KeyOf(rec).Some? {
      var key, nu := KeyOf(rec).value, ShareStep(s, rec).value;
      var doc := PatchFor(s.docs, key);
      var (base, rest) := Find(s.tpls, None, doc, [], PathOf(rec));
      var x := Set(BaseDoc(doc, s.tpls, base), rest, ItemOf(rec));
      ValueClosed(rec);
      if x.Some? { ClosedSet(BaseDoc(doc, s.tpls, base), rest, ItemOf(rec), s.tpls); }
      assert nu.tpls.Keys == s.tpls.Keys;
      forall k ensures Closed(PatchFor(nu.docs, k), nu.tpls) {
        assert Closed(PatchFor(s.docs, k), s.tpls);
        ClosedKeys(PatchFor(nu.docs, k), s.tpls, nu.tpls);
      }
      forall id | id in nu.tpls ensures Closed(nu.tpls[id], nu.tpls) { ClosedKeys(nu.tpls[id], s.tpls, nu.tpls); }
    }
  }

  lemma CopiesStayPlain(plan: Plan, rec: Rec, k: Key)
    requires (forall o :: Closed(PatchFor(plan.patches, o), map[])) && Step(plan, rec).Some?
    ensures Closed(PatchFor(Step(plan, rec).value.patches, k), map[])
  {
    hide Set, Closed, KeyOf, PathOf, ValueOf, AddsProbe, NewPatch;
    assert Closed(PatchFor(plan.patches, k), map[]);
    if KeyOf(rec) == Some(k) {
      var e := PatchFor(plan.patches, k);
      ValueClosed(rec);
      if Set(e, PathOf(rec), ValueOf(rec)).Some? { ClosedSet(e, PathOf(rec), ValueOf(rec), map[]); }
    }
  }

  lemma ValueClosed(rec: Rec)
    ensures Closed(ValueOf(rec), map[])
    ensures forall t: Templates :: t.Keys == PRISTINE.Keys ==> Closed(ItemOf(rec), t)
  {
    hide AddsProbe, ProbeOf;
    ProbeClosed("10", "10");
    ProbeClosed("5", "5");
    hide Probe;
  }

  lemma ProbeClosed(delay: string, period: string)
    ensures Closed(Probe(delay, period), map[])
  {
    OwnProbe(delay, period);
    OwnClosed(Probe(delay, period), map[]);
    hide Own, Closed, Probe;
  }

  lemma {:induction false} OwnClosed(d: Json, t: Templates)
    requires Own(d)
    ensures Closed(d, t)
    decreases d
  {
    OwnRoot(d);
    forall c | Has(d, c) ensures Closed(Part(d, c), t) {
      OwnPart(d, c);
      OwnClosed(Part(d, c), t);
    }
    hide Own;
  }

  // ---- every list ------------------------------------------------------------------------------

  lemma ReadIffAll(s: Sharing, plan: Plan)
    ensures ReadAlike(s, plan) <==> AllAlike(s, plan)
  {
    hide Look, NewPatch;
    if ReadAlike(s, plan) {
      forall k, p ensures Look(s.tpls, PatchFor(s.docs, k), p) == Look(map[], PatchFor(plan.patches, k), p) {
        if k !in s.docs {
          NewPatchPlain(k);
          LookOwn(s.tpls, map[], NewPatch(k), p);
        }
      }
    }
    if AllAlike(s, plan) {
      forall k, p | k in s.docs ensures Look(s.tpls, s.docs[k], p) == Look(map[], plan.patches[k], p) {
        assert Alike(s.tpls, PatchFor(s.docs, k), map[], PatchFor(plan.patches, k));
      }
    }
  }

  lemma StartWellFormed()
    ensures WellFormed(NO_PATCHES, Plan(map[], map[], [])) && ReadAlike(NO_PATCHES, Plan(map[], map[], []))
  {
    hide Closed, NewPatch;
    forall k ensures Closed(PatchFor(NO_PATCHES.docs, k), PRISTINE) && Closed(PatchFor(map[], k), map[]) {
      NewPatchPlain(k);
      OwnClosed(NewPatch(k), PRISTINE);
      OwnClosed(NewPatch(k), map[]);
    }
    forall id | id in PRISTINE ensures Closed(PRISTINE[id], PRISTINE) {
      PristineOwn(id);
      OwnClosed(PRISTINE[id], PRISTINE);
    }
  }

  lemma {:induction false} BuiltWellFormed(recs: seq<Rec>)
    requires ShareBuild(recs).Some? && Build(recs).Some?
    ensures WellFormed(ShareBuild(recs).value, Build(recs).value)
    decreases |recs|
  {
    hide WellFormed, ShareStep, Step;
    if recs == [] {
      StartWellFormed();
    } else {
      var before := recs[..|recs| - 1];
      BuiltWellFormed(before);
      StaysWellFormed(ShareBuild(before).value, Build(before).value, recs[|recs| - 1]);
    }
  }

  /** Both builds raise, or both give patches that are the same documents. */
  ghost predicate AlikeAfter(recs: seq<Rec>) {
    && (ShareBuild(recs).Some? <==> Build(recs).Some?)
    && (ShareBuild(recs).Some? && Build(recs).Some? ==> ReadAlike(ShareBuild(recs).value, Build(recs).value))
  }

  lemma AlikeNext(recs: seq<Rec>, n: nat)
    requires n < |recs| && AlikeAfter(recs[..n])
    ensures AlikeAfter(recs[..n + 1]) <==>
      (ShareBuild(recs[..n]).Some? ==> StaysAlike(ShareBuild(recs[..n]).value, recs[n]))
  {
    hide ShareBuild, Build, ShareStep, Step, StaysAlike, ReadAlike, WellFormed, AllAlike, StandingAt;
    LastOne(recs[..n], recs[n]);
    assert recs[..n] + [recs[n]] == recs[..n + 1];
    if ShareBuild(recs[..n]).Some? {
      var s, plan := ShareBuild(recs[..n]).value, Build(recs[..n]).value;
      BuiltWellFormed(recs[..n]);
      ReadIffAll(s, plan);
      StepIff(s, plan, recs[n]);
      if ShareStep(s, recs[n]).Some? { ReadIffAll(ShareStep(s, recs[n]).value, Step(plan, recs[n]).value); }
    }
  }

  lemma {:induction false} AlikeUpTo(recs: seq<Rec>, n: nat)
    requires n <= |recs|
    requires forall i ::
      0 <= i < n && ShareBuild(recs[..i]).Some? ==> StaysAlike(ShareBuild(recs[..i]).value, recs[i])
    ensures AlikeAfter(recs[..n])
    decreases n
  {
    if n == 0 {
      StartWellFormed();
      assert recs[..0] == [];
    } else {
      hide ShareBuild, AlikeAfter, StaysAlike;
      AlikeUpTo(recs, n - 1);
      AlikeNext(recs, n - 1);
    }
  }

  /** For every list, however many of its recommendations are for parts of probes: the patches in place are the
      same documents as those with copies, all along the build, if and only if each recommendation is one that
      keeps them so. */
  lemma AlikeThroughoutIff(recs: seq<Rec>)
    ensures (forall n :: 0 <= n <= |recs| ==> AlikeAfter(recs[..n])) <==>
      (forall n ::
         0 <= n < |recs| && ShareBuild(recs[..n]).Some? ==> StaysAlike(ShareBuild(recs[..n]).value, recs[n]))
  {
    hide ShareBuild, AlikeAfter, StaysAlike;
    if forall n :: 0 <= n < |recs| && ShareBuild(recs[..n]).Some? ==> StaysAlike(ShareBuild(recs[..n]).value, recs[n]) {
      forall n | 0 <= n <= |recs| ensures AlikeAfter(recs[..n]) { AlikeUpTo(recs, n); }
    }
    if forall n :: 0 <= n <= |recs| ==> AlikeAfter(recs[..n]) {
      forall n | 0 <= n < |recs| && ShareBuild(recs[..n]).Some?
        ensures StaysAlike(ShareBuild(recs[..n]).value, recs[n])
      {
        AlikeNext(recs, n);
      }
    }
  }
}
