/** What the patches read when they are written out, and what a recommendation for a part of an added probe does:
    it is set in the template that every patch with that probe refers to. */
module PatchReading {
  import opened Text
  import opened NestedSet
  import opened NestedStore
  import opened NestedUpdate
  import opened PatchPlan
  import opened PatchSharing

  /** What is found at a place of a document. */
  datatype Kind = AnObject | AList | Scalar(text: string)

  function KindOf(d: Json): Kind
    requires !d.Shared?
  {
    match d
    case Obj(_) => AnObject
    case Arr(_) => AList
    case Leaf(text) => Scalar(text)
  }

  /** What is found at a path, references followed; a template may refer to itself. */
  function Look(t: Templates, d: Json, p: seq<Cell>): Option<Kind>
    decreases |p|, if d.Shared? then 1 else 0
  {
    if d.Shared? then if d.id in t then Look(t, t[d.id], p) else None
    else if p == [] then Some(KindOf(d))
    else if Has(d, p[0]) then Look(t, Part(d, p[0]), p[1..])
    else None
  }

  /** The patches in place and those of the plan are the same documents, at every path. */
  ghost predicate ReadAlike(s: Sharing, plan: Plan) {
    s.docs.Keys == plan.patches.Keys
    && forall k, p :: k in s.docs ==> Look(s.tpls, s.docs[k], p) == Look(map[], plan.patches[k], p)
  }

  // ---- reading ---------------------------------------------------------------------------------

  lemma PartRefs(d: Json, c: Cell)
    requires Has(d, c)
    ensures forall p :: RefAt(Part(d, c), p) == RefAt(d, [c] + p)
  {
    forall p ensures RefAt(Part(d, c), p) == RefAt(d, [c] + p) {
      RefPart(d, [c] + p);
      assert ([c] + p)[1..] == p;
    }
  }

  lemma OwnPart(d: Json, c: Cell)
    requires Own(d) && Has(d, c)
    ensures Own(Part(d, c))
  {
    CopiedParts(d);
    PartRefs(d, c);
    hide Copied, RefAt;
  }

  lemma OwnRoot(d: Json)
    requires Own(d)
    ensures !d.Shared?
  {
    assert RefAt(d, []).None?;
  }

  /** A document without references reads the same whatever the templates are. */
  lemma {:induction false} LookOwn(t: Templates, u: Templates, d: Json, p: seq<Cell>)
    requires Own(d)
    ensures Look(t, d, p) == Look(u, d, p)
    decreases |p|
  {
    OwnRoot(d);
    if p != [] && Has(d, p[0]) {
      OwnPart(d, p[0]);
      hide Own;
      LookOwn(t, u, Part(d, p[0]), p[1..]);
    }
  }

  lemma PristineOwn(id: nat)
    requires id in PRISTINE
    ensures Own(PRISTINE[id])
  {
    OwnProbe("10", "10");
    OwnProbe("5", "5");
    hide Own, Probe;
  }

  lemma OwnProbe(delay: string, period: string)
    ensures Own(Probe(delay, period))
  {
    OwnLeaf("/health");
    OwnLeaf("http");
    OwnLeaf(delay);
    OwnLeaf(period);
    OwnLeaf("3");
    hide Own;
    OwnObj(map["path" := Leaf("/health"), "port" := Leaf("http")]);
    OwnObj(map["httpGet" := Obj(map["path" := Leaf("/health"), "port" := Leaf("http")]),
               "initialDelaySeconds" := Leaf(delay), "periodSeconds" := Leaf(period), "failureThreshold" := Leaf("3")]);
  }

  /** Every reference is to one of the two templates. */
  ghost predicate Known(d: Json) {
    forall p :: RefAt(d, p).Some? ==> RefAt(d, p).value in PRISTINE
  }

  /** With the templates untouched, a document reads as its copy. */
  lemma {:induction false} LookCopied(d: Json, p: seq<Cell>)
    requires Known(d)
    ensures Look(PRISTINE, d, p) == Look(map[], Copied(d), p)
    decreases |p|
  {
    if d.Shared? {
      assert RefAt(d, []) == Some(d.id);
      PristineOwn(d.id);
      LookOwn(PRISTINE, map[], PRISTINE[d.id], p);
      hide Own, PRISTINE;
      OwnStill(d.id);
    } else {
      CopiedParts(d);
      if p != [] && Has(d, p[0]) {
        PartRefs(d, p[0]);
        hide Copied, RefAt;
        LookCopied(Part(d, p[0]), p[1..]);
      }
    }
  }

  lemma OwnStill(id: nat)
    requires id in PRISTINE
    ensures Copied(Shared(id)) == PRISTINE[id] && !PRISTINE[id].Shared?
  {
  }

  lemma {:induction false} LookAlong(t: Templates, d: Json, p: seq<Cell>, s: seq<Cell>)
    requires Get(d, p).Some?
    ensures Look(t, d, p + s) == Look(t, Get(d, p).value, s)
    decreases |p|
  {
    if p == [] {
      assert p + s == s;
    } else {
      assert Has(d, p[0]) && (p + s)[1..] == p[1..] + s && (p + s)[0] == p[0];
      LookAlong(t, Part(d, p[0]), p[1..], s);
    }
  }

  /** A template in the place of a reference to it reads the same. */
  lemma {:induction false} Unfold(t: Templates, d: Json, q: seq<Cell>, id: nat, p: seq<Cell>)
    requires RefAt(d, q) == Some(id) && id in t
    ensures Look(t, d, p) == Look(t, Replace(d, q, t[id]), p)
    decreases |q|
  {
    if q != [] {
      RefPart(d, q);
      var part := Part(d, q[0]);
      PutParts(d, q[0], Replace(part, q[1..], t[id]));
      hide Put, RefAt;
      if p != [] && Has(d, p[0]) && p[0] == q[0] { Unfold(t, part, q[1..], id, p[1..]); }
    }
  }

  /** A template that is not referred to does not matter. */
  lemma {:induction false} LookFree(x: Json, d: Json, id: nat, p: seq<Cell>)
    requires id in PRISTINE && !x.Shared? && Known(d) && forall s :: RefAt(d, s) != Some(id)
    ensures Look(PRISTINE[id := x], d, p) == Look(PRISTINE, d, p)
    decreases |p|
  {
    var t: Templates := PRISTINE[id := x];
    if d.Shared? {
      assert RefAt(d, []) == Some(d.id);
      PristineOwn(d.id);
      LookOwn(t, PRISTINE, PRISTINE[d.id], p);
      hide Own;
    } else if p != [] && Has(d, p[0]) {
      PartRefs(d, p[0]);
      hide RefAt, PRISTINE;
      LookFree(x, Part(d, p[0]), id, p[1..]);
    }
  }

  lemma {:induction false} CopiedReplace(d: Json, q: seq<Cell>, x: Json)
    requires Get(d, q).Some?
    ensures Get(Copied(d), q).Some? && Copied(Replace(d, q, x)) == Replace(Copied(d), q, Copied(x))
    decreases |q|
  {
    CopiedGet(d, q);
    if q != [] {
      CopiedParts(d);
      CopiedReplace(Part(d, q[0]), q[1..], x);
      CopiedPut(d, q[0], Replace(Part(d, q[0]), q[1..], x));
      hide Copied, Put;
    }
  }

  /** The references after one of them was replaced. */
  lemma {:induction false} RefAfterReplace(d: Json, q: seq<Cell>, x: Json, p: seq<Cell>)
    requires RefAt(d, q).Some?
    ensures RefAt(Replace(d, q, x), p) == if q <= p then RefAt(x, p[|q|..]) else RefAt(d, p)
    decreases |q|
  {
    if q != [] {
      RefPart(d, q);
      var part := Part(d, q[0]);
      RefAfterPut(d, q[0], Replace(part, q[1..], x), p);
      if p != [] && p[0] == q[0] {
        PrefixRest(q, p);
        RefPart(d, p);
        RefAfterReplace(part, q[1..], x, p[1..]);
        if q <= p { assert p[1..][|q| - 1..] == p[|q|..]; }
      }
      hide RefAt, Put;
    }
  }

  // ---- a recommendation below a standing probe -------------------------------------------------

  /** At a reference the path leads into the template. */
  lemma {:induction false} FindThrough(t: Templates, base: Option<nat>, d: Json, walked: seq<Cell>, q: seq<Cell>,
      id: nat, rest: seq<Cell>)
    requires RefAt(d, q) == Some(id) && id in t && rest != []
    ensures Find(t, base, d, walked, q + rest) == Find(t, Some(id), t[id], [], rest)
    decreases |q|
  {
    if q == [] {
      assert q + rest == rest;
    } else {
      RefPart(d, q);
      assert (q + rest)[0] == q[0] && (q + rest)[1..] == q[1..] + rest;
      FindThrough(t, base, Part(d, q[0]), walked + [q[0]], q[1..], id, rest);
      hide RefAt;
    }
  }

  lemma FindBelow(d: Json, q: seq<Cell>, id: nat, rest: seq<Cell>)
    requires RefAt(d, q) == Some(id) && id in PRISTINE && rest != []
    ensures Find(PRISTINE, None, d, [], q + rest) == (Some(id), rest) && Clear(PRISTINE[id], rest)
  {
    FindThrough(PRISTINE, None, d, [], q, id, rest);
    PristineOwn(id);
    ClearIff(PRISTINE[id], rest);
    ClearStays(PRISTINE, Some(id), PRISTINE[id], [], rest);
    assert [] + rest == rest;
    hide PRISTINE, Find, Clear;
  }

  /** Setting what is there changes nothing. */
  lemma {:induction false} SetSame(d: Json, path: seq<Cell>, v: Json)
    requires path != [] && Get(d, path) == Some(v)
    ensures Set(d, path, v) == Some(d)
    decreases |path|
  {
    assert Has(d, path[0]);
    if |path| > 1 { SetSame(Part(d, path[0]), path[1..], v); }
    PutSame(d, path[0]);
  }

  lemma PutSame(d: Json, c: Cell)
    requires Has(d, c)
    ensures Put(d, c, Part(d, c)) == d
  {
    if c.Name? {
      assert d.fields[c.key := d.fields[c.key]] == d.fields;
    } else {
      assert Put(d, c, Part(d, c)).items == d.items;
    }
  }

  lemma {:induction false} ReplaceSame(d: Json, q: seq<Cell>)
    requires Get(d, q).Some?
    ensures Replace(d, q, Get(d, q).value) == d
    decreases |q|
  {
    if q != [] {
      assert Has(d, q[0]);
      ReplaceSame(Part(d, q[0]), q[1..]);
      PutSame(d, q[0]);
    }
  }

  /** The patches and the templates after a step below the probe at `q` of `key`, where the template fits it. */
  predicate Reaches(s: Sharing, nu: Sharing, plan: Plan, key: Key, q: seq<Cell>, id: nat, x: Json)
    requires RefAt(PatchFor(s.docs, key), q) == Some(id) && id in PRISTINE && !x.Shared?
  {
    var doc := PatchFor(s.docs, key);
    CopiedReplace(doc, q, x);
    && nu.docs == s.docs[key := doc] && nu.tpls == PRISTINE[id := x]
    && plan.patches == PlanOf(s).patches[key := Copied(Replace(doc, q, x))]
  }

  lemma StepBelow(recs: seq<Rec>, s: Sharing, rec: Rec, q: seq<Cell>, rest: seq<Cell>, id: nat)
    requires InStep(recs, s) && KeyOf(rec).Some? && PathOf(rec) == q + rest && rest != [] && id in PRISTINE
    requires RefAt(PatchFor(s.docs, KeyOf(rec).value), q) == Some(id)
    ensures var nu, plan, x := ShareStep(s, rec), Step(PlanOf(s), rec), Set(PRISTINE[id], rest, ItemOf(rec));
      && (nu.Some? <==> plan.Some?)
      && (x.None? && nu.Some? ==>
            nu.value.docs == s.docs[KeyOf(rec).value := PatchFor(s.docs, KeyOf(rec).value)]
            && nu.value.tpls == PRISTINE && plan.value == PlanOf(nu.value))
      && (x.Some? ==> nu.Some? && Reaches(s, nu.value, plan.value, KeyOf(rec).value, q, id, x.value))
  {
    var k := KeyOf(rec).value;
    var doc := PatchFor(s.docs, k);
    FindBelow(doc, q, id, rest);
    CopiedFor(s, k);
    CopiedGet(doc, q);
    OwnStill(id);
    ItemCopied(rec);
    PristineOwn(id);
    CopiedSet(PRISTINE[id], rest, ItemOf(rec));
    SetBelow(Copied(doc), q, rest, ValueOf(rec));
    var x := Set(PRISTINE[id], rest, ItemOf(rec));
    if x.Some? {
      CopiedReplace(doc, q, x.value);
    } else {
      WriteCopied(s, k, doc, s.comments, s.manual + [rec]);
    }
    hide KeyOf, PathOf, PatchFor, Find, Set, ItemOf, ValueOf, AddsProbe, Clear, Copied, PRISTINE, Replace, Build,
      StandingAt;
  }

  lemma KnownDocs(recs: seq<Rec>, s: Sharing, key: Key)
    requires InStep(recs, s)
    ensures Known(PatchFor(s.docs, key))
  {
    forall p | RefAt(PatchFor(s.docs, key), p).Some? ensures RefAt(PatchFor(s.docs, key), p).value in PRISTINE {
      StandingWasAdded(recs, key, p);
    }
    hide RefAt, PatchFor, StandingAt, PRISTINE, Build;
  }

  /** Nothing but the place at `q` of `key` refers to the template. */
  ghost predicate OnlyThere(s: Sharing, key: Key, q: seq<Cell>, id: nat) {
    forall k, p :: RefAt(PatchFor(s.docs, k), p) == Some(id) ==> k == key && p == q
  }

  /** A change below the only reference is a change of the one patch. */
  lemma AlikeIfOnly(recs: seq<Rec>, s: Sharing, nu: Sharing, plan: Plan, key: Key, q: seq<Cell>, id: nat, x: Json)
    requires InStep(recs, s) && RefAt(PatchFor(s.docs, key), q) == Some(id) && id in PRISTINE && !x.Shared?
    requires Reaches(s, nu, plan, key, q, id, x) && OnlyThere(s, key, q, id)
    requires Known(x) && forall p :: RefAt(x, p) != Some(id)
    ensures ReadAlike(nu, plan)
  {
    var doc := PatchFor(s.docs, key);
    var r := Replace(doc, q, x);
    forall k, p | k in nu.docs ensures Look(nu.tpls, nu.docs[k], p) == Look(map[], plan.patches[k], p) {
      KnownDocs(recs, s, k);
      if k == key {
        Unfold(nu.tpls, doc, q, id, p);
        forall o ensures RefAt(r, o) != Some(id) && (RefAt(r, o).Some? ==> RefAt(r, o).value in PRISTINE) {
          RefAfterReplace(doc, q, x, o);
        }
        LookFree(x, r, id, p);
        LookCopied(r, p);
      } else {
        assert PatchFor(s.docs, k) == nu.docs[k];
        LookFree(x, nu.docs[k], id, p);
        LookCopied(nu.docs[k], p);
      }
      hide Look, Copied, RefAt, PRISTINE, Build, StandingAt, Replace, NewPatch;
    }
    hide Look, Copied, RefAt, PRISTINE, Build, StandingAt, Replace, PatchFor;
  }

  /** Setting what the template has is no change. */
  lemma AlikeIfSame(recs: seq<Rec>, s: Sharing, nu: Sharing, plan: Plan, key: Key, q: seq<Cell>, id: nat, x: Json)
    requires InStep(recs, s) && RefAt(PatchFor(s.docs, key), q) == Some(id) && id in PRISTINE && !x.Shared?
    requires Reaches(s, nu, plan, key, q, id, x) && x == PRISTINE[id]
    ensures ReadAlike(nu, plan)
  {
    var doc := PatchFor(s.docs, key);
    CopiedReplace(doc, q, x);
    CopiedGet(doc, q);
    OwnStill(id);
    PristineOwn(id);
    ReplaceSame(Copied(doc), q);
    assert nu.tpls == PRISTINE;
    assert Copied(Replace(doc, q, x)) == Copied(doc);
    AlikeAsCopied(recs, s, nu, plan, key);
    hide Look, Copied, RefAt, PRISTINE, Build, StandingAt, Replace, PatchFor;
  }

  lemma AlikeAsCopied(recs: seq<Rec>, s: Sharing, nu: Sharing, plan: Plan, key: Key)
    requires InStep(recs, s) && nu.tpls == PRISTINE && nu.docs == s.docs[key := PatchFor(s.docs, key)]
    requires plan.patches == PlanOf(s).patches[key := Copied(PatchFor(s.docs, key))]
    ensures ReadAlike(nu, plan)
  {
    forall k, p | k in nu.docs ensures Look(nu.tpls, nu.docs[k], p) == Look(map[], plan.patches[k], p) {
      KnownDocs(recs, s, k);
      assert PatchFor(s.docs, k) == nu.docs[k];
      LookCopied(nu.docs[k], p);
      hide Look, Copied, RefAt, PRISTINE, Build, StandingAt, NewPatch;
    }
    hide Look, Copied, RefAt, PRISTINE, Build, StandingAt, PatchFor;
  }

  // ---- where it shows --------------------------------------------------------------------------

  lemma RefsApart(d: Json, p: seq<Cell>, q: seq<Cell>)
    requires RefAt(d, p).Some? && RefAt(d, q).Some? && q <= p
    ensures p == q
    decreases |q|
  {
    if q == [] {
      assert Get(d, []) == Some(d);
    } else {
      RefPart(d, p);
      RefPart(d, q);
      PrefixRest(q, p);
      RefsApart(Part(d, p[0]), p[1..], q[1..]);
      hide RefAt;
    }
  }

  /** A key that starts as the names of the probes do. */
  predicate LikeProbe(c: Cell) {
    c.Name? && c.key != [] && (c.key[0] == 'l' || c.key[0] == 'r')
  }

  /** No part of the document, at any depth, has such a key. */
  ghost predicate NoProbes(d: Json) {
    forall p :: p != [] && LikeProbe(p[|p| - 1]) ==> Look(map[], d, p).None?
  }

  lemma NoProbesLeaf(text: string)
    ensures NoProbes(Leaf(text))
  {
  }

  lemma NoProbesNone()
    ensures NoProbes(Obj(map[]))
  {
  }

  lemma NoProbesAdd(fields: map<string, Json>, k: string, d: Json)
    requires NoProbes(Obj(fields)) && !LikeProbe(Name(k)) && NoProbes(d)
    ensures NoProbes(Obj(fields[k := d]))
  {
    forall p: seq<Cell> | p != [] && LikeProbe(p[|p| - 1]) ensures Look(map[], Obj(fields[k := d]), p).None? {
      if p[0] == Name(k) {
        assert |p| > 1 && p[1..][|p| - 2] == p[|p| - 1];
        assert Look(map[], Obj(fields[k := d]), p) == Look(map[], d, p[1..]);
      } else {
        assert Look(map[], Obj(fields[k := d]), p) == Look(map[], Obj(fields), p);
      }
    }
  }

  lemma Starts()
    ensures LikeProbe(Name("livenessProbe")) && LikeProbe(Name("readinessProbe"))
    ensures !LikeProbe(Name("path")) && !LikeProbe(Name("port"))
    ensures !LikeProbe(Name("httpGet")) && !LikeProbe(Name("initialDelaySeconds"))
    ensures !LikeProbe(Name("periodSeconds")) && !LikeProbe(Name("failureThreshold"))
  {
  }

  /** No probe is part of a probe. */
  lemma NoProbeInProbe(delay: string, period: string)
    ensures NoProbes(Probe(delay, period))
  {
    hide NoProbes, LikeProbe;
    Starts();
    NoProbesNone();
    NoProbesLeaf("/health");
    NoProbesLeaf("http");
    NoProbesLeaf(delay);
    NoProbesLeaf(period);
    NoProbesLeaf("3");
    var get := map["path" := Leaf("/health")];
    NoProbesAdd(map[], "path", Leaf("/health"));
    NoProbesAdd(get, "port", Leaf("http"));
    var first := map["httpGet" := Obj(get["port" := Leaf("http")])];
    var second := first["initialDelaySeconds" := Leaf(delay)];
    NoProbesAdd(map[], "httpGet", Obj(get["port" := Leaf("http")]));
    NoProbesAdd(first, "initialDelaySeconds", Leaf(delay));
    NoProbesAdd(second, "periodSeconds", Leaf(period));
    NoProbesAdd(second["periodSeconds" := Leaf(period)], "failureThreshold", Leaf("3"));
  }

  lemma PristineNoProbes(id: nat)
    requires id in PRISTINE
    ensures NoProbes(PRISTINE[id])
  {
    hide NoProbes, Probe;
    NoProbeInProbe("10", "10");
    NoProbeInProbe("5", "5");
  }

  lemma ProbeLast(rec: Rec)
    requires AddsProbe(rec)
    ensures var last := PathOf(rec)[|PathOf(rec)| - 1]; last == Name("livenessProbe") || last == Name("readinessProbe")
  {
    var probe := ProbeOf(rec.field).value;
    ExpandLast(Split(BeforeLast(rec.field, "." + probe, |rec.field|), '.') + [probe]);
    hide Expand, Split, BeforeLast, EndsWith;
  }

  lemma {:induction false} ReadsScalar(d: Json, p: seq<Cell>, text: string)
    requires Look(map[], d, p) == Some(Scalar(text))
    ensures Get(d, p) == Some(Leaf(text))
    decreases |p|
  {
    if p != [] && Has(d, p[0]) { ReadsScalar(Part(d, p[0]), p[1..], text); }
  }

  lemma ProbeShows(t: Templates, id: nat, rec: Rec, q: seq<Cell>, rest: seq<Cell>)
    requires id in PRISTINE && PathOf(rec) == q + rest && rest != [] && PRISTINE.Keys <= t.Keys && AddsProbe(rec)
    ensures Look(t, ItemOf(rec), []).Some? && Look(map[], PRISTINE[id], rest).None?
  {
    hide AddsProbe, PathOf, ProbeOf, Probe, LikeProbe, PRISTINE;
    ProbeLast(rec);
    Starts();
    PristineNoProbes(id);
    assert rest[|rest| - 1] == PathOf(rec)[|PathOf(rec)| - 1];
    assert TemplateOf(rec) in t && !t[TemplateOf(rec)].Shared?;
  }

  /** What was set in the template is not what the template reads. */
  lemma ChangeShows(t: Templates, id: nat, rec: Rec, q: seq<Cell>, rest: seq<Cell>)
    requires id in PRISTINE && PathOf(rec) == q + rest && rest != [] && PRISTINE.Keys <= t.Keys
    requires Get(PRISTINE[id], rest) != Some(ItemOf(rec))
    ensures Look(t, ItemOf(rec), []).Some? && Look(t, ItemOf(rec), []) != Look(map[], PRISTINE[id], rest)
  {
    hide AddsProbe, PathOf, ProbeOf, Probe, PRISTINE, TemplateOf, Get;
    if AddsProbe(rec) {
      ProbeShows(t, id, rec, q, rest);
    } else {
      assert Look(t, ItemOf(rec), []) == Some(Scalar(rec.value));
      if Look(map[], PRISTINE[id], rest) == Some(Scalar(rec.value)) { ReadsScalar(PRISTINE[id], rest, rec.value); }
    }
  }

  /** Another reference reads the change, and its copy does not. */
  lemma OtherReads(s: Sharing, nu: Sharing, plan: Plan, key: Key, q: seq<Cell>, id: nat, x: Json, w: Json,
      rest: seq<Cell>, k: Key, p: seq<Cell>)
    requires RefAt(PatchFor(s.docs, key), q) == Some(id) && id in PRISTINE && !x.Shared?
    requires Reaches(s, nu, plan, key, q, id, x) && Get(x, rest) == Some(w)
    requires RefAt(PatchFor(s.docs, k), p) == Some(id) && !(k == key && p == q)
    ensures k in nu.docs && k in plan.patches && nu.docs[k] == PatchFor(s.docs, k)
    ensures Look(nu.tpls, nu.docs[k], p + rest) == Look(nu.tpls, w, [])
    ensures Look(map[], plan.patches[k], p + rest) == Look(map[], PRISTINE[id], rest)
  {
    var doc, d := PatchFor(s.docs, key), PatchFor(s.docs, k);
    NewPatchPlain(k);
    LookAlong(nu.tpls, d, p, rest);
    LookAlong(nu.tpls, x, rest, []);
    assert rest + [] == rest;
    assert Look(nu.tpls, Shared(id), rest) == Look(nu.tpls, x, rest);
    var e := if k == key then Replace(doc, q, x) else d;
    if k == key {
      RefAfterReplace(doc, q, x, p);
      if q <= p { RefsApart(doc, p, q); }
    }
    CopiedGet(e, p);
    OwnStill(id);
    LookAlong(map[], Copied(e), p, rest);
    hide Look, Copied, PRISTINE, Replace, NewPatch;
  }

  /** A template that now refers to itself reads on without end, its copy does not. */
  lemma SelfReads(s: Sharing, nu: Sharing, plan: Plan, key: Key, q: seq<Cell>, id: nat, x: Json, rest: seq<Cell>)
    requires RefAt(PatchFor(s.docs, key), q) == Some(id) && id in PRISTINE && !x.Shared?
    requires Reaches(s, nu, plan, key, q, id, x) && Get(x, rest) == Some(Shared(id))
    ensures key in nu.docs && key in plan.patches
    ensures Look(nu.tpls, nu.docs[key], q + (rest + rest)) == Look(nu.tpls, Shared(id), [])
    ensures Look(map[], plan.patches[key], q + (rest + rest)) == Look(map[], PRISTINE[id], rest)
  {
    var doc := PatchFor(s.docs, key);
    LookAlong(nu.tpls, doc, q, rest + rest);
    LookAlong(nu.tpls, x, rest, rest);
    LookAlong(nu.tpls, x, rest, []);
    assert rest + [] == rest;
    assert forall p :: Look(nu.tpls, Shared(id), p) == Look(nu.tpls, x, p);
    var e := Replace(doc, q, x);
    ReplaceLaws(doc, q, x);
    CopiedGet(e, q);
    CopiedGet(x, rest);
    OwnStill(id);
    LookAlong(map[], Copied(e), q, rest + rest);
    LookAlong(map[], Copied(x), rest, rest);
    hide Look, Copied, PRISTINE, Replace, NewPatch;
  }

  // ---- the first one below ---------------------------------------------------------------------

  /** By the recommendations alone: the template has no such place, or has that value there already, or stands
      nowhere else and does not come to stand within itself. */
  ghost predicate NoHarm(recs: seq<Rec>, rec: Rec, n: nat, id: nat)
    requires KeyOf(rec).Some? && n < |PathOf(rec)| && id in PRISTINE
  {
    var key, path := KeyOf(rec).value, PathOf(rec);
    || Set(PRISTINE[id], path[n..], ItemOf(rec)).None?
    || Get(PRISTINE[id], path[n..]) == Some(ItemOf(rec))
    || (ItemOf(rec) != Shared(id) && forall k, p :: StandingAt(recs, k, p) == Some(id) ==> k == key && p == path[..n])
  }

  /** The first recommendation for a part of a probe that stands is set in the template. It raises exactly when
      it raises in `Build`; the patches are still the same documents exactly when it does no harm. */
  lemma FirstBelowIff(recs: seq<Rec>, rec: Rec, n: nat, id: nat)
    requires NothingBelow(recs) && ShareBuild(recs).Some? && Build(recs).Some?
    requires KeyOf(rec).Some? && n < |PathOf(rec)| && StandingAt(recs, KeyOf(rec).value, PathOf(rec)[..n]) == Some(id)
    ensures id in PRISTINE
    ensures var nu, plan := ShareStep(ShareBuild(recs).value, rec), Step(Build(recs).value, rec);
      && (nu.Some? <==> plan.Some?)
      && (nu.Some? ==> (ReadAlike(nu.value, plan.value) <==> NoHarm(recs, rec, n, id)))
  {
    hide ShareBuild, Build, StandingAt, KeyOf, PathOf, ReadAlike, NoHarm, PRISTINE;
    KeepsStep(recs);
    BelowIff(recs, ShareBuild(recs).value, rec, n, id);
  }

  lemma BelowIff(recs: seq<Rec>, s: Sharing, rec: Rec, n: nat, id: nat)
    requires InStep(recs, s) && KeyOf(rec).Some? && n < |PathOf(rec)|
    requires StandingAt(recs, KeyOf(rec).value, PathOf(rec)[..n]) == Some(id)
    ensures id in PRISTINE
    ensures var nu, plan := ShareStep(s, rec), Step(PlanOf(s), rec);
      && (nu.Some? <==> plan.Some?)
      && (nu.Some? ==> (ReadAlike(nu.value, plan.value) <==> NoHarm(recs, rec, n, id)))
  {
    hide KeyOf, PathOf, ItemOf, PRISTINE, Set, Get, ShareStep, Step, PlanOf, ReadAlike, StandingAt, Reaches, Build,
      Look;
    var key, path := KeyOf(rec).value, PathOf(rec);
    var q, rest := path[..n], path[n..];
    assert path == q + rest;
    StandingWasAdded(recs, key, q);
    StepBelow(recs, s, rec, q, rest, id);
    var nu, plan, x := ShareStep(s, rec), Step(PlanOf(s), rec), Set(PRISTINE[id], rest, ItemOf(rec));
    if x.Some? {
      GetAfterSet(PRISTINE[id], rest, ItemOf(rec));
      ChangedIff(recs, s, nu.value, plan.value, rec, q, rest, id, x.value);
    } else if nu.Some? {
      KeptAlike(recs, s, nu.value, key);
    }
  }

  lemma KeptAlike(recs: seq<Rec>, s: Sharing, nu: Sharing, key: Key)
    requires InStep(recs, s) && nu.tpls == PRISTINE && nu.docs == s.docs[key := PatchFor(s.docs, key)]
    ensures ReadAlike(nu, PlanOf(nu))
  {
    WriteCopied(s, key, PatchFor(s.docs, key), nu.comments, nu.manual);
    AlikeAsCopied(recs, s, nu, PlanOf(nu), key);
    hide Copied, PRISTINE, PatchFor, ReadAlike;
  }

  lemma ChangedIff(recs: seq<Rec>, s: Sharing, nu: Sharing, plan: Plan, rec: Rec, q: seq<Cell>, rest: seq<Cell>,
      id: nat, x: Json)
    requires InStep(recs, s) && KeyOf(rec).Some? && PathOf(rec) == q + rest && rest != [] && id in PRISTINE
    requires RefAt(PatchFor(s.docs, KeyOf(rec).value), q) == Some(id) && !x.Shared?
    requires Set(PRISTINE[id], rest, ItemOf(rec)) == Some(x) && Get(x, rest) == Some(ItemOf(rec))
    requires Reaches(s, nu, plan, KeyOf(rec).value, q, id, x)
    ensures ReadAlike(nu, plan) <==>
      || Get(PRISTINE[id], rest) == Some(ItemOf(rec))
      || (ItemOf(rec) != Shared(id) && OnlyThere(s, KeyOf(rec).value, q, id))
  {
    hide KeyOf, PathOf, ItemOf, PRISTINE, Set, Get, InStep, Look, RefAt, PatchFor;
    var key := KeyOf(rec).value;
    if Get(PRISTINE[id], rest) == Some(ItemOf(rec)) {
      SetSame(PRISTINE[id], rest, ItemOf(rec));
      AlikeIfSame(recs, s, nu, plan, key, q, id, x);
    } else {
      ChangeShows(nu.tpls, id, rec, q, rest);
      if ItemOf(rec) == Shared(id) {
        SelfReads(s, nu, plan, key, q, id, x, rest);
      } else if OnlyThere(s, key, q, id) {
        TemplateRefs(id, rec, rest, x);
        AlikeIfOnly(recs, s, nu, plan, key, q, id, x);
      } else {
        var k, p :| RefAt(PatchFor(s.docs, k), p) == Some(id) && !(k == key && p == q);
        OtherReads(s, nu, plan, key, q, id, x, ItemOf(rec), rest, k, p);
      }
    }
  }

  /** The changed template refers to what was set in it, if anything. */
  lemma TemplateRefs(id: nat, rec: Rec, rest: seq<Cell>, x: Json)
    requires id in PRISTINE && rest != [] && Set(PRISTINE[id], rest, ItemOf(rec)) == Some(x)
    ensures Known(x) && (ItemOf(rec) != Shared(id) ==> forall p :: RefAt(x, p) != Some(id))
  {
    PristineOwn(id);
    ClearIff(PRISTINE[id], rest);
    ItemCopied(rec);
    assert RefAt(ItemOf(rec), []).Some? ==> ItemOf(rec).Shared? && ItemOf(rec).id in PRISTINE;
    forall p ensures RefAt(x, p).Some? ==> RefAt(ItemOf(rec), []) == RefAt(x, p) {
      RefAfterSet(PRISTINE[id], rest, ItemOf(rec), p);
    }
    hide ItemOf, PRISTINE, Set, Clear, Copied;
  }

  /** Where nothing is set below a standing probe, the patches in place read as those of `Build` at every path. */
  lemma ReadsAsBuilt(recs: seq<Rec>)
    requires NothingBelow(recs) && ShareBuild(recs).Some? && Build(recs).Some?
    ensures ReadAlike(ShareBuild(recs).value, Build(recs).value)
  {
    hide ShareBuild, Build, Look, Copied, RefAt, PRISTINE, NothingBelow, StandingAt;
    KeepsStep(recs);
    var s := ShareBuild(recs).value;
    forall k, p | k in s.docs ensures Look(s.tpls, s.docs[k], p) == Look(map[], Build(recs).value.patches[k], p) {
      KnownDocs(recs, s, k);
      LookCopied(s.docs[k], p);
    }
  }

  // ---- two deployments -------------------------------------------------------------------------

  const LIVE_FIELD: string := "spec" + "." + "livenessProbe"
  const PERIOD_FIELD: string := LIVE_FIELD + "." + "periodSeconds"

  function AddLive(name: string): Rec {
    Rec("deployment/" + name, LIVE_FIELD, "", "추가", "")
  }

  function SetPeriod(name: string, value: string): Rec {
    Rec("deployment/" + name, PERIOD_FIELD, "10", value, value)
  }

  const LIVE_PATH: seq<Cell> := [Name("spec"), Name("livenessProbe")]

  lemma {:induction false} SlashAt(kind: string, name: string)
    requires '/' !in kind
    ensures Slash(kind + "/" + name) == |kind|
  {
    var s := kind + "/" + name;
    if kind != [] {
      SlashAt(kind[1..], name);
      assert s[1..] == kind[1..] + "/" + name;
    }
  }

  lemma DeploymentKey(rec: Rec, name: string)
    requires rec.target == "deployment/" + name
    ensures KeyOf(rec) == Some(("deployment", name))
  {
    hide Lower, Slash, IsNonK8s;
    SlashAt("deployment", name);
    var t := rec.target;
    assert t == "deployment" + "/" + name;
    assert t[..10] == "deployment" && t[11..] == name;
    NotNonK8s(t);
    DeploymentLower();
  }

  lemma NotNonK8s(target: string)
    requires target != [] && target[0] == 'd'
    ensures !IsNonK8s(target)
  {
    assert Lower(target)[0] == 'd';
  }

  lemma DeploymentLower()
    ensures Lower("deployment") == "deployment" && "deployment" in KIND_MAP
  {
  }

  lemma PlainCells(s: string)
    requires s != [] && s[|s| - 1] != ']'
    ensures Cells(s) == [Name(s)]
  {
  }

  /** A field of plain keys. */
  lemma TwoKeys(a: string, b: string)
    requires '.' !in a && '.' !in b && a != [] && a[|a| - 1] != ']'
    ensures Split(a + ['.'] + b, '.') == [a, b] && Expand([a, b]) == [Name(a), Name(b)]
  {
    SplitLast(a, b, '.');
    SplitPlain(a, '.');
    PlainCells(a);
    hide Split, Cells;
    assert [a, b][1..] == [b];
  }

  lemma ThreeKeys(two: string, a: string, b: string, c: string)
    requires Split(two, '.') == [a, b] && '.' !in c && a != [] && a[|a| - 1] != ']' && b != [] && b[|b| - 1] != ']'
    ensures Expand(Split(two + ['.'] + c, '.')) == [Name(a), Name(b)] + [Name(c)]
  {
    hide Split, Cells, Expand;
    SplitLast(two, c, '.');
    assert [a, b] + [c] == [a, b, c];
    ExpandThree(a, b, c);
  }

  lemma ExpandThree(a: string, b: string, c: string)
    requires a != [] && a[|a| - 1] != ']' && b != [] && b[|b| - 1] != ']'
    ensures Expand([a, b, c]) == [Name(a), Name(b), Name(c)]
  {
    hide Cells;
    PlainCells(a);
    PlainCells(b);
    assert [a, b, c][1..] == [b, c] && [b, c][1..] == [c];
    assert Expand([b, c]) == [Name(b)] + Expand([c]);
  }

  lemma LivePath(rec: Rec)
    requires rec.field == LIVE_FIELD && rec.to == "추가"
    ensures AddsProbe(rec) && TemplateOf(rec) == LIVE_ID && PathOf(rec) == LIVE_PATH
  {
    hide Split, Expand, Cells, PathOf;
    TwoKeys("spec", "livenessProbe");
    assert EndsWith(rec.field, "livenessProbe");
    ProbePath(rec, "spec", "livenessProbe");
  }

  lemma PeriodPath(rec: Rec)
    requires rec.field == PERIOD_FIELD
    ensures !AddsProbe(rec) && PathOf(rec) == LIVE_PATH + [Name("periodSeconds")]
  {
    hide Split, Expand, Cells;
    TwoKeys("spec", "livenessProbe");
    ThreeKeys(LIVE_FIELD, "spec", "livenessProbe", "periodSeconds");
    assert rec.field[|rec.field| - 1] == 's';
  }

  /** A new patch takes the probe. */
  lemma TakesProbe(recs: seq<Rec>, s: Sharing, name: string)
    requires InStep(recs, s) && !BelowStanding(recs, AddLive(name)) && ("deployment", name) !in s.docs
    ensures ShareStep(s, AddLive(name)).Some?
    ensures ShareStep(s, AddLive(name)).value.docs.Keys == s.docs.Keys + {("deployment", name)}
  {
    var rec := AddLive(name);
    hide InStep, BelowStanding, Set, AddsProbe, PathOf, KeyOf, TemplateOf, ShareStep, LIVE_FIELD;
    DeploymentKey(rec, name);
    LivePath(rec);
    InOwnPatch(recs, s, rec);
    ShareStepOwn(s, rec);
    NoSpecYet(("deployment", name));
    GrowSucceeds(NewPatch(("deployment", name)), LIVE_PATH, ItemOf(rec));
  }

  lemma NoSpecYet(key: Key)
    ensures NewPatch(key).Obj? && !Has(NewPatch(key), Name("spec"))
  {
    assert "spec"[0] == 's' && "apiVersion"[0] == 'a' && "kind"[0] == 'k' && "metadata"[0] == 'm';
  }

  lemma BothAbove(a: Rec, b: Rec)
    requires KeyOf(a) != KeyOf(b)
    ensures NothingBelow([a]) && NothingBelow([a, b]) && !BelowStanding([], a) && !BelowStanding([a], b)
  {
    hide BelowStanding, KeyOf, AddsProbe, PathOf;
    StayingAboveSuffices([a]);
    StayingAboveSuffices([a, b]);
    assert [a][..0] == [] && [a, b][..1] == [a] && [a, b][1] == b;
  }

  lemma BothTake(x: string, y: string)
    requires x != y
    ensures var recs, s := [AddLive(x), AddLive(y)], ShareBuild([AddLive(x), AddLive(y)]);
      && NothingBelow(recs) && s.Some? && InStep(recs, s.value)
      && StandingAt(recs, ("deployment", x), LIVE_PATH) == Some(LIVE_ID)
      && StandingAt(recs, ("deployment", y), LIVE_PATH) == Some(LIVE_ID)
  {
    hide InStep, BelowStanding, NothingBelow, AddsProbe, PathOf, KeyOf, TemplateOf, ShareStep, LIVE_FIELD, ShareBuild,
      StandingAt, Build, AddLive;
    var a, b := AddLive(x), AddLive(y);
    AddsLive(x);
    AddsLive(y);
    BothAbove(a, b);
    assert [] + [a] == [a] && [a] + [b] == [a, b];
    NothingYet();
    TakesProbe([], NO_PATCHES, x);
    LastOne([], a);
    KeepsStep([a]);
    TakesProbe([a], ShareBuild([a]).value, y);
    LastOne([a], b);
    KeepsStep([a, b]);
  }

  lemma AddsLive(name: string)
    ensures var rec := AddLive(name);
      && KeyOf(rec) == Some(("deployment", name)) && AddsProbe(rec)
      && TemplateOf(rec) == LIVE_ID && PathOf(rec) == LIVE_PATH
  {
    hide KeyOf, AddsProbe, TemplateOf, PathOf;
    DeploymentKey(AddLive(name), name);
    LivePath(AddLive(name));
  }

  lemma NothingYet()
    ensures ShareBuild([]) == Some(NO_PATCHES) && InStep([], NO_PATCHES)
  {
    KeepsNone();
  }

  /** Two deployments without a liveness probe, then a period for one of them: the other one's patch gets it too.
      With a copy of the template for each, it would not. */
  lemma SharedPeriod(x: string, y: string, value: string)
    requires x != y
    ensures var recs := [AddLive(x), AddLive(y)];
      NothingBelow(recs) && ShareBuild(recs).Some? && Build(recs).Some?
    ensures var recs, key, at := [AddLive(x), AddLive(y)], ("deployment", x), LIVE_PATH + [Name("periodSeconds")];
      var nu := ShareStep(ShareBuild(recs).value, SetPeriod(y, value));
      var plan := Step(Build(recs).value, SetPeriod(y, value));
      && nu.Some? && plan.Some? && key in nu.value.docs && key in plan.value.patches
      && Look(nu.value.tpls, nu.value.docs[key], at) == Some(Scalar(value))
      && Look(map[], plan.value.patches[key], at) == Some(Scalar("10"))
  {
    hide BelowStanding, Set, AddsProbe, PathOf, KeyOf, TemplateOf, ShareStep, Step, LIVE_FIELD, ShareBuild, StandingAt,
      Build, Look, PERIOD_FIELD, NothingBelow, RefAt, PatchFor;
    var recs, rec := [AddLive(x), AddLive(y)], SetPeriod(y, value);
    BothTake(x, y);
    var s := ShareBuild(recs).value;
    DeploymentKey(rec, y);
    PeriodPath(rec);
    var rest := [Name("periodSeconds")];
    StepBelow(recs, s, rec, LIVE_PATH, rest, LIVE_ID);
    var z := PeriodSet(rec, rest);
    OtherReads(s, ShareStep(s, rec).value, Step(PlanOf(s), rec).value, ("deployment", y), LIVE_PATH, LIVE_ID, z,
               ItemOf(rec), rest, ("deployment", x), LIVE_PATH);
  }

  lemma PeriodSet(rec: Rec, rest: seq<Cell>) returns (z: Json)
    requires !AddsProbe(rec) && rest == [Name("periodSeconds")]
    ensures Set(PRISTINE[LIVE_ID], rest, ItemOf(rec)) == Some(z) && Get(z, rest) == Some(ItemOf(rec)) && !z.Shared?
    ensures forall t :: Look(t, ItemOf(rec), []) == Some(Scalar(rec.value))
    ensures Look(map[], PRISTINE[LIVE_ID], rest) == Some(Scalar("10"))
  {
    z := Put(PRISTINE[LIVE_ID], rest[0], ItemOf(rec));
    GetAfterSet(PRISTINE[LIVE_ID], rest, ItemOf(rec));
  }
}
