/** The patch builder with the one probe template of each kind that all patches share, as it is: a probe that is
    added is a reference, so a later recommendation below it is set in the template.

    `Build` in `PatchPlan` gives every added probe a copy. Here is when that makes no difference. */
module PatchSharing {
  import opened Text
  import opened NestedSet
  import opened NestedStore
  import opened PatchPlan

  const LIVE_ID: nat := 1
  const READY_ID: nat := 3

  /** The templates as the program starts with them. */
  const PRISTINE: Templates := map[LIVE_ID := Probe("10", "10"), READY_ID := Probe("5", "5")]

  datatype Sharing = Sharing(docs: map<Key, Json>, tpls: Templates, comments: map<Key, seq<Rec>>, manual: seq<Rec>)

  function TemplateOf(rec: Rec): (id: nat)
    requires AddsProbe(rec)
    ensures id in PRISTINE && PRISTINE[id] == ValueOf(rec)
  {
    if ProbeOf(rec.field) == Some("livenessProbe") then LIVE_ID else READY_ID
  }

  /** What is assigned: the template itself, or the value. */
  function ItemOf(rec: Rec): Json {
    if AddsProbe(rec) then Shared(TemplateOf(rec)) else Leaf(rec.value)
  }

  const NO_PATCHES := Sharing(map[], PRISTINE, map[], [])

  /** One recommendation, set in the document its path really leads into. */
  function ShareStep(s: Sharing, rec: Rec): Option<Sharing> {
    var k := KeyOf(rec);
    if k.None? then Some(s.(manual := s.manual + [rec]))
    else
      var doc := PatchFor(s.docs, k.value);
      var (base, rest) := Find(s.tpls, None, doc, [], PathOf(rec));
      var nu := Set(BaseDoc(doc, s.tpls, base), rest, ItemOf(rec));
      if nu.Some? then
        var notes := if k.value in s.comments then s.comments[k.value] else [];
        Some(Sharing(s.docs[k.value := if base.None? then nu.value else doc],
                     if base.None? then s.tpls else s.tpls[base.value := nu.value],
                     s.comments[k.value := notes + [rec]], s.manual))
      else if AddsProbe(rec) then None
      else Some(s.(docs := s.docs[k.value := doc], manual := s.manual + [rec]))
  }

  function ShareBuild(recs: seq<Rec>): Option<Sharing> {
    if recs == [] then Some(NO_PATCHES)
    else
      var before := ShareBuild(recs[..|recs| - 1]);
      if before.None? then None else ShareStep(before.value, recs[|recs| - 1])
  }

  // ---- copies ----------------------------------------------------------------------------------

  /** The document with a template of its own in place of every reference. */
  function Copied(d: Json): Json
    decreases d
  {
    match d
    case Obj(fields) => Obj(map k | k in fields :: Copied(fields[k]))
    case Arr(items) => Arr(seq(|items|, i requires 0 <= i < |items| => Copied(items[i])))
    case Leaf(_) => d
    case Shared(id) => if id in PRISTINE then PRISTINE[id] else d
  }

  function PlanOf(s: Sharing): Plan {
    Plan(map k | k in s.docs :: Copied(s.docs[k]), s.comments, s.manual)
  }

  lemma CopiedParts(d: Json)
    requires !d.Shared?
    ensures Copied(d).Obj? == d.Obj? && Copied(d).Arr? == d.Arr?
    ensures forall c :: Has(Copied(d), c) <==> Has(d, c)
    ensures forall c :: Has(d, c) ==> Part(Copied(d), c) == Copied(Part(d, c))
    ensures d.Arr? ==> |Copied(d).items| == |d.items|
  {
  }

  lemma {:induction false} CopiedGet(d: Json, p: seq<Cell>)
    requires Get(d, p).Some?
    ensures Get(Copied(d), p) == Some(Copied(Get(d, p).value))
    decreases |p|
  {
    if p != [] {
      assert Has(d, p[0]);
      CopiedParts(d);
      CopiedGet(Part(d, p[0]), p[1..]);
      hide Copied;
    }
  }

  lemma CopiedPut(d: Json, c: Cell, x: Json)
    requires Fits(d, c)
    ensures Copied(Put(d, c, x)) == Put(Copied(d), c, Copied(x))
  {
    match c
    case Name(k) =>
      var nu := d.fields[k := x];
      assert (map l | l in nu :: Copied(nu[l])) == (map l | l in d.fields :: Copied(d.fields[l]))[k := Copied(x)];
    case Pos(i) =>
      assert Copied(Put(d, c, x)).items == Put(Copied(d), c, Copied(x)).items;
  }

  lemma CopiedChild(d: Json, c: Cell, next: Cell)
    requires Fits(d, c)
    ensures Child(Copied(d), c, next) == Copied(Child(d, c, next))
  {
    assert Copied(Obj(map[])) == Obj(map[]) && Copied(Arr([])) == Arr([]);
  }

  /** On a clear way, setting in the copy is copying what was set. */
  lemma {:induction false} CopiedSet(d: Json, path: seq<Cell>, w: Json)
    requires path != [] && Clear(d, path)
    ensures var nu := Set(d, path, w);
      Set(Copied(d), path, Copied(w)) == if nu.None? then None else Some(Copied(nu.value))
    decreases |path|
  {
    CopiedParts(d);
    hide Copied;
    if Fits(d, path[0]) {
      if |path| == 1 {
        CopiedPut(d, path[0], w);
      } else {
        var child := Child(d, path[0], path[1]);
        CopiedChild(d, path[0], path[1]);
        if Has(d, path[0]) { assert child == Part(d, path[0]); }
        CopiedSet(child, path[1..], w);
        var nu := Set(child, path[1..], w);
        if nu.Some? { CopiedPut(d, path[0], nu.value); }
        hide Put, Child, Clear;
      }
    }
  }

  /** The document refers to no template. */
  ghost predicate Own(d: Json) {
    Copied(d) == d && forall p :: RefAt(d, p).None?
  }

  lemma AtomGet(d: Json, p: seq<Cell>)
    requires Atom(d)
    ensures Get(d, p) == if p == [] then Some(d) else None
  {
  }

  lemma OwnLeaf(text: string)
    ensures Own(Leaf(text))
  {
    forall p ensures RefAt(Leaf(text), p).None? { AtomGet(Leaf(text), p); }
  }

  lemma OwnObj(fields: map<string, Json>)
    requires forall k :: k in fields ==> Own(fields[k])
    ensures Own(Obj(fields))
  {
    assert (map k | k in fields :: Copied(fields[k])) == fields;
    forall p: seq<Cell> ensures RefAt(Obj(fields), p).None? {
      if p != [] && Has(Obj(fields), p[0]) { RefPart(Obj(fields), p); }
    }
  }

  lemma RefPart(d: Json, p: seq<Cell>)
    requires p != []
    ensures RefAt(d, p) == if Has(d, p[0]) then RefAt(Part(d, p[0]), p[1..]) else None
  {
  }

  lemma NewPatchPlain(key: Key)
    ensures Own(NewPatch(key))
  {
    var (api, kind) := if key.0 in KIND_MAP then KIND_MAP[key.0] else ("", "");
    OwnLeaf(api);
    OwnLeaf(kind);
    OwnLeaf(key.1);
    OwnLeaf("ticketing");
    hide Own, Copied, RefAt;
    OwnObj(map["name" := Leaf(key.1), "namespace" := Leaf("ticketing")]);
    OwnObj(map["apiVersion" := Leaf(api), "kind" := Leaf(kind),
               "metadata" := Obj(map["name" := Leaf(key.1), "namespace" := Leaf("ticketing")])]);
  }

  // ---- which probes stand ----------------------------------------------------------------------

  /** The template a document refers to at a path. */
  function RefAt(d: Json, p: seq<Cell>): Option<nat> {
    var x := Get(d, p);
    if x.Some? && x.value.Shared? then Some(x.value.id) else None
  }

  /** The probe that stands at a path of a resource: the last recommendation at the path or above it added it. */
  function StandingAt(recs: seq<Rec>, key: Key, p: seq<Cell>): Option<nat> {
    if recs == [] then None
    else
      var last := recs[|recs| - 1];
      if KeyOf(last) != Some(key) || !(PathOf(last) <= p) then StandingAt(recs[..|recs| - 1], key, p)
      else if PathOf(last) == p && AddsProbe(last) then Some(TemplateOf(last))
      else None
  }

  /** The recommendation is for a part of a probe that stands. */
  predicate BelowStanding(recs: seq<Rec>, rec: Rec) {
    KeyOf(rec).Some?
    && exists n :: 0 <= n < |PathOf(rec)| && StandingAt(recs, KeyOf(rec).value, PathOf(rec)[..n]).Some?
  }

  /** No recommendation is for a part of a probe that an earlier one added. */
  predicate NothingBelow(recs: seq<Rec>) {
    forall j :: 0 <= j < |recs| ==> !BelowStanding(recs[..j], recs[j])
  }

  lemma {:induction false} ClearIff(d: Json, path: seq<Cell>)
    requires path != []
    ensures Clear(d, path) <==> forall n :: 0 <= n < |path| ==> RefAt(d, path[..n]).None?
    decreases |path|
  {
    assert path[..0] == [];
    if !d.Shared? {
      assert RefAt(d, path[..0]).None?;
      var on := |path| > 1 && Has(d, path[0]);
      if on { ClearIff(Part(d, path[0]), path[1..]); }
      forall n | 0 < n < |path|
        ensures RefAt(d, path[..n]) == if on then RefAt(Part(d, path[0]), path[1..][..n - 1]) else None
      {
        assert path[..n][1..] == path[1..][..n - 1];
      }
      if on && Clear(d, path) {
        assert forall n :: 0 <= n < |path| - 1 ==> RefAt(Part(d, path[0]), path[1..][..n]).None?;
      }
      if on && !Clear(d, path) {
        var n :| 0 <= n < |path| - 1 && RefAt(Part(d, path[0]), path[1..][..n]).Some?;
        assert RefAt(d, path[..n + 1]).Some?;
      }
    }
  }

  lemma RefAfterPut(d: Json, c: Cell, y: Json, p: seq<Cell>)
    requires Fits(d, c)
    ensures RefAt(Put(d, c, y), p)
      == if p != [] && p[0] == c then RefAt(y, p[1..]) else RefAt(d, p)
  {
    if p != [] {
      RefPart(Put(d, c, y), p);
      RefPart(d, p);
      if Has(Put(d, c, y), p[0]) && p[0] != c && !Has(d, p[0]) { NothingThere(p[1..]); }
    }
  }

  lemma NothingThere(p: seq<Cell>)
    ensures RefAt(Obj(map[]), p).None? && RefAt(Arr([]), p).None?
  {
  }

  /** The references after a recommendation is set: what it set, nothing below it, and the others. */
  lemma {:induction false} RefAfterSet(d: Json, path: seq<Cell>, w: Json, p: seq<Cell>)
    requires path != [] && Clear(d, path) && Atom(w) && Set(d, path, w).Some?
    ensures RefAt(Set(d, path, w).value, p)
      == if !(path <= p) then RefAt(d, p) else if path == p then RefAt(w, []) else None
    decreases |path|
  {
    var y := if |path| == 1 then w else Set(Child(d, path[0], path[1]), path[1..], w).value;
    RefAfterPut(d, path[0], y, p);
    if p != [] && path[0] == p[0] {
      PrefixRest(path, p);
      RefPart(d, p);
      if |path| == 1 {
        AtomGet(w, p[1..]);
      } else {
        var child := Child(d, path[0], path[1]);
        RefAfterSet(child, path[1..], w, p[1..]);
        if Has(d, path[0]) { assert child == Part(d, path[0]); } else { NothingThere(p[1..]); }
      }
    }
    hide RefAt, Put;
  }

  lemma PrefixRest(path: seq<Cell>, p: seq<Cell>)
    requires path != [] && p != [] && path[0] == p[0]
    ensures path <= p <==> path[1..] <= p[1..]
    ensures path == p <==> path[1..] == p[1..]
  {
    assert path == [path[0]] + path[1..] && p == [p[0]] + p[1..];
  }

  /** Where something is, it can be replaced, and so can everything above it. */
  lemma {:induction false} SetAbove(d: Json, path: seq<Cell>, w: Json, p: seq<Cell>)
    requires path != [] && path <= p && Get(d, p).Some?
    ensures Set(d, path, w).Some?
    decreases |path|
  {
    if |path| > 1 {
      PrefixRest(path, p);
      SetAbove(Part(d, p[0]), path[1..], w, p[1..]);
    }
  }

  // ---- when sharing makes no difference --------------------------------------------------------

  /** The patches so far are those of `Build`, the templates are untouched, and it is known which probes stand. */
  ghost predicate InStep(recs: seq<Rec>, s: Sharing) {
    && s.tpls == PRISTINE && Build(recs) == Some(PlanOf(s))
    && forall key, p :: RefAt(PatchFor(s.docs, key), p) == StandingAt(recs, key, p)
  }

  lemma CopiedFor(s: Sharing, key: Key)
    ensures PatchFor(PlanOf(s).patches, key) == Copied(PatchFor(s.docs, key))
  {
    NewPatchPlain(key);
  }

  lemma WriteCopied(s: Sharing, key: Key, doc: Json, comments: map<Key, seq<Rec>>, manual: seq<Rec>)
    ensures PlanOf(Sharing(s.docs[key := doc], s.tpls, comments, manual))
      == Plan(PlanOf(s).patches[key := Copied(doc)], comments, manual)
  {
    var nu := s.docs[key := doc];
    assert (map k | k in nu :: Copied(nu[k])) == (map k | k in s.docs :: Copied(s.docs[k]))[key := Copied(doc)];
  }

  lemma ItemCopied(rec: Rec)
    ensures Copied(ItemOf(rec)) == ValueOf(rec) && Atom(ItemOf(rec))
  {
  }

  /** A recommendation that is not below a standing probe is set in its own patch. */
  lemma InOwnPatch(recs: seq<Rec>, s: Sharing, rec: Rec)
    requires InStep(recs, s) && KeyOf(rec).Some? && !BelowStanding(recs, rec)
    ensures var doc := PatchFor(s.docs, KeyOf(rec).value);
      Clear(doc, PathOf(rec)) && Find(s.tpls, None, doc, [], PathOf(rec)) == (None, PathOf(rec))
  {
    var doc, path := PatchFor(s.docs, KeyOf(rec).value), PathOf(rec);
    ClearIff(doc, path);
    ClearStays(s.tpls, None, doc, [], path);
    assert [] + path == path;
    hide KeyOf, PathOf, PatchFor, StandingAt, RefAt, Find, Clear, Build;
  }

  /** The step in place, on a clear way. */
  lemma ShareStepOwn(s: Sharing, rec: Rec)
    requires KeyOf(rec).Some?
    requires Find(s.tpls, None, PatchFor(s.docs, KeyOf(rec).value), [], PathOf(rec)) == (None, PathOf(rec))
    ensures var k := KeyOf(rec).value;
      var doc := PatchFor(s.docs, k);
      var nu := Set(doc, PathOf(rec), ItemOf(rec));
      var notes := if k in s.comments then s.comments[k] else [];
      ShareStep(s, rec) == if nu.Some? then
        Some(Sharing(s.docs[k := nu.value], s.tpls, s.comments[k := notes + [rec]], s.manual))
      else if AddsProbe(rec) then None
      else Some(Sharing(s.docs[k := doc], s.tpls, s.comments, s.manual + [rec]))
  {
    hide KeyOf, PathOf, PatchFor, Find, Set, ItemOf, AddsProbe;
  }

  lemma StepInStep(recs: seq<Rec>, s: Sharing, rec: Rec)
    requires InStep(recs, s) && !BelowStanding(recs, rec)
    ensures ShareStep(s, rec).Some? <==> Step(PlanOf(s), rec).Some?
    ensures ShareStep(s, rec).Some? ==>
      ShareStep(s, rec).value.tpls == PRISTINE && Step(PlanOf(s), rec) == Some(PlanOf(ShareStep(s, rec).value))
  {
    if KeyOf(rec).Some? {
      var k := KeyOf(rec).value;
      var doc := PatchFor(s.docs, k);
      InOwnPatch(recs, s, rec);
      ShareStepOwn(s, rec);
      CopiedFor(s, k);
      ItemCopied(rec);
      CopiedSet(doc, PathOf(rec), ItemOf(rec));
      WriteCopied(s, k, doc, s.comments, s.manual + [rec]);
      var nu := Set(doc, PathOf(rec), ItemOf(rec));
      var notes := if k in s.comments then s.comments[k] else [];
      if nu.Some? { WriteCopied(s, k, nu.value, s.comments[k := notes + [rec]], s.manual); }
      hide KeyOf, PathOf, PatchFor, Find, Set, ItemOf, ValueOf, AddsProbe, ShareStep, InStep, BelowStanding, Clear,
        Copied;
    }
  }

  lemma LastOne(recs: seq<Rec>, rec: Rec)
    ensures (recs + [rec])[..|recs|] == recs && (recs + [rec])[|recs|] == rec
    ensures ShareBuild(recs + [rec])
      == var s := ShareBuild(recs); if s.None? then None else ShareStep(s.value, rec)
    ensures Build(recs + [rec]) == var plan := Build(recs); if plan.None? then None else Step(plan.value, rec)
    ensures forall key, p ::
      StandingAt(recs + [rec], key, p) ==
        if KeyOf(rec) != Some(key) || !(PathOf(rec) <= p) then StandingAt(recs, key, p)
        else if PathOf(rec) == p && AddsProbe(rec) then Some(TemplateOf(rec)) else None
  {
    hide KeyOf, PathOf, AddsProbe, TemplateOf, ShareStep, Step;
    assert (recs + [rec])[..|recs|] == recs;
  }

  /** Which probes stand after a step. */
  lemma StandingStep(recs: seq<Rec>, s: Sharing, rec: Rec, key: Key, p: seq<Cell>)
    requires InStep(recs, s) && !BelowStanding(recs, rec) && ShareStep(s, rec).Some?
    ensures RefAt(PatchFor(ShareStep(s, rec).value.docs, key), p) == StandingAt(recs + [rec], key, p)
  {
    LastOne(recs, rec);
    if KeyOf(rec) == Some(key) {
      var doc, path, w := PatchFor(s.docs, key), PathOf(rec), ItemOf(rec);
      InOwnPatch(recs, s, rec);
      ShareStepOwn(s, rec);
      ItemCopied(rec);
      assert RefAt(w, []) == if AddsProbe(rec) then Some(TemplateOf(rec)) else None;
      if Set(doc, path, w).Some? {
        RefAfterSet(doc, path, w, p);
      } else if path <= p && Get(doc, p).Some? {
        SetAbove(doc, path, w, p);
      }
      hide Set, ItemOf, Clear, PathOf, AddsProbe, ShareStep, KeyOf, BelowStanding, StandingAt, Find, TemplateOf;
    } else if KeyOf(rec).Some? {
      InOwnPatch(recs, s, rec);
      ShareStepOwn(s, rec);
      hide Set, ItemOf, Clear, PathOf, AddsProbe, ShareStep, KeyOf, BelowStanding, StandingAt, Find, NewPatch;
    }
  }

  lemma {:induction false} KeepsStep(recs: seq<Rec>)
    requires NothingBelow(recs)
    ensures ShareBuild(recs).Some? <==> Build(recs).Some?
    ensures ShareBuild(recs).Some? ==> InStep(recs, ShareBuild(recs).value)
    decreases |recs|
  {
    hide BelowStanding, StandingAt, ShareStep, Step, RefAt, PatchFor;
    if recs == [] {
      KeepsNone();
    } else {
      var before, rec := recs[..|recs| - 1], recs[|recs| - 1];
      assert NothingBelow(before) by {
        forall j | 0 <= j < |before| ensures !BelowStanding(before[..j], before[j]) { assert before[..j] == recs[..j]; }
      }
      assert before + [rec] == recs && recs[..|recs| - 1] == before;
      KeepsStep(before);
      LastOne(before, rec);
      if ShareBuild(before).Some? {
        var s := ShareBuild(before).value;
        StepInStep(before, s, rec);
        if ShareStep(s, rec).Some? {
          forall key, p
            ensures RefAt(PatchFor(ShareStep(s, rec).value.docs, key), p) == StandingAt(recs, key, p)
          {
            StandingStep(before, s, rec, key, p);
          }
        }
      }
    }
  }

  lemma KeepsNone()
    ensures InStep([], NO_PATCHES)
  {
    forall key, p ensures RefAt(PatchFor(NO_PATCHES.docs, key), p) == StandingAt([], key, p) { NewPatchPlain(key); }
    assert PlanOf(NO_PATCHES) == Plan(map[], map[], []);
  }

  /** As long as nothing is set below a standing probe, the shared templates are as good as copies: the build in
      place raises exactly when `Build` does, its patches are those of `Build`, and the templates stay. */
  lemma SharingIsHarmless(recs: seq<Rec>)
    requires NothingBelow(recs)
    ensures ShareBuild(recs).Some? <==> Build(recs).Some?
    ensures ShareBuild(recs).Some? ==>
      PlanOf(ShareBuild(recs).value) == Build(recs).value && ShareBuild(recs).value.tpls == PRISTINE
  {
    KeepsStep(recs);
    hide ShareBuild, Build;
  }

  /** And exactly those references are in the patches that the recommendations say. */
  lemma StandingIff(recs: seq<Rec>, key: Key, p: seq<Cell>)
    requires NothingBelow(recs) && ShareBuild(recs).Some?
    ensures RefAt(PatchFor(ShareBuild(recs).value.docs, key), p) == StandingAt(recs, key, p)
  {
    KeepsStep(recs);
    hide ShareBuild, Build, StandingAt, RefAt, PatchFor;
  }

  lemma {:induction false} StandingWasAdded(recs: seq<Rec>, key: Key, p: seq<Cell>)
    requires StandingAt(recs, key, p).Some?
    ensures exists i ::
      0 <= i < |recs| && AddsProbe(recs[i]) && KeyOf(recs[i]) == Some(key) && PathOf(recs[i]) == p
      && StandingAt(recs, key, p) == Some(TemplateOf(recs[i]))
    decreases |recs|
  {
    var before, last := recs[..|recs| - 1], recs[|recs| - 1];
    hide AddsProbe, KeyOf, PathOf, TemplateOf;
    if KeyOf(last) != Some(key) || !(PathOf(last) <= p) {
      StandingWasAdded(before, key, p);
      var i :| 0 <= i < |before| && AddsProbe(before[i]) && KeyOf(before[i]) == Some(key) && PathOf(before[i]) == p
        && StandingAt(before, key, p) == Some(TemplateOf(before[i]));
      assert before[i] == recs[i];
    }
  }

  /** No recommendation's path goes strictly below that of a probe added earlier to the same resource. */
  ghost predicate PathsStayAbove(recs: seq<Rec>) {
    forall i, j ::
      0 <= i < j < |recs| && AddsProbe(recs[i]) && KeyOf(recs[i]).Some? && KeyOf(recs[i]) == KeyOf(recs[j]) ==>
        !(PathOf(recs[i]) < PathOf(recs[j]))
  }

  lemma BelowAdded(recs: seq<Rec>, rec: Rec)
    requires BelowStanding(recs, rec)
    ensures exists i ::
      0 <= i < |recs| && AddsProbe(recs[i]) && KeyOf(recs[i]).Some? && KeyOf(recs[i]) == KeyOf(rec)
      && PathOf(recs[i]) < PathOf(rec)
  {
    hide AddsProbe, KeyOf, PathOf, StandingAt;
    var path := PathOf(rec);
    var n :| 0 <= n < |path| && StandingAt(recs, KeyOf(rec).value, path[..n]).Some?;
    StandingWasAdded(recs, KeyOf(rec).value, path[..n]);
    assert path[..n] < path;
  }

  lemma StayingAboveSuffices(recs: seq<Rec>)
    requires PathsStayAbove(recs)
    ensures NothingBelow(recs)
  {
    hide AddsProbe, KeyOf, PathOf, StandingAt, BelowStanding;
    forall j | 0 <= j < |recs| ensures !BelowStanding(recs[..j], recs[j]) {
      assert forall i :: 0 <= i < j ==> recs[..j][i] == recs[i];
      if BelowStanding(recs[..j], recs[j]) { BelowAdded(recs[..j], recs[j]); }
    }
  }

  lemma {:induction false} ApartNotBelow(p: seq<Cell>, q: seq<Cell>)
    requires Apart(p, q)
    ensures !(p < q)
    decreases |p|
  {
    if p[0] == q[0] {
      ApartNotBelow(p[1..], q[1..]);
      assert p == [p[0]] + p[1..] && q == [q[0]] + q[1..];
    }
  }

  lemma IndependentStayAbove(us: seq<Rec>, vs: seq<Rec>)
    requires multiset(us) == multiset(vs) && AllIndependent(us)
    ensures NothingBelow(vs)
  {
    hide AddsProbe, KeyOf, PathOf, Apart;
    forall i, j | 0 <= i < j < |vs| && AddsProbe(vs[i]) && KeyOf(vs[i]).Some? && KeyOf(vs[i]) == KeyOf(vs[j])
      ensures !(PathOf(vs[i]) < PathOf(vs[j]))
    {
      if PathOf(vs[i]) < PathOf(vs[j]) {
        assert vs[i] in multiset(us) && vs[j] in multiset(us);
        var a :| 0 <= a < |us| && us[a] == vs[i];
        var b :| 0 <= b < |us| && us[b] == vs[j];
        assert a != b && Independent(us[a], us[b]);
        ApartNotBelow(PathOf(vs[i]), PathOf(vs[j]));
      }
    }
    StayingAboveSuffices(vs);
  }

  /** Recommendations that are independent of each other give the same patches in every order, built in place. */
  lemma OrderFreeInPlace(us: seq<Rec>, vs: seq<Rec>)
    requires multiset(us) == multiset(vs) && AllIndependent(us)
    ensures ShareBuild(us).Some? <==> ShareBuild(vs).Some?
    ensures ShareBuild(us).Some? ==> ViewOf(PlanOf(ShareBuild(us).value)) == ViewOf(PlanOf(ShareBuild(vs).value))
  {
    IndependentStayAbove(us, us);
    IndependentStayAbove(us, vs);
    SharingIsHarmless(us);
    SharingIsHarmless(vs);
    OrderDoesNotMatter(us, vs);
    hide ShareBuild, Build, ViewOf, PlanOf, AllIndependent, NothingBelow;
  }

  /** And each of them takes effect in the patch built in place. */
  lemma EveryOneAppliedInPlace(recs: seq<Rec>, i: nat)
    requires AllIndependent(recs) && i < |recs| && ShareBuild(recs).Some?
    ensures var s, rec := ShareBuild(recs).value, recs[i];
      rec in s.manual
      || (KeyOf(rec).Some? && KeyOf(rec).value in s.docs
          && Get(Copied(s.docs[KeyOf(rec).value]), PathOf(rec)) == Some(ValueOf(rec)))
  {
    IndependentStayAbove(recs, recs);
    SharingIsHarmless(recs);
    EveryOneApplied(recs, i);
    hide ShareBuild, Build, KeyOf, PathOf, ValueOf, Get, Copied, AllIndependent, NothingBelow;
  }
}
