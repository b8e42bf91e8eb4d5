/** From a list of recommendations to patches: one document per resource, and a list of what has to be done by hand.
    Here every added probe is a document of its own; `PatchSharing` says when that is what the code builds. */
module PatchPlan {
  import opened Text
  import opened NestedSet

  /** A recommendation; `value` is what `to` means as a YAML scalar. */
  datatype Rec = Rec(target: string, field: string, from: string, to: string, value: string)

  /** A resource: its kind and its name. */
  type Key = (string, string)

  datatype Plan = Plan(patches: map<Key, Json>, comments: map<Key, seq<Rec>>, manual: seq<Rec>)

  predicate StartsWith(s: string, prefix: string) {
    prefix <= s
  }

  predicate EndsWith(s: string, suffix: string) {
    |suffix| <= |s| && s[|s| - |suffix|..] == suffix
  }

  /** Resources that are not described by YAML. */
  predicate IsNonK8s(target: string) {
    var t := Lower(target);
    StartsWith(t, "application/") || StartsWith(t, "redis") || StartsWith(t, "cluster") || StartsWith(t, "eks")
  }

  function Slash(s: string): (i: nat)
    ensures i <= |s|
    ensures i < |s| ==> s[i] == '/'
  {
    if s == [] || s[0] == '/' then 0 else 1 + Slash(s[1..])
  }

  /** apiVersion and kind of the resource kinds that can be patched. */
  const KIND_MAP: map<string, (string, string)> := map[
    "hpa" := ("autoscaling/v2", "HorizontalPodAutoscaler"),
    "deployment" := ("apps/v1", "Deployment"),
    "scaledobject" := ("keda.sh/v1alpha1", "ScaledObject"),
    "pdb" := ("policy/v1", "PodDisruptionBudget")]

  /** The resource to patch, or None when the recommendation is for a human. */
  function KeyOf(rec: Rec): Option<Key> {
    var i := Slash(rec.target);
    if IsNonK8s(rec.target) || i == |rec.target| || Lower(rec.target[..i]) !in KIND_MAP then None
    else Some((Lower(rec.target[..i]), rec.target[i + 1..]))
  }

  function NewPatch(key: Key): Json {
    var (api, kind) := if key.0 in KIND_MAP then KIND_MAP[key.0] else ("", "");
    Obj(map["apiVersion" := Leaf(api), "kind" := Leaf(kind),
            "metadata" := Obj(map["name" := Leaf(key.1), "namespace" := Leaf("ticketing")])])
  }

  function ProbeOf(field: string): Option<string> {
    if EndsWith(field, "livenessProbe") then Some("livenessProbe")
    else if EndsWith(field, "readinessProbe") then Some("readinessProbe")
    else None
  }

  /** A probe that does not exist yet and is to be added. */
  predicate AddsProbe(rec: Rec) {
    ProbeOf(rec.field).Some? && (rec.from == "없음" || rec.from == "" || rec.to == "추가" || rec.to == "")
  }

  function Probe(delay: string, period: string): Json {
    Obj(map["httpGet" := Obj(map["path" := Leaf("/health"), "port" := Leaf("http")]),
            "initialDelaySeconds" := Leaf(delay), "periodSeconds" := Leaf(period), "failureThreshold" := Leaf("3")])
  }

  /** What precedes the last occurrence of the separator, or everything. */
  function BeforeLast(s: string, sep: string, n: nat): string
    requires n <= |s|
  {
    if n < |sep| then s
    else if s[n - |sep|..n] == sep then s[..n - |sep|]
    else if n == 0 then s
    else BeforeLast(s, sep, n - 1)
  }

  function PathOf(rec: Rec): (path: seq<Cell>)
    ensures path != []
  {
    if AddsProbe(rec) then
      var probe := ProbeOf(rec.field).value;
      Expand(Split(BeforeLast(rec.field, "." + probe, |rec.field|), '.') + [probe])
    else Expand(Split(rec.field, '.'))
  }

  function ValueOf(rec: Rec): Json {
    if !AddsProbe(rec) then Leaf(rec.value)
    else if ProbeOf(rec.field) == Some("livenessProbe") then Probe("10", "10")
    else Probe("5", "5")
  }

  function PatchFor(patches: map<Key, Json>, key: Key): Json {
    if key in patches then patches[key] else NewPatch(key)
  }

  /** One recommendation; None where the whole build raises, which only a new probe can do. */
  function Step(plan: Plan, rec: Rec): Option<Plan> {
    var k := KeyOf(rec);
    if k.None? then Some(plan.(manual := plan.manual + [rec]))
    else
      var doc := PatchFor(plan.patches, k.value);
      var nu := Set(doc, PathOf(rec), ValueOf(rec));
      if nu.Some? then
        var notes := if k.value in plan.comments then plan.comments[k.value] else [];
        Some(plan.(patches := plan.patches[k.value := nu.value], comments := plan.comments[k.value := notes + [rec]]))
      else if AddsProbe(rec) then None
      else Some(plan.(patches := plan.patches[k.value := doc], manual := plan.manual + [rec]))
  }

  function Build(recs: seq<Rec>): Option<Plan> {
    if recs == [] then Some(Plan(map[], map[], []))
    else
      var before := Build(recs[..|recs| - 1]);
      if before.None? then None else Step(before.value, recs[|recs| - 1])
  }

  // ---- the path of a new probe -----------------------------------------------------------------

  lemma ProbeName(field: string, probe: string)
    requires ProbeOf(field) == Some(probe)
    ensures probe != [] && '.' !in probe && probe[|probe| - 1] == 'e'
  {
    hide EndsWith;
  }

  lemma ProbePathIs(rec: Rec, probe: string)
    requires AddsProbe(rec) && ProbeOf(rec.field) == Some(probe)
    ensures PathOf(rec) == Expand(Split(BeforeLast(rec.field, ['.'] + probe, |rec.field|), '.') + [probe])
  {
    hide AddsProbe, ProbeOf, Expand, Split, BeforeLast;
  }

  lemma BeforeSuffix(parent: string, sep: string)
    ensures BeforeLast(parent + sep, sep, |parent + sep|) == parent
  {
    var s := parent + sep;
    assert s[|s| - |sep|..|s|] == sep && s[..|s| - |sep|] == parent;
  }

  /** A new probe is set at its field's own path, although the path is taken apart and put together again. */
  lemma ProbePath(rec: Rec, parent: string, probe: string)
    requires AddsProbe(rec) && ProbeOf(rec.field) == Some(probe) && rec.field == parent + ['.'] + probe
    ensures PathOf(rec) == Expand(Split(rec.field, '.'))
  {
    ProbeName(rec.field, probe);
    ProbePathIs(rec, probe);
    assert rec.field == parent + (['.'] + probe);
    BeforeSuffix(parent, ['.'] + probe);
    SplitLast(parent, probe, '.');
    hide AddsProbe, ProbeOf, Expand, Split, BeforeLast, PathOf;
  }

  /** A probe that is the whole field is set one level too deep. */
  lemma BareProbe(rec: Rec)
    requires AddsProbe(rec) && ProbeOf(rec.field) == Some(rec.field)
    ensures PathOf(rec) == [Name(rec.field), Name(rec.field)]
  {
    var f := rec.field;
    ProbeName(f, f);
    ProbePathIs(rec, f);
    hide AddsProbe, ProbeOf, PathOf;
    assert BeforeLast(f, ['.'] + f, |f|) == f;
    SplitPlain(f, '.');
    PlainTwice(f);
  }

  /** The path is right exactly when the probe's name stands behind a dot: a field that is just the name, or
      that merely ends in it, is misplaced. */
  lemma ProbePathIff(rec: Rec, probe: string)
    requires AddsProbe(rec) && ProbeOf(rec.field) == Some(probe)
    ensures PathOf(rec) == Expand(Split(rec.field, '.')) <==> EndsWith(rec.field, ['.'] + probe)
  {
    var f, sep := rec.field, ['.'] + probe;
    ProbeName(f, probe);
    if EndsWith(f, sep) {
      var parent := f[..|f| - |sep|];
      assert f == parent + sep == parent + ['.'] + probe;
      ProbePath(rec, parent, probe);
    } else if f == probe {
      BareProbe(rec);
      SplitPlain(f, '.');
      assert Expand([f]) == [Name(f)];
    } else {
      ProbePathIs(rec, probe);
      OtherEnd(f, probe, Split(BeforeLast(f, sep, |f|), '.') + [probe]);
      hide AddsProbe, ProbeOf, PathOf, Expand, Split, BeforeLast;
    }
  }

  /** The paths part in their last step. */
  lemma OtherEnd(f: string, probe: string, segments: seq<string>)
    requires segments != [] && segments[|segments| - 1] == probe && f != probe && !EndsWith(f, ['.'] + probe)
    ensures Expand(segments) != Expand(Split(f, '.'))
  {
    var parts := Split(f, '.');
    var last := parts[|parts| - 1];
    LastPart(f, '.');
    ExpandLast(segments);
    ExpandLast(parts);
    hide Expand, Split;
    if |last| < |f| {
      assert f[|f| - |last| - 1..] == [f[|f| - |last| - 1]] + last;
    }
  }

  lemma PlainTwice(f: string)
    requires f != [] && f[|f| - 1] == 'e'
    ensures Expand([f] + [f]) == [Name(f), Name(f)]
  {
    assert ([f] + [f])[1..] == [f] && Cells(f) == [Name(f)];
  }

  // ---- the order of recommendations ------------------------------------------------------------

  /** A plan up to the order of its lists. */
  datatype View = View(patches: map<Key, Json>, comments: map<Key, multiset<Rec>>, manual: multiset<Rec>)

  function ViewOf(plan: Plan): View {
    View(plan.patches, map k | k in plan.comments :: multiset(plan.comments[k]), multiset(plan.manual))
  }

  function Noted(comments: map<Key, multiset<Rec>>, key: Key, rec: Rec): map<Key, multiset<Rec>> {
    comments[key := (if key in comments then comments[key] else multiset{}) + multiset{rec}]
  }

  /** The document of `key` is now `doc`; the recommendation was applied, or is left to a human. */
  function Write(v: View, key: Key, doc: Json, rec: Rec, applied: bool): View {
    View(v.patches[key := doc],
         if applied then Noted(v.comments, key, rec) else v.comments,
         if applied then v.manual else v.manual + multiset{rec})
  }

  function ViewStep(v: View, rec: Rec): Option<View> {
    var k := KeyOf(rec);
    if k.None? then Some(v.(manual := v.manual + multiset{rec}))
    else
      var doc := PatchFor(v.patches, k.value);
      var nu := Set(doc, PathOf(rec), ValueOf(rec));
      if nu.Some? then Some(Write(v, k.value, nu.value, rec, true))
      else if AddsProbe(rec) then None
      else Some(Write(v, k.value, doc, rec, false))
  }

  lemma StepView(plan: Plan, rec: Rec)
    ensures Step(plan, rec).Some? <==> ViewStep(ViewOf(plan), rec).Some?
    ensures Step(plan, rec).Some? ==> ViewOf(Step(plan, rec).value) == ViewStep(ViewOf(plan), rec).value
  {
    var k := KeyOf(rec);
    ManualView(plan, rec);
    if k.Some? { CommentView(plan, k.value, rec); }
    hide KeyOf, PathOf, ValueOf, AddsProbe, Set, PatchFor, ViewOf, Noted;
  }

  lemma ManualView(plan: Plan, rec: Rec)
    ensures forall p, c :: ViewOf(Plan(p, c, plan.manual + [rec]))
                           == ViewOf(Plan(p, c, plan.manual)).(manual := ViewOf(plan).manual + multiset{rec})
    ensures forall p, c, m :: ViewOf(Plan(p, c, m)).patches == p
    ensures forall p :: ViewOf(plan.(patches := p)) == ViewOf(plan).(patches := p)
  {
    assert multiset(plan.manual + [rec]) == multiset(plan.manual) + multiset{rec};
  }

  lemma CommentView(plan: Plan, key: Key, rec: Rec)
    ensures var notes := if key in plan.comments then plan.comments[key] else [];
      forall p :: ViewOf(plan.(patches := p, comments := plan.comments[key := notes + [rec]])) ==
        ViewOf(plan).(patches := p, comments := Noted(ViewOf(plan).comments, key, rec))
  {
    var notes := if key in plan.comments then plan.comments[key] else [];
    assert multiset(notes + [rec]) == multiset(notes) + multiset{rec};
    var c := plan.comments[key := notes + [rec]];
    assert (map k | k in c :: multiset(c[k]))
      == Noted(map k | k in plan.comments :: multiset(plan.comments[k]), key, rec);
  }

  /** All the recommendations, from the front. */
  function ViewAll(v: View, recs: seq<Rec>): Option<View>
    decreases |recs|
  {
    if recs == [] then Some(v)
    else
      var nu := ViewStep(v, recs[0]);
      if nu.None? then None else ViewAll(nu.value, recs[1..])
  }

  lemma {:induction false} ViewAllAppend(v: View, recs: seq<Rec>, rec: Rec)
    ensures ViewAll(v, recs + [rec])
      == var mid := ViewAll(v, recs); if mid.None? then None else ViewStep(mid.value, rec)
    decreases |recs|
  {
    hide ViewStep;
    if recs == [] {
      assert recs + [rec] == [rec];
    } else {
      assert (recs + [rec])[1..] == recs[1..] + [rec];
      var nu := ViewStep(v, recs[0]);
      if nu.Some? { ViewAllAppend(nu.value, recs[1..], rec); }
    }
  }

  const BLANK := View(map[], map[], multiset{})

  lemma {:induction false} BuildView(recs: seq<Rec>)
    ensures Build(recs).Some? <==> ViewAll(BLANK, recs).Some?
    ensures Build(recs).Some? ==> ViewOf(Build(recs).value) == ViewAll(BLANK, recs).value
  {
    hide ViewStep, Step;
    if recs != [] {
      var before, last := recs[..|recs| - 1], recs[|recs| - 1];
      BuildView(before);
      ViewAllAppend(BLANK, before, last);
      assert before + [last] == recs;
      if Build(before).Some? { StepView(Build(before).value, last); }
    }
  }

  /** Two recommendations touch different resources, or paths of one resource that are apart. */
  predicate Independent(a: Rec, b: Rec) {
    KeyOf(a).None? || KeyOf(b).None? || KeyOf(a) != KeyOf(b) || Apart(PathOf(a), PathOf(b))
  }

  function Then(v: Option<View>, rec: Rec): Option<View> {
    if v.None? then None else ViewStep(v.value, rec)
  }

  /** Two independent recommendations can be taken in either order. */
  lemma Swap(v: View, a: Rec, b: Rec)
    requires Independent(a, b)
    ensures Then(ViewStep(v, a), b) == Then(ViewStep(v, b), a)
  {
    var k, l := KeyOf(a), KeyOf(b);
    assert v.manual + multiset{a} + multiset{b} == v.manual + multiset{b} + multiset{a};
    if k.Some? && l.Some? {
      if k == l { SwapSame(v, a, b); } else { SwapOther(v, a, b); }
    }
    hide KeyOf, PathOf, ValueOf, AddsProbe, Set, NewPatch;
  }

  lemma PlusSwap(m: multiset<Rec>, a: Rec, b: Rec)
    ensures m + multiset{a} + multiset{b} == m + multiset{b} + multiset{a}
  {
  }

  lemma NotedSame(c: map<Key, multiset<Rec>>, k: Key, a: Rec, b: Rec)
    ensures Noted(Noted(c, k, a), k, b) == Noted(Noted(c, k, b), k, a)
  {
    PlusSwap(if k in c then c[k] else multiset{}, a, b);
  }

  lemma NotedOther(c: map<Key, multiset<Rec>>, k: Key, a: Rec, l: Key, b: Rec)
    requires k != l
    ensures Noted(Noted(c, k, a), l, b) == Noted(Noted(c, l, b), k, a)
  {
    MapSwap(c, k, Noted(c, k, a)[k], l, Noted(c, l, b)[l]);
  }

  lemma MapSwap<V>(c: map<Key, V>, k: Key, x: V, l: Key, y: V)
    requires k != l
    ensures c[k := x][l := y] == c[l := y][k := x]
  {
  }

  lemma WriteSwap(v: View, k: Key, x: Json, a: Rec, ca: bool, l: Key, y: Json, b: Rec, cb: bool)
    requires k != l
    ensures Write(Write(v, k, x, a, ca), l, y, b, cb) == Write(Write(v, l, y, b, cb), k, x, a, ca)
  {
    assert v.patches[k := x][l := y] == v.patches[l := y][k := x];
    NotedOther(v.comments, k, a, l, b);
    PlusSwap(v.manual, a, b);
    hide Noted;
  }

  lemma WriteSame(v: View, k: Key, x: Json, a: Rec, ca: bool, z: Json, b: Rec, cb: bool, y: Json)
    ensures Write(Write(v, k, x, a, ca), k, y, b, cb) == Write(Write(v, k, z, b, cb), k, y, a, ca)
  {
    assert v.patches[k := x][k := y] == v.patches[k := z][k := y];
    NotedSame(v.comments, k, a, b);
    PlusSwap(v.manual, a, b);
    hide Noted;
  }

  /** The document after the recommendation, and whether it was applied; None where the build raises. */
  function Effect(doc: Json, rec: Rec): Option<(Json, bool)> {
    var nu := Set(doc, PathOf(rec), ValueOf(rec));
    if nu.Some? then Some((nu.value, true)) else if AddsProbe(rec) then None else Some((doc, false))
  }

  lemma StepIsEffect(v: View, rec: Rec)
    requires KeyOf(rec).Some?
    ensures var k := KeyOf(rec).value; var e := Effect(PatchFor(v.patches, k), rec);
      ViewStep(v, rec) == if e.None? then None else Some(Write(v, k, e.value.0, rec, e.value.1))
  {
  }

  lemma SwapOther(v: View, a: Rec, b: Rec)
    requires KeyOf(a).Some? && KeyOf(b).Some? && KeyOf(a) != KeyOf(b)
    ensures Then(ViewStep(v, a), b) == Then(ViewStep(v, b), a)
  {
    var k, l := KeyOf(a).value, KeyOf(b).value;
    var e, f := Effect(PatchFor(v.patches, k), a), Effect(PatchFor(v.patches, l), b);
    StepIsEffect(v, a);
    StepIsEffect(v, b);
    if e.Some? { StepIsEffect(Write(v, k, e.value.0, a, e.value.1), b); }
    if f.Some? { StepIsEffect(Write(v, l, f.value.0, b, f.value.1), a); }
    if e.Some? && f.Some? { WriteSwap(v, k, e.value.0, a, e.value.1, l, f.value.0, b, f.value.1); }
    hide KeyOf, Effect, ViewStep, NewPatch, Noted;
  }

  /** Recommendations that are apart have the same effects, and leave the same document, in either order. */
  lemma EffectsCommute(doc: Json, a: Rec, b: Rec)
    requires Apart(PathOf(a), PathOf(b))
    ensures var e, f := Effect(doc, a), Effect(doc, b);
      e.Some? && f.Some? ==>
        var ef, fe := Effect(e.value.0, b), Effect(f.value.0, a);
        ef.Some? && fe.Some? && ef.value.0 == fe.value.0 && ef.value.1 == f.value.1 && fe.value.1 == e.value.1
    ensures var e, f := Effect(doc, a), Effect(doc, b);
      (e.Some? && f.None? ==> Effect(e.value.0, b).None?) && (f.Some? && e.None? ==> Effect(f.value.0, a).None?)
  {
    ApartBoth(PathOf(a), PathOf(b));
    Commute(doc, PathOf(a), ValueOf(a), PathOf(b), ValueOf(b));
    Commute(doc, PathOf(b), ValueOf(b), PathOf(a), ValueOf(a));
    hide PathOf, ValueOf, AddsProbe, Set, Apart;
  }

  lemma SwapSame(v: View, a: Rec, b: Rec)
    requires KeyOf(a).Some? && KeyOf(a) == KeyOf(b) && Apart(PathOf(a), PathOf(b))
    ensures Then(ViewStep(v, a), b) == Then(ViewStep(v, b), a)
  {
    var k := KeyOf(a).value;
    var doc := PatchFor(v.patches, k);
    var e, f := Effect(doc, a), Effect(doc, b);
    EffectsCommute(doc, a, b);
    StepIsEffect(v, a);
    StepIsEffect(v, b);
    if e.Some? { StepIsEffect(Write(v, k, e.value.0, a, e.value.1), b); }
    if f.Some? { StepIsEffect(Write(v, k, f.value.0, b, f.value.1), a); }
    hide KeyOf, Effect, ViewStep, NewPatch, Noted, PathOf, Apart;
    if e.Some? && f.Some? {
      WriteSame(v, k, e.value.0, a, e.value.1, f.value.0, b, f.value.1, Effect(e.value.0, b).value.0);
    }
  }

  lemma {:induction false} ApartBoth(p: seq<Cell>, q: seq<Cell>)
    requires Apart(p, q)
    ensures Apart(q, p)
    decreases |p|
  {
    if p[0] == q[0] { ApartBoth(p[1..], q[1..]); }
  }

  ghost predicate AllIndependent(recs: seq<Rec>) {
    forall i, j :: 0 <= i < |recs| && 0 <= j < |recs| && i != j ==> Independent(recs[i], recs[j])
  }

  /** A recommendation that is independent of those before it can be taken first. */
  lemma {:induction false} TakeFirst(v: View, before: seq<Rec>, x: Rec, tail: seq<Rec>)
    requires forall b :: b in before ==> Independent(b, x)
    ensures ViewAll(v, before + ([x] + tail)) == ViewAll(v, [x] + (before + tail))
    decreases |before|
  {
    hide ViewStep, Independent, ViewAll;
    if before == [] {
      assert before + ([x] + tail) == [x] + (before + tail);
    } else {
      var h, rest := before[0], before[1..];
      var nu := ViewStep(v, h);
      if nu.Some? { TakeFirst(nu.value, rest, x, tail); }
      var all, swapped := before + ([x] + tail), [h] + ([x] + (rest + tail));
      assert all[1..] == rest + ([x] + tail) && swapped[1..] == [x] + (rest + tail);
      FrontStep(v, all, swapped);
      Swap(v, h, x);
      FirstTwo(v, h, x, rest + tail);
      FirstTwo(v, x, h, rest + tail);
      assert swapped == [h, x] + (rest + tail) && [x] + (before + tail) == [x, h] + (rest + tail);
    }
  }

  lemma FirstTwo(v: View, a: Rec, b: Rec, tail: seq<Rec>)
    ensures ViewAll(v, [a, b] + tail)
      == var mid := Then(ViewStep(v, a), b); if mid.None? then None else ViewAll(mid.value, tail)
  {
    hide ViewStep;
    var recs := [a, b] + tail;
    assert recs[1..] == [b] + tail && ([b] + tail)[1..] == tail;
  }

  /** The same first recommendation and equivalent rests. */
  lemma FrontStep(v: View, us: seq<Rec>, vs: seq<Rec>)
    requires us != [] && vs != [] && us[0] == vs[0]
    requires ViewStep(v, us[0]).Some?
      ==> ViewAll(ViewStep(v, us[0]).value, us[1..]) == ViewAll(ViewStep(v, us[0]).value, vs[1..])
    ensures ViewAll(v, us) == ViewAll(v, vs)
  {
  }

  lemma {:induction false} AnyOrder(v: View, us: seq<Rec>, vs: seq<Rec>)
    requires multiset(us) == multiset(vs) && AllIndependent(us)
    ensures ViewAll(v, us) == ViewAll(v, vs)
    decreases |us|
  {
    hide ViewStep, Independent;
    if us == [] {
      assert |multiset(vs)| == 0;
      assert vs == [];
    } else {
      assert |multiset(us)| == |us| && |multiset(vs)| == |vs|;
      assert vs[0] in multiset(us);
      var i :| 0 <= i < |us| && us[i] == vs[0];
      var rest := us[..i] + us[i + 1..];
      var moved := [us[i]] + rest;
      forall b | b in us[..i] ensures Independent(b, us[i]) {
        var j :| 0 <= j < i && us[..i][j] == b;
        assert Independent(us[j], us[i]);
      }
      TakeFirst(v, us[..i], us[i], us[i + 1..]);
      assert us == us[..i] + ([us[i]] + us[i + 1..]) && moved[1..] == rest;
      SameRest(us, vs, i);
      RestIndependent(us, i);
      var nu := ViewStep(v, vs[0]);
      if nu.Some? { AnyOrder(nu.value, rest, vs[1..]); }
      FrontStep(v, moved, vs);
    }
  }

  lemma SameRest(us: seq<Rec>, vs: seq<Rec>, i: nat)
    requires i < |us| && vs != [] && us[i] == vs[0] && multiset(us) == multiset(vs)
    ensures multiset(us[..i] + us[i + 1..]) == multiset(vs[1..])
  {
    var rest := us[..i] + us[i + 1..];
    Without(us, i);
    Without(vs, 0);
    assert vs[..0] + vs[1..] == vs[1..];
    MinusOne(multiset(rest), multiset(vs[1..]), vs[0]);
  }

  lemma Without(us: seq<Rec>, i: nat)
    requires i < |us|
    ensures multiset(us) == multiset(us[..i] + us[i + 1..]) + multiset{us[i]}
  {
    assert us == us[..i] + ([us[i]] + us[i + 1..]);
    assert multiset(us[..i] + us[i + 1..]) == multiset(us[..i]) + multiset(us[i + 1..]);
  }

  lemma MinusOne(a: multiset<Rec>, b: multiset<Rec>, x: Rec)
    requires a + multiset{x} == b + multiset{x}
    ensures a == b
  {
    assert a == (a + multiset{x}) - multiset{x};
    assert b == (b + multiset{x}) - multiset{x};
  }

  lemma RestIndependent(us: seq<Rec>, i: nat)
    requires i < |us| && AllIndependent(us)
    ensures AllIndependent(us[..i] + us[i + 1..])
  {
    hide Independent;
    var rest := us[..i] + us[i + 1..];
    forall a, b | 0 <= a < |rest| && 0 <= b < |rest| && a != b ensures Independent(rest[a], rest[b]) {
      var x, y := if a < i then a else a + 1, if b < i then b else b + 1;
      assert rest[a] == us[x] && rest[b] == us[y];
    }
  }

  /** When recommendations for one resource have paths apart from each other, their order does not matter:
      the patches are the same, and so are the comments and the manual list up to order. */
  lemma OrderDoesNotMatter(us: seq<Rec>, vs: seq<Rec>)
    requires multiset(us) == multiset(vs) && AllIndependent(us)
    ensures Build(us).Some? <==> Build(vs).Some?
    ensures Build(us).Some? ==> ViewOf(Build(us).value) == ViewOf(Build(vs).value)
  {
    BuildView(us);
    BuildView(vs);
    AnyOrder(BLANK, us, vs);
  }

  /** And every recommendation takes effect: it is in the manual list, or its field reads its value. */
  lemma EveryOneApplied(recs: seq<Rec>, i: nat)
    requires AllIndependent(recs) && i < |recs| && Build(recs).Some?
    ensures var plan, rec := Build(recs).value, recs[i];
      rec in plan.manual
      || (KeyOf(rec).Some? && KeyOf(rec).value in plan.patches
          && Get(plan.patches[KeyOf(rec).value], PathOf(rec)) == Some(ValueOf(rec)))
  {
    hide KeyOf, PathOf, ValueOf, Step, Get;
    var rest, rec := recs[..i] + recs[i + 1..], recs[i];
    var last := rest + [rec];
    MovedLast(recs, i);
    OrderDoesNotMatter(recs, last);
    assert last[..|last| - 1] == rest;
    var before := Build(rest).value;
    LastApplied(before, rec);
    SameManual(Build(recs).value, Build(last).value, rec);
  }

  lemma MovedLast(recs: seq<Rec>, i: nat)
    requires i < |recs|
    ensures multiset(recs) == multiset(recs[..i] + recs[i + 1..] + [recs[i]])
  {
    assert recs == recs[..i] + [recs[i]] + recs[i + 1..];
  }

  lemma SameManual(a: Plan, b: Plan, rec: Rec)
    requires ViewOf(a) == ViewOf(b)
    ensures rec in a.manual <==> rec in b.manual
    ensures a.patches == b.patches
  {
    assert rec in multiset(a.manual) <==> rec in multiset(b.manual);
  }

  lemma LastApplied(plan: Plan, rec: Rec)
    requires Step(plan, rec).Some?
    ensures var nu := Step(plan, rec).value;
      rec in nu.manual
      || (KeyOf(rec).Some? && KeyOf(rec).value in nu.patches
          && Get(nu.patches[KeyOf(rec).value], PathOf(rec)) == Some(ValueOf(rec)))
  {
    hide PathOf, ValueOf, AddsProbe;
    if KeyOf(rec).Some? {
      var doc := PatchFor(plan.patches, KeyOf(rec).value);
      if Set(doc, PathOf(rec), ValueOf(rec)).Some? { GetAfterSet(doc, PathOf(rec), ValueOf(rec)); }
    }
  }
}
