/** What the builder reads in a recommendation and writes for it, said over the texts and the documents' parts. */
module PatchAnswers {
  import opened Text
  import opened NestedSet
  import opened PatchPlan
  import opened PatchSharing

  // ---- which resource --------------------------------------------------------------------------

  predicate Patchable(kind: string) {
    kind == "hpa" || kind == "deployment" || kind == "scaledobject" || kind == "pdb"
  }

  /** A recommendation is for a resource exactly when its target is one of the four kinds, in any case, a slash and
      the name. The list of targets that are no Kubernetes resources decides nothing beyond that. */
  lemma KeyIff(rec: Rec, kind: string, name: string)
    ensures KeyOf(rec) == Some((kind, name)) <==>
      && Patchable(kind) && |kind| < |rec.target|
      && Lower(rec.target[..|kind|]) == kind && rec.target[|kind|..] == ['/'] + name
  {
    hide IsNonK8s, Slash, Lower, Patchable;
    var t := rec.target;
    SlashFirst(t);
    var i := Slash(t);
    if KeyOf(rec) == Some((kind, name)) {
      FourKinds(kind);
      LowerLength(t[..i]);
      CutAt(t, i);
    }
    if Patchable(kind) && |kind| < |t| && Lower(t[..|kind|]) == kind && t[|kind|..] == ['/'] + name {
      FourKinds(kind);
      NoSlashInKind(t[..|kind|], kind);
      SlashAt(t, |kind|);
      NotNonK8s(t, kind);
      assert t[|kind| + 1..] == name;
    }
  }

  lemma CutAt(t: string, i: nat)
    requires i < |t|
    ensures t[i..] == [t[i]] + t[i + 1..]
  {
  }

  lemma FourKinds(kind: string)
    ensures kind in KIND_MAP <==> Patchable(kind)
    ensures Patchable(kind) ==> kind != [] && '/' !in kind && kind[0] !in "arce"
  {
  }

  lemma LowerLength(s: string)
    ensures |Lower(s)| == |s|
  {
  }

  lemma NoSlashInKind(s: string, kind: string)
    requires Lower(s) == kind && '/' !in kind
    ensures '/' !in s
  {
    forall i | 0 <= i < |s| ensures s[i] != '/' { LowerIs(s, i); assert kind[i] in kind; }
  }

  lemma {:induction false} SlashFirst(s: string)
    ensures var i := Slash(s); '/' !in s[..i] && (i < |s| ==> s[i] == '/')
  {
    if s != [] && s[0] != '/' {
      SlashFirst(s[1..]);
      assert s[..Slash(s)] == [s[0]] + s[1..][..Slash(s[1..])];
    }
  }

  lemma SlashAt(s: string, n: nat)
    requires n < |s| && s[n] == '/' && '/' !in s[..n]
    ensures Slash(s) == n
  {
    SlashFirst(s);
    var i := Slash(s);
    hide Slash;
    assert forall k :: 0 <= k < n ==> s[k] == s[..n][k] != '/';
    assert forall k :: 0 <= k < i ==> s[k] == s[..i][k] != '/';
  }

  lemma NotNonK8s(t: string, kind: string)
    requires kind != [] && |kind| <= |t| && Lower(t[..|kind|]) == kind && kind[0] !in "arce"
    ensures !IsNonK8s(t)
  {
    assert Lower(t)[0] == Lower(t[..|kind|])[0] == kind[0];
    assert kind[0] in "arce" <==> kind[0] == 'a' || kind[0] == 'r' || kind[0] == 'c' || kind[0] == 'e';
  }

  // ---- what is written -------------------------------------------------------------------------

  predicate ManifestIs(d: Json, api: string, kind: string, name: string) {
    && d.Obj? && d.fields.Keys == {"apiVersion", "kind", "metadata"}
    && Get(d, [Name("apiVersion")]) == Some(Leaf(api)) && Get(d, [Name("kind")]) == Some(Leaf(kind))
    && d.fields["metadata"].Obj? && d.fields["metadata"].fields.Keys == {"name", "namespace"}
    && Get(d.fields["metadata"], [Name("name")]) == Some(Leaf(name))
    && Get(d.fields["metadata"], [Name("namespace")]) == Some(Leaf("ticketing"))
  }

  /** The four kinds of documents a patch starts from. */
  lemma NewPatchIs(name: string)
    ensures ManifestIs(NewPatch(("hpa", name)), "autoscaling/v2", "HorizontalPodAutoscaler", name)
    ensures ManifestIs(NewPatch(("deployment", name)), "apps/v1", "Deployment", name)
    ensures ManifestIs(NewPatch(("scaledobject", name)), "keda.sh/v1alpha1", "ScaledObject", name)
    ensures ManifestIs(NewPatch(("pdb", name)), "policy/v1", "PodDisruptionBudget", name)
  {
    ManifestFits("hpa", "autoscaling/v2", "HorizontalPodAutoscaler", name);
    ManifestFits("deployment", "apps/v1", "Deployment", name);
    ManifestFits("scaledobject", "keda.sh/v1alpha1", "ScaledObject", name);
    ManifestFits("pdb", "policy/v1", "PodDisruptionBudget", name);
  }

  lemma ManifestFits(key: string, api: string, kind: string, name: string)
    requires key in KIND_MAP && KIND_MAP[key] == (api, kind)
    ensures ManifestIs(NewPatch((key, name)), api, kind, name)
  {
  }

  /** A probe that asks for /health on the port http and gives up after three failures. */
  predicate ProbeIs(d: Json, seconds: string) {
    && d.Obj? && d.fields.Keys == {"httpGet", "initialDelaySeconds", "periodSeconds", "failureThreshold"}
    && d.fields["httpGet"].Obj? && d.fields["httpGet"].fields.Keys == {"path", "port"}
    && Get(d.fields["httpGet"], [Name("path")]) == Some(Leaf("/health"))
    && Get(d.fields["httpGet"], [Name("port")]) == Some(Leaf("http"))
    && Get(d, [Name("initialDelaySeconds")]) == Some(Leaf(seconds))
    && Get(d, [Name("periodSeconds")]) == Some(Leaf(seconds))
    && Get(d, [Name("failureThreshold")]) == Some(Leaf("3"))
  }

  lemma ProbeFits(seconds: string)
    ensures ProbeIs(Probe(seconds, seconds), seconds)
  {
  }

  /** The probe a field ends in. */
  lemma ProbeIff(field: string)
    ensures ProbeOf(field) == Some("livenessProbe") <==> exists p: string :: field == p + "livenessProbe"
    ensures ProbeOf(field) == Some("readinessProbe") <==> exists p: string :: field == p + "readinessProbe"
    ensures ProbeOf(field).None? || ProbeOf(field).value in {"livenessProbe", "readinessProbe"}
  {
    EndsIff(field, "livenessProbe");
    EndsIff(field, "readinessProbe");
    if p: string :| field == p + "livenessProbe" { assert field[|field| - 10] == 'e'; }
    if p: string :| field == p + "readinessProbe" { assert field[|field| - 10] == 'i'; }
  }

  lemma EndsIff(s: string, suffix: string)
    ensures EndsWith(s, suffix) <==> exists p: string :: s == p + suffix
  {
    if EndsWith(s, suffix) { assert s == s[..|s| - |suffix|] + suffix; }
  }

  /** A probe is added where the field ends in one and there was none, or one is asked for without a value: liveness
      every ten seconds, readiness every five. Any other recommendation writes its value. */
  lemma ValueIs(rec: Rec)
    ensures AddsProbe(rec) <==> ProbeOf(rec.field).Some? && (rec.from in {"없음", ""} || rec.to in {"추가", ""})
    ensures AddsProbe(rec) && ProbeOf(rec.field) == Some("livenessProbe") ==> ProbeIs(ValueOf(rec), "10")
    ensures AddsProbe(rec) && ProbeOf(rec.field) == Some("readinessProbe") ==> ProbeIs(ValueOf(rec), "5")
    ensures !AddsProbe(rec) ==> ValueOf(rec) == Leaf(rec.value)
  {
    hide ProbeIs, Probe, ProbeOf;
    ProbeFits("10");
    ProbeFits("5");
  }

  /** The templates the patches share are those two probes. */
  lemma TemplatesAre()
    ensures PRISTINE.Keys == {LIVE_ID, READY_ID} && LIVE_ID != READY_ID
    ensures ProbeIs(PRISTINE[LIVE_ID], "10") && ProbeIs(PRISTINE[READY_ID], "5")
  {
    hide ProbeIs;
    ProbeFits("10");
    ProbeFits("5");
  }

  // ---- where it is written ---------------------------------------------------------------------

  /** A segment is read as a key and an index exactly when it ends in digits in brackets that follow something. */
  lemma CellsIff(s: string, k: string, n: nat)
    ensures Cells(s) == [Name(k), Pos(n)] <==>
      k != [] && exists digits :: AllDigits(digits) && Decimal(digits) == n && s == k + "[" + digits + "]"
    ensures Cells(s) == [Name(s)] || |Cells(s)| == 2
  {
    var b := Bracket(s);
    if Cells(s) == [Name(k), Pos(n)] {
      var digits := s[b + 1..|s| - 1];
      assert s == k + "[" + digits + "]";
    }
    forall digits | k != [] && AllDigits(digits) && Decimal(digits) == n && s == k + "[" + digits + "]"
      ensures Cells(s) == [Name(k), Pos(n)]
    {
      IndexSegment(k, digits);
    }
  }

  lemma {:induction false} NoBracket(s: string)
    requires '[' !in s
    ensures Bracket(s) == |s|
  {
    if s != [] { NoBracket(s[..|s| - 1]); }
  }

  /** A field without brackets is its keys in order. */
  lemma {:induction false} PlainField(segments: seq<string>)
    requires segments != [] && forall s :: s in segments ==> '[' !in s
    ensures |Expand(segments)| == |segments|
    ensures forall i :: 0 <= i < |segments| ==> Expand(segments)[i] == Name(segments[i])
  {
    if |segments| > 1 {
      PlainField(segments[1..]);
      NoBracket(segments[0]);
    }
  }

  /** So a dotted field without brackets is written under its keys in order, new probe or not. */
  lemma WrittenAt(rec: Rec, keys: seq<string>)
    requires keys != [] && rec.field == Join(keys, '.') && forall k :: k in keys ==> '.' !in k && '[' !in k
    requires AddsProbe(rec) ==> EndsWith(rec.field, ['.'] + ProbeOf(rec.field).value)
    ensures |PathOf(rec)| == |keys| && forall i :: 0 <= i < |keys| ==> PathOf(rec)[i] == Name(keys[i])
  {
    if AddsProbe(rec) { ProbePathIff(rec, ProbeOf(rec.field).value); }
    SplitJoin(keys, '.');
    PlainField(keys);
    hide Expand, AddsProbe, ProbeOf, EndsWith, Split, Join;
  }

  // ---- one recommendation ----------------------------------------------------------------------

  /** What one recommendation does to the plan: left to a human, and nothing else but an empty patch for its resource;
      or set in its resource's patch and noted there; or, for a new probe that cannot be set, the whole build
      raises. */
  lemma StepIs(plan: Plan, rec: Rec)
    ensures var key, nu := KeyOf(rec), Step(plan, rec);
      if key.None? then nu == Some(Plan(plan.patches, plan.comments, plan.manual + [rec]))
      else
        var doc := if key.value in plan.patches then plan.patches[key.value] else NewPatch(key.value);
        var made := Set(doc, PathOf(rec), ValueOf(rec));
        && (nu.None? <==> made.None? && AddsProbe(rec))
        && (made.None? && nu.Some? ==>
              nu == Some(Plan(plan.patches[key.value := doc], plan.comments, plan.manual + [rec])))
        && (made.Some? ==>
              && nu.Some? && nu.value.manual == plan.manual && nu.value.patches == plan.patches[key.value := made.value]
              && key.value in nu.value.comments && nu.value.comments.Keys == plan.comments.Keys + {key.value}
              && (forall k :: k in plan.comments && k != key.value ==> nu.value.comments[k] == plan.comments[k])
              && nu.value.comments[key.value] ==
                (if key.value in plan.comments then plan.comments[key.value] + [rec] else [rec]))
  {
    hide KeyOf, PathOf, ValueOf, AddsProbe, Set, NewPatch;
  }

  /** In place the lists and the raising are the same, and what is set is set in one document: the resource's own or
      one template. */
  lemma ShareStepIs(s: Sharing, rec: Rec)
    ensures var key, nu := KeyOf(rec), ShareStep(s, rec);
      && (nu.None? ==> key.Some? && AddsProbe(rec))
      && (nu.Some? ==> var n := nu.value;
            if n.manual == s.manual then
              && key.Some? && key.value in n.comments && rec in n.comments[key.value] && key.value in n.docs
              && (forall k :: k != key.value ==>
                    (k in n.docs <==> k in s.docs) && (k in n.comments <==> k in s.comments))
              && (forall k :: k != key.value && k in s.docs ==> n.docs[k] == s.docs[k])
              && (n.tpls != s.tpls ==> key.value in s.docs ==> n.docs[key.value] == s.docs[key.value])
              && n.tpls.Keys == s.tpls.Keys
            else n.manual == s.manual + [rec] && n.comments == s.comments && n.tpls == s.tpls)
  {
    hide KeyOf, PathOf, AddsProbe, Set, NewPatch, ItemOf;
  }
}
