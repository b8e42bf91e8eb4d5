/** How far automatic patches can go: in one run, and over every schedule of runs. */
module AutoPatchTheorems {
  import opened Text
  import opened AutoPatch
  import opened AutoPatchAnswers

  // ---- one run ---------------------------------------------------------------------------------

  /** A run, dry or not, applies at most three patches, and none twice to a target spelled the same. */
  lemma AtMostThreePatches(s: Advisor, recs: seq<Rec>, now: int, dry: bool)
    ensures var applied := All(s, Candidates(recs), now, dry).1;
      |applied| <= MAX_PATCHES && forall i, j :: 0 <= i < j < |applied| ==> applied[i].key != applied[j].key
  {
    RunLedger(s, Candidates(recs), now, dry);
  }

  // ---- one recommendation ----------------------------------------------------------------------

  /** It is about this limit of this resource. */
  predicate Concerns(rec: Rec, r: Resource) {
    ResourceOf(rec.target) == r && Limits(r, rec.field)
  }

  /** The recommendation is carried out, starting from `from` and asking for `to`. */
  predicate Goes(s: Advisor, rec: Rec, now: int, r: Resource, from: nat, to: nat) {
    && Concerns(rec, r) && rec.commits && r in GIT_FILES && !Cooling(s.ledger, rec, now)
    && FirstNumber(rec.to) == Some(to) && from < to
    && if rec.readable && r in s.cluster then s.cluster[r] == from else FirstNumber(rec.from) == Some(from)
  }

  function Least(a: nat, b: nat): nat {
    if a < b then a else b
  }

  /** The committed limit after a recommendation: what was asked for, or the cap above what was read or claimed;
      and no other limit changes. */
  lemma PatchIs(s: Advisor, rec: Rec, now: int, r: Resource)
    requires r in s.repo
    ensures var nu := Patch(s, rec, now, false).0;
      && r in nu.repo && nu.cluster == s.cluster
      && (forall from, to :: Goes(s, rec, now, r, from, to) ==>
            nu.repo[r] == Least(to, Cap(from)) && KeyOf(rec) in nu.ledger && nu.ledger[KeyOf(rec)] == now)
      && ((forall from, to :: !Goes(s, rec, now, r, from, to)) ==> nu.repo[r] == s.repo[r])
  {
    hide ResourceOf, FirstNumber, KeyOf;
    var from, to := Basis(s.cluster, rec), FirstNumber(rec.to);
    if from.Some? && to.Some? && Concerns(rec, r) && Proposed(s, rec, now).Some? && Commits(s.repo, rec) {
      assert Goes(s, rec, now, r, from.value, to.value);
    }
  }

  /** A committed limit goes down exactly when a recommendation for it is carried out from a value that is too
      low: one it claims because the actual one cannot be read, or one the cluster has not caught up from. */
  lemma LowersIff(s: Advisor, rec: Rec, now: int, r: Resource)
    requires r in s.repo
    ensures var nu := Patch(s, rec, now, false).0;
      r in nu.repo && (nu.repo[r] < s.repo[r] <==>
        exists from, to :: Goes(s, rec, now, r, from, to) && Least(to, Cap(from)) < s.repo[r])
  {
    PatchIs(s, rec, now, r);
    hide Goes, Patch;
    if from, to :| Goes(s, rec, now, r, from, to) {
      OneBasis(s, rec, now, r);
    }
  }

  /** When the actual value is read, that takes a cluster that is behind: its value and the request are both too
      low for the repository. */
  lemma ReadLowersIff(s: Advisor, rec: Rec, now: int, r: Resource, to: nat)
    requires r in s.repo && r in s.cluster && rec.readable && FirstNumber(rec.to) == Some(to)
    ensures var nu := Patch(s, rec, now, false).0;
      r in nu.repo && (nu.repo[r] < s.repo[r] <==>
        && Concerns(rec, r) && rec.commits && r in GIT_FILES && !Cooling(s.ledger, rec, now)
        && s.cluster[r] < to && Least(to, Cap(s.cluster[r])) < s.repo[r])
      && (nu.repo[r] < s.repo[r] ==> s.cluster[r] < s.repo[r])
  {
    LowersIff(s, rec, now, r);
    hide Patch, FirstNumber, KeyOf, Cooling, Concerns;
    assert Goes(s, rec, now, r, s.cluster[r], to) <==>
      Concerns(rec, r) && rec.commits && r in GIT_FILES && !Cooling(s.ledger, rec, now) && s.cluster[r] < to;
  }

  /** When it is not, that takes a claim that is too low. */
  lemma UnreadLowersIff(s: Advisor, rec: Rec, now: int, r: Resource, from: nat, to: nat)
    requires r in s.repo && !rec.readable && FirstNumber(rec.from) == Some(from) && FirstNumber(rec.to) == Some(to)
    ensures var nu := Patch(s, rec, now, false).0;
      r in nu.repo && (nu.repo[r] < s.repo[r] <==>
        && Concerns(rec, r) && rec.commits && r in GIT_FILES && !Cooling(s.ledger, rec, now)
        && from < to && Least(to, Cap(from)) < s.repo[r])
  {
    LowersIff(s, rec, now, r);
    hide Patch, FirstNumber, KeyOf, Cooling, Concerns;
    assert Goes(s, rec, now, r, from, to) <==>
      Concerns(rec, r) && rec.commits && r in GIT_FILES && !Cooling(s.ledger, rec, now) && from < to;
  }

  /** What a recommendation starts from and asks for is determined. */
  lemma OneBasis(s: Advisor, rec: Rec, now: int, r: Resource)
    ensures forall f, t, g, u :: Goes(s, rec, now, r, f, t) && Goes(s, rec, now, r, g, u) ==> f == g && t == u
  {
    hide ResourceOf, FirstNumber, KeyOf, Concerns, Cooling;
  }

  /** A limit that is read from a cluster that has caught up is never lowered: it is raised, to at most the cap. */
  lemma SyncedOnlyRaises(s: Advisor, rec: Rec, now: int, r: Resource)
    requires r in s.repo && (Concerns(rec, r) ==> rec.synced && rec.readable)
    ensures var nu := One(s, rec, now, false).0;
      r in nu.repo && (nu.repo[r] == s.repo[r] || s.repo[r] < nu.repo[r] <= Cap(s.repo[r]))
  {
    var f := Found(s, rec);
    PatchIs(f, rec, now, r);
    hide FirstNumber, KeyOf, Cooling, Patch;
    if from, to :| Goes(f, rec, now, r, from, to) {
      assert from == s.repo[r];
    }
  }

  // ---- schedules of runs -----------------------------------------------------------------------

  function Pow2(n: nat): (p: nat)
    ensures p >= 1
  {
    if n == 0 then 1 else 2 * Pow2(n - 1)
  }

  lemma {:induction false} Pow2Grows(a: nat, b: nat)
    requires a <= b
    ensures Pow2(a) <= Pow2(b)
    decreases b
  {
    if a < b { Pow2Grows(a, b - 1); }
  }

  /** A recommendation for the resource uses one of the spellings, and what it may start from without reading is
      at most `base`. */
  predicate Proper(rec: Rec, r: Resource, keys: seq<string>, base: nat) {
    Concerns(rec, r) ==>
      KeyOf(rec) in keys && (rec.readable || FirstNumber(rec.from).None? || FirstNumber(rec.from).value <= base)
  }

  predicate AllProper(recs: seq<Rec>, r: Resource, keys: seq<string>, base: nat) {
    forall i :: 0 <= i < |recs| ==> Proper(recs[i], r, keys, base)
  }

  function Sum(counts: seq<nat>): nat {
    if counts == [] then 0 else Sum(counts[..|counts| - 1]) + counts[|counts| - 1]
  }

  /** `counts[i]` patches under spelling i, the last of them `counts[i] - 1` cooldowns after `t0` or later. */
  ghost predicate Spaced(ledger: map<string, int>, keys: seq<string>, counts: seq<nat>, t0: int, t1: int) {
    |counts| == |keys| && forall i :: 0 <= i < |keys| && counts[i] >= 1 ==>
      keys[i] in ledger && t0 + (counts[i] - 1) * COOLDOWN <= ledger[keys[i]] <= t1
  }

  /** Neither the repository nor the cluster is beyond `base`, doubled once for every patch. */
  ghost predicate Bounded(s: Advisor, r: Resource, base: nat, n: nat) {
    r in s.repo && r in s.cluster && s.repo[r] <= base * Pow2(n) && s.cluster[r] <= base * Pow2(n)
  }

  ghost predicate Grown(s: Advisor, r: Resource, keys: seq<string>, base: nat, t0: int, t1: int) {
    exists counts :: Spaced(s.ledger, keys, counts, t0, t1) && Bounded(s, r, base, Sum(counts))
  }

  lemma {:induction false} SumNext(counts: seq<nat>, i: nat)
    requires i < |counts|
    ensures Sum(counts[i := counts[i] + 1]) == Sum(counts) + 1
    decreases |counts|
  {
    var n := |counts| - 1;
    if i == n {
      assert counts[i := counts[i] + 1][..n] == counts[..n];
    } else {
      assert counts[i := counts[i] + 1][..n] == counts[..n][i := counts[i] + 1];
      SumNext(counts[..n], i);
    }
  }

  lemma {:induction false} SumAtMost(counts: seq<nat>, m: nat)
    requires forall i :: 0 <= i < |counts| ==> counts[i] <= m
    ensures Sum(counts) <= |counts| * m
  {
    if counts != [] { SumAtMost(counts[..|counts| - 1], m); }
  }

  lemma DoubleBound(base: nat, v: nat, n: nat)
    requires base >= 1 && v <= base * Pow2(n)
    ensures Cap(v) <= base * Pow2(n + 1)
  {
    assert base * Pow2(n + 1) == 2 * (base * Pow2(n));
    Times(1, base, Pow2(n));
  }

  lemma Times(a: nat, b: nat, x: nat)
    requires a <= b
    ensures a * x <= b * x && x * a <= x * b
  {
  }

  /** The ledger's times only move forward. */
  lemma LedgerForward(s: Advisor, rec: Rec, now: int, key: string)
    requires key in s.ledger
    ensures var nu := Patch(s, rec, now, false).0;
      key in nu.ledger && (nu.ledger[key] == s.ledger[key] || nu.ledger[key] == now >= s.ledger[key] + COOLDOWN)
  {
    hide ResourceOf, FirstNumber, KeyOf, Basis;
  }

  lemma LedgerSpaced(s: Advisor, rec: Rec, now: int, keys: seq<string>, counts: seq<nat>, t0: int, t1: int)
    requires Spaced(s.ledger, keys, counts, t0, t1) && now <= t1
    ensures Spaced(Patch(s, rec, now, false).0.ledger, keys, counts, t0, t1)
  {
    var nu := Patch(s, rec, now, false).0;
    hide Patch;
    forall i | 0 <= i < |keys| && counts[i] >= 1
      ensures keys[i] in nu.ledger && t0 + (counts[i] - 1) * COOLDOWN <= nu.ledger[keys[i]] <= t1
    {
      LedgerForward(s, rec, now, keys[i]);
    }
  }

  lemma BaseBound(base: nat, v: nat, n: nat)
    requires v <= base
    ensures v <= base * Pow2(n)
  {
    Times(1, Pow2(n), base);
  }

  /** One patch, counted under its spelling. */
  lemma CountedPatch(s: Advisor, rec: Rec, now: int, r: Resource, keys: seq<string>, counts: seq<nat>, base: nat,
      t0: int, t1: int, from: nat, to: nat)
    requires base >= 1 && t0 <= now <= t1 && Spaced(s.ledger, keys, counts, t0, t1) && Bounded(s, r, base, Sum(counts))
    requires Goes(s, rec, now, r, from, to) && Proper(rec, r, keys, base)
    ensures Grown(Patch(s, rec, now, false).0, r, keys, base, t0, t1)
  {
    var nu := Patch(s, rec, now, false).0;
    PatchIs(s, rec, now, r);
    LedgerSpaced(s, rec, now, keys, counts, t0, t1);
    var i :| 0 <= i < |keys| && keys[i] == KeyOf(rec);
    var more := counts[i := counts[i] + 1];
    SumNext(counts, i);
    if !(rec.readable && r in s.cluster) { BaseBound(base, from, Sum(counts)); }
    DoubleBound(base, from, Sum(counts));
    DoubleBound(base, s.cluster[r], Sum(counts));
    StillSpaced(s, rec, now, nu.ledger, keys, counts, i, t0, t1);
    hide Spaced, Goes, Proper, Patch, Pow2, Sum;
    assert Bounded(nu, r, base, Sum(more));
  }

  lemma StillSpaced(s: Advisor, rec: Rec, now: int, ledger: map<string, int>, keys: seq<string>, counts: seq<nat>,
      i: nat, t0: int, t1: int)
    requires Spaced(s.ledger, keys, counts, t0, t1) && Spaced(ledger, keys, counts, t0, t1) && i < |keys|
    requires keys[i] == KeyOf(rec) && !Cooling(s.ledger, rec, now) && t0 <= now <= t1
    requires KeyOf(rec) in ledger && ledger[KeyOf(rec)] == now
    ensures Spaced(ledger, keys, counts[i := counts[i] + 1], t0, t1)
  {
    hide KeyOf;
  }

  lemma GrownPatch(s: Advisor, rec: Rec, now: int, r: Resource, keys: seq<string>, base: nat, t0: int, t1: int)
    requires base >= 1 && t0 <= now <= t1 && Grown(s, r, keys, base, t0, t1) && Proper(rec, r, keys, base)
    ensures Grown(Patch(s, rec, now, false).0, r, keys, base, t0, t1)
  {
    var counts :| Spaced(s.ledger, keys, counts, t0, t1) && Bounded(s, r, base, Sum(counts));
    hide Patch, Goes, Proper, Spaced;
    if from, to :| Goes(s, rec, now, r, from, to) {
      CountedPatch(s, rec, now, r, keys, counts, base, t0, t1, from, to);
    } else {
      PatchIs(s, rec, now, r);
      LedgerSpaced(s, rec, now, keys, counts, t0, t1);
      assert Bounded(Patch(s, rec, now, false).0, r, base, Sum(counts));
    }
  }

  lemma GrownSync(s: Advisor, q: Resource, r: Resource, keys: seq<string>, base: nat, t0: int, t1: int)
    requires Grown(s, r, keys, base, t0, t1)
    ensures Grown(Sync(s, q), r, keys, base, t0, t1)
  {
    var counts :| Spaced(s.ledger, keys, counts, t0, t1) && Bounded(s, r, base, Sum(counts));
    assert Spaced(Sync(s, q).ledger, keys, counts, t0, t1) && Bounded(Sync(s, q), r, base, Sum(counts));
  }

  lemma GrownOne(s: Advisor, rec: Rec, now: int, dry: bool, r: Resource, keys: seq<string>, base: nat, t0: int, t1: int)
    requires base >= 1 && t0 <= now <= t1 && Grown(s, r, keys, base, t0, t1) && Proper(rec, r, keys, base) && !dry
    ensures Grown(One(s, rec, now, dry).0, r, keys, base, t0, t1)
  {
    hide Grown, Proper, Patch, ResourceOf;
    if rec.synced { GrownSync(s, ResourceOf(rec.target), r, keys, base, t0, t1); }
    GrownPatch(Found(s, rec), rec, now, r, keys, base, t0, t1);
  }

  lemma {:induction false} GrownAll(s: Advisor, recs: seq<Rec>, now: int, r: Resource, keys: seq<string>, base: nat,
      t0: int, t1: int)
    requires base >= 1 && t0 <= now <= t1 && Grown(s, r, keys, base, t0, t1) && AllProper(recs, r, keys, base)
    ensures Grown(All(s, recs, now, false).0, r, keys, base, t0, t1)
  {
    hide Grown, One, Proper;
    if recs != [] {
      var before := recs[..|recs| - 1];
      GrownAll(s, before, now, r, keys, base, t0, t1);
      GrownOne(All(s, before, now, false).0, recs[|recs| - 1], now, false, r, keys, base, t0, t1);
    }
  }

  /** A dry run leaves the limits of both, but for what the cluster catches up with. */
  lemma {:induction false} DryAll(s: Advisor, recs: seq<Rec>, now: int, r: Resource, base: nat, n: nat)
    requires Bounded(s, r, base, n)
    ensures Bounded(All(s, recs, now, true).0, r, base, n)
  {
    if recs != [] {
      DryAll(s, recs[..|recs| - 1], now, r, base, n);
      hide Proposed, ResourceOf, KeyOf, Pow2;
    }
  }

  lemma {:induction false} SafeOnesFrom(recs: seq<Rec>)
    ensures forall rec :: rec in SafeOnes(recs) ==> rec in recs
  {
    if recs != [] { SafeOnesFrom(recs[..|recs| - 1]); }
  }

  lemma CandidatesProper(recs: seq<Rec>, r: Resource, keys: seq<string>, base: nat)
    requires AllProper(recs, r, keys, base)
    ensures AllProper(Candidates(recs), r, keys, base)
  {
    hide Proper, Safe;
    SafeOnesFrom(recs);
    var c := Candidates(recs);
    forall i | 0 <= i < |c| ensures Proper(c[i], r, keys, base) {
      assert c[i] in SafeOnes(recs);
      var j :| 0 <= j < |recs| && recs[j] == c[i];
    }
  }

  /** Every run falls into the span of time and is proper for the resource. */
  predicate Scheduled(events: seq<Event>, r: Resource, keys: seq<string>, base: nat, t0: int, t1: int) {
    forall i :: 0 <= i < |events| && events[i].Run? ==>
      t0 <= events[i].now <= t1 && AllProper(events[i].recs, r, keys, base)
  }

  lemma GrownEvent(s: Advisor, event: Event, r: Resource, keys: seq<string>, base: nat, t0: int, t1: int)
    requires base >= 1 && Grown(s, r, keys, base, t0, t1)
    requires event.Run? ==> t0 <= event.now <= t1 && AllProper(event.recs, r, keys, base)
    ensures Grown(Apply(s, event), r, keys, base, t0, t1)
  {
    match event
    case Run(recs, now, dry) =>
      CandidatesProper(recs, r, keys, base);
      hide AllProper, Candidates, All;
      if dry {
        var counts :| Spaced(s.ledger, keys, counts, t0, t1) && Bounded(s, r, base, Sum(counts));
        DryAll(s, Candidates(recs), now, r, base, Sum(counts));
        assert Bounded(Apply(s, event), r, base, Sum(counts));
      } else {
        GrownAll(s, Candidates(recs), now, r, keys, base, t0, t1);
      }
    case Catch(q) => GrownSync(s, q, r, keys, base, t0, t1);
  }

  lemma {:induction false} GrownRuns(s: Advisor, events: seq<Event>, r: Resource, keys: seq<string>, base: nat,
      t0: int, t1: int)
    requires base >= 1 && Grown(s, r, keys, base, t0, t1) && Scheduled(events, r, keys, base, t0, t1)
    ensures Grown(Exec(s, events), r, keys, base, t0, t1)
  {
    hide Grown, Apply, AllProper;
    if events != [] {
      GrownRuns(s, events[..|events| - 1], r, keys, base, t0, t1);
      GrownEvent(Exec(s, events[..|events| - 1]), events[|events| - 1], r, keys, base, t0, t1);
    }
  }

  /** Over any runs within a span of time, dry ones included, whatever is recommended, whatever fails to commit and
      however far the cluster lags behind: the limit at most doubles once for every thirty minutes begun and every
      spelling in use, from the largest of its first values and of the values claimed for it without reading. */
  lemma GrowthBound(s: Advisor, events: seq<Event>, r: Resource, keys: seq<string>, base: nat, t0: int, span: nat)
    requires r in s.repo && r in s.cluster && s.repo[r] <= base && s.cluster[r] <= base && base >= 1
    requires Scheduled(events, r, keys, base, t0, t0 + span)
    ensures var end := Exec(s, events);
      r in end.repo && r in end.cluster
      && end.repo[r] <= base * Pow2(|keys| * (span / COOLDOWN + 1))
      && end.cluster[r] <= base * Pow2(|keys| * (span / COOLDOWN + 1))
  {
    var none := seq(|keys|, _ => 0 as nat);
    NoPatches(none);
    assert Spaced(s.ledger, keys, none, t0, t0 + span) && Bounded(s, r, base, Sum(none));
    GrownRuns(s, events, r, keys, base, t0, t0 + span);
    var end := Exec(s, events);
    var counts :| Spaced(end.ledger, keys, counts, t0, t0 + span) && Bounded(end, r, base, Sum(counts));
    forall i | 0 <= i < |counts| ensures counts[i] <= span / COOLDOWN + 1 { FewPatches(counts[i], span); }
    SumAtMost(counts, span / COOLDOWN + 1);
    Pow2Grows(Sum(counts), |keys| * (span / COOLDOWN + 1));
    Times(Pow2(Sum(counts)), Pow2(|keys| * (span / COOLDOWN + 1)), base);
  }

  lemma {:induction false} NoPatches(counts: seq<nat>)
    requires forall i :: 0 <= i < |counts| ==> counts[i] == 0
    ensures Sum(counts) == 0
  {
    if counts != [] { NoPatches(counts[..|counts| - 1]); }
  }

  lemma FewPatches(n: nat, span: nat)
    requires n >= 1 ==> (n - 1) * COOLDOWN <= span
    ensures n <= span / COOLDOWN + 1
  {
  }

  /** A limit that is always read from a cluster that has caught up never goes down. */
  lemma {:induction false} NeverLowered(s: Advisor, recs: seq<Rec>, now: int, r: Resource)
    requires r in s.repo
    requires forall i :: 0 <= i < |recs| && Concerns(recs[i], r) ==> recs[i].synced && recs[i].readable
    ensures var end := All(s, recs, now, false).0; r in end.repo && end.repo[r] >= s.repo[r]
  {
    hide One, Concerns;
    if recs != [] {
      NeverLowered(s, recs[..|recs| - 1], now, r);
      SyncedOnlyRaises(All(s, recs[..|recs| - 1], now, false).0, recs[|recs| - 1], now, r);
    }
  }

  /** A resource whose file is not listed never changes. */
  lemma {:induction false} UnlistedUntouched(s: Advisor, recs: seq<Rec>, now: int, dry: bool, r: Resource)
    requires r in s.repo && r !in GIT_FILES
    ensures var end := All(s, recs, now, dry).0; r in end.repo && end.repo[r] == s.repo[r]
  {
    if recs != [] {
      UnlistedUntouched(s, recs[..|recs| - 1], now, dry, r);
      hide ResourceOf, Proposed, KeyOf;
    }
  }

  // ---- why the spelling matters ----------------------------------------------------------------

  /** The ledger knows spellings, not resources: two spellings of one target are both patched in one run. Unless
      the cluster catches up in between, the second starts from the old value and overwrites the first, and it
      lowers the limit exactly when it asks for less than the first was given. */
  lemma TwoSpellingsPatchTwice(s: Advisor, a: Rec, b: Rec, now: int, r: Resource, ta: nat, tb: nat)
    requires r in s.repo && r in s.cluster && s.cluster[r] == s.repo[r]
    requires Concerns(a, r) && Concerns(b, r) && KeyOf(a) != KeyOf(b) && r in GIT_FILES
    requires a.commits && b.commits && a.readable && b.readable
    requires !Cooling(s.ledger, a, now) && !Cooling(s.ledger, b, now)
    requires FirstNumber(a.to) == Some(ta) && FirstNumber(b.to) == Some(tb) && ta > s.repo[r] && tb > s.repo[r]
    ensures var v := s.repo[r]; var first := Least(ta, Cap(v)); var end := All(s, [a, b], now, false).0;
      r in end.repo && end.repo[r] ==
        if !b.synced then Least(tb, Cap(v)) else if tb > first then Least(tb, Cap(first)) else first
    ensures var end := All(s, [a, b], now, false).0;
      !b.synced ==> (end.repo[r] < Least(ta, Cap(s.repo[r])) <==> tb < Least(ta, Cap(s.repo[r])))
  {
    var v, two := s.repo[r], [a, b];
    assert two[..1] == [a] && [a][..0] == [];
    var f := Found(s, a);
    FoundSame(s, a, r);
    var mid := One(s, a, now, false).0;
    assert All(s, [a], now, false).0 == mid;
    PatchIs(f, a, now, r);
    assert Goes(f, a, now, r, v, ta);
    OtherKey(f, a, b, now);
    var g := Found(mid, b);
    PatchIs(g, b, now, r);
    hide FirstNumber, KeyOf, Cooling, Patch, Least, Cap;
    if b.synced {
      assert g.cluster[r] == mid.repo[r];
      if tb > mid.repo[r] { assert Goes(g, b, now, r, mid.repo[r], tb); }
    } else {
      assert Goes(g, b, now, r, v, tb);
    }
  }

  /** A cluster that has caught up already has nothing to catch up with. */
  lemma FoundSame(s: Advisor, rec: Rec, r: Resource)
    requires r in s.repo && r in s.cluster && s.cluster[r] == s.repo[r] && ResourceOf(rec.target) == r
    ensures Found(s, rec) == s
  {
    assert s.cluster[r := s.repo[r]] == s.cluster;
  }

  /** A patch under one spelling leaves the others free. */
  lemma OtherKey(s: Advisor, a: Rec, b: Rec, now: int)
    requires KeyOf(a) != KeyOf(b) && !Cooling(s.ledger, b, now)
    ensures !Cooling(Patch(s, a, now, false).0.ledger, b, now)
  {
    hide KeyOf, ResourceOf, Proposed;
  }

  /** Such spellings exist for every name: case does not matter for the resource, and does for the ledger. */
  lemma TwoSpellings(name: string)
    requires name != [] && '/' !in name && !IsSpace(name[0]) && !IsSpace(name[|name| - 1])
    ensures "hpa" + ['/'] + name != "HPA" + ['/'] + name
    ensures ResourceOf("hpa" + ['/'] + name) == ResourceOf("HPA" + ['/'] + name) == ("hpa", name)
  {
    Named("hpa", name);
    Named("HPA", name);
    hide ResourceOf;
    assert Lower("HPA") == "hpa" && Lower("hpa") == "hpa";
    assert ("hpa" + ['/'] + name)[0] != ("HPA" + ['/'] + name)[0];
  }

  lemma Named(kind: string, name: string)
    requires kind != [] && name != [] && '/' !in kind && '/' !in name
    requires !IsSpace(kind[0]) && !IsSpace(kind[|kind| - 1]) && !IsSpace(name[0]) && !IsSpace(name[|name| - 1])
    ensures ResourceOf(kind + ['/'] + name) == (Lower(kind), name)
  {
    SplitTwo(kind, name, '/');
  }
}
