/** What a run reports and changes, said over the recommendations' fields and the texts in them. */
module AutoPatchAnswers {
  import opened Text
  import opened AutoPatch

  // ---- what is considered ----------------------------------------------------------------------

  /** What may be patched without a human, field by field. */
  predicate MayPatch(rec: Rec) {
    && rec.priority == "now" && rec.confidence == "high" && (rec.risk == "none" || rec.risk == "low")
    && (rec.field == "spec.maxReplicas" || rec.field == "spec.maxReplicaCount")
  }

  predicate Increasing(at: seq<nat>, n: nat) {
    (forall k :: 0 <= k < |at| ==> at[k] < n) && forall j, k :: 0 <= j < k < |at| ==> at[j] < at[k]
  }

  function At(recs: seq<Rec>, at: seq<nat>): seq<Rec>
    requires Increasing(at, |recs|)
  {
    seq(|at|, k requires 0 <= k < |at| => recs[at[k]])
  }

  /** The positions of the first three recommendations that may be patched, in input order. */
  predicate FirstOnes(recs: seq<Rec>, at: seq<nat>) {
    && |at| <= 3 && Increasing(at, |recs|)
    && (forall k :: 0 <= k < |at| ==> MayPatch(recs[at[k]]))
    && (forall i :: 0 <= i < |recs| && MayPatch(recs[i]) && i !in at ==> |at| == 3 && at[2] < i)
  }

  lemma {:induction false} SafeAt(recs: seq<Rec>) returns (at: seq<nat>)
    ensures Increasing(at, |recs|) && SafeOnes(recs) == At(recs, at)
    ensures forall i :: 0 <= i < |recs| ==> (i in at <==> MayPatch(recs[i]))
  {
    hide MayPatch, Safe, At;
    at := [];
    if recs == [] {
      assert At(recs, at) == [] by { NoneAt(recs); }
    } else {
      var n := |recs| - 1;
      var before := SafeAt(recs[..n]);
      SafeIff(recs[n]);
      at := if Safe(recs[n]) then before + [n] else before;
      AtOn(recs, before);
      InOn(before, n, Safe(recs[n]));
      hide Increasing, SafeOnes;
      forall i | 0 <= i < n ensures i in at <==> MayPatch(recs[i]) {
        assert recs[..n][i] == recs[i];
      }
    }
  }

  lemma NoneAt(recs: seq<Rec>)
    ensures At(recs, []) == []
  {
  }

  lemma InOn(at: seq<nat>, n: nat, more: bool)
    requires Increasing(at, n)
    ensures var nu := if more then at + [n] else at;
      (n in nu <==> more) && forall i :: 0 <= i < n ==> (i in nu <==> i in at)
  {
  }

  lemma AtOn(recs: seq<Rec>, at: seq<nat>)
    requires recs != [] && Increasing(at, |recs| - 1)
    ensures Increasing(at, |recs|) && At(recs, at) == At(recs[..|recs| - 1], at)
    ensures Increasing(at + [|recs| - 1], |recs|)
    ensures At(recs, at + [|recs| - 1]) == At(recs, at) + [recs[|recs| - 1]]
  {
  }

  lemma SafeIff(rec: Rec)
    ensures Safe(rec) <==> MayPatch(rec)
  {
  }

  /** The candidates are exactly the first three recommendations that may be patched. */
  lemma CandidatesAre(recs: seq<Rec>)
    ensures exists at :: FirstOnes(recs, at) && Candidates(recs) == At(recs, at)
  {
    var all := SafeAt(recs);
    hide MayPatch, SafeOnes;
    var at := if |all| <= 3 then all else all[..3];
    assert At(recs, at) == Candidates(recs);
    assert forall i :: i in all && i !in at ==> |all| > 3 && exists k :: 3 <= k < |all| && all[k] == i;
    assert FirstOnes(recs, at);
  }

  // ---- what is reported ------------------------------------------------------------------------

  /** A report is about this recommendation. */
  predicate ReportOf(a: Applied, rec: Rec) {
    a.key == rec.target + "/" + rec.field && a.resource == ResourceOf(rec.target)
  }

  /** Some report gives the resource this value. */
  predicate Reported(applied: seq<Applied>, r: Resource, value: nat) {
    exists i :: 0 <= i < |applied| && applied[i].resource == r && applied[i].value == value
  }

  predicate LastFor(applied: seq<Applied>, i: nat)
    requires i < |applied|
  {
    forall j :: i < j < |applied| ==> applied[j].resource != applied[i].resource
  }

  /** The limits change only as reported: a report's resource ends with the value of its last report, and the
      others, or all of them in a dry run, stay. */
  ghost predicate LimitsAsReported(before: map<Resource, nat>, after: map<Resource, nat>, dry: bool,
      applied: seq<Applied>)
  {
    && after.Keys == before.Keys
    && (dry ==> after == before)
    && (forall r :: r in before && after[r] != before[r] ==> Reported(applied, r, after[r]))
    && (!dry ==> forall i :: 0 <= i < |applied| && LastFor(applied, i) ==>
          applied[i].resource in after && after[applied[i].resource] == applied[i].value)
  }

  /** The times change only as reported. */
  ghost predicate TimesAsReported(before: map<string, int>, after: map<string, int>, now: int, applied: seq<Applied>) {
    && (forall i :: 0 <= i < |applied| ==> applied[i].key in after && after[applied[i].key] == now)
    && (forall key :: (forall i :: 0 <= i < |applied| ==> applied[i].key != key) ==>
          (key in after <==> key in before) && (key in after ==> after[key] == before[key]))
  }

  /** Every report is about one of the first three recommendations that may be patched, no two about targets spelled
      the same; and what is reported is all that changes. */
  ghost predicate RunIs(before: Advisor, after: Advisor, recs: seq<Rec>, now: int, dry: bool, applied: seq<Applied>) {
    && (exists at :: FirstOnes(recs, at) && |applied| <= |at| && AllFrom(applied, At(recs, at)))
    && (forall i, j :: 0 <= i < j < |applied| ==> applied[i].key != applied[j].key)
    && LimitsAsReported(before.repo, after.repo, dry, applied)
    && (if dry then after.ledger == before.ledger else TimesAsReported(before.ledger, after.ledger, now, applied))
  }

  predicate AllFrom(applied: seq<Applied>, recs: seq<Rec>) {
    forall i :: 0 <= i < |applied| ==> exists k :: 0 <= k < |recs| && ReportOf(applied[i], recs[k])
  }

  lemma OneReports(s: Advisor, rec: Rec, now: int, dry: bool)
    ensures var (after, applied) := One(s, rec, now, dry);
      && |applied| <= 1 && AllFrom(applied, [rec])
      && LimitsAsReported(s.repo, after.repo, dry, applied)
      && TimesAsReported(s.ledger, after.ledger, now, applied)
  {
    hide ResourceOf, FirstNumber, Basis, Cooling;
    var applied := One(s, rec, now, dry).1;
    if applied != [] { assert ReportOf(applied[0], [rec][0]); }
  }

  lemma LimitsThen(a: map<Resource, nat>, b: map<Resource, nat>, c: map<Resource, nat>, dry: bool,
      first: seq<Applied>, more: seq<Applied>)
    requires LimitsAsReported(a, b, dry, first) && LimitsAsReported(b, c, dry, more) && |more| <= 1
    ensures LimitsAsReported(a, c, dry, first + more)
  {
    var all := first + more;
    assert forall i :: 0 <= i < |more| ==> all[|first| + i] == more[i];
    forall r | r in a && c[r] != a[r] ensures Reported(all, r, c[r]) {
      if c[r] != b[r] {
        var i :| 0 <= i < |more| && more[i].resource == r && more[i].value == c[r];
        assert all[|first| + i] == more[i];
      } else {
        var i :| 0 <= i < |first| && first[i].resource == r && first[i].value == b[r];
        assert all[i] == first[i];
      }
    }
    if !dry {
      forall i | 0 <= i < |all| && LastFor(all, i)
        ensures all[i].resource in c && c[all[i].resource] == all[i].value
      {
        if i < |first| {
          assert forall j :: 0 <= j < |first| ==> all[j] == first[j];
          assert LastFor(first, i);
          assert !Reported(more, first[i].resource, c[first[i].resource]);
        } else {
          assert all[i] == more[i - |first|] && LastFor(more, i - |first|);
        }
      }
    }
  }

  lemma TimesThen(a: map<string, int>, b: map<string, int>, c: map<string, int>, now: int, first: seq<Applied>,
      more: seq<Applied>)
    requires TimesAsReported(a, b, now, first) && TimesAsReported(b, c, now, more) && |more| <= 1
    ensures TimesAsReported(a, c, now, first + more)
  {
    var all := first + more;
    forall i | 0 <= i < |all| ensures all[i].key in c && c[all[i].key] == now {
      if i < |first| && !(|more| == 1 && more[0].key == all[i].key) {
        assert forall j :: 0 <= j < |more| ==> more[j].key != all[i].key;
      }
    }
    forall key | forall i :: 0 <= i < |all| ==> all[i].key != key
      ensures (key in c <==> key in a) && (key in c ==> c[key] == a[key])
    {
      assert forall i :: 0 <= i < |first| ==> first[i] == all[i];
      assert forall i :: 0 <= i < |more| ==> more[i] == all[|first| + i];
    }
  }

  lemma AllFromThen(first: seq<Applied>, more: seq<Applied>, recs: seq<Rec>)
    requires recs != [] && AllFrom(first, recs[..|recs| - 1]) && AllFrom(more, [recs[|recs| - 1]])
    ensures AllFrom(first + more, recs)
  {
    var all, n := first + more, |recs| - 1;
    forall i | 0 <= i < |all| ensures exists k :: 0 <= k < |recs| && ReportOf(all[i], recs[k]) {
      if i < |first| {
        var k :| 0 <= k < n && ReportOf(first[i], recs[..n][k]);
        assert ReportOf(all[i], recs[k]);
      } else {
        assert ReportOf(more[i - |first|], [recs[n]][0]);
        assert ReportOf(all[i], recs[n]);
      }
    }
  }

  lemma {:induction false} AllReports(s: Advisor, recs: seq<Rec>, now: int, dry: bool)
    ensures var (after, applied) := All(s, recs, now, dry);
      && |applied| <= |recs| && AllFrom(applied, recs)
      && LimitsAsReported(s.repo, after.repo, dry, applied)
      && TimesAsReported(s.ledger, after.ledger, now, applied)
  {
    hide One, ReportOf, LimitsAsReported, TimesAsReported, AllFrom;
    if recs == [] {
      NoReports(s, now, dry);
    } else {
      var n := |recs| - 1;
      AllReports(s, recs[..n], now, dry);
      var (mid, first) := All(s, recs[..n], now, dry);
      OneReports(mid, recs[n], now, dry);
      var (after, more) := One(mid, recs[n], now, dry);
      LimitsThen(s.repo, mid.repo, after.repo, dry, first, more);
      TimesThen(s.ledger, mid.ledger, after.ledger, now, first, more);
      AllFromThen(first, more, recs);
    }
  }

  lemma NoReports(s: Advisor, now: int, dry: bool)
    ensures AllFrom([], []) && LimitsAsReported(s.repo, s.repo, dry, []) && TimesAsReported(s.ledger, s.ledger, now, [])
  {
  }

  lemma {:induction false} RunLedger(s: Advisor, recs: seq<Rec>, now: int, dry: bool)
    ensures var (after, applied) := All(s, recs, now, dry);
      && |applied| <= |recs|
      && (forall i :: 0 <= i < |applied| ==> applied[i].key in after.ledger && after.ledger[applied[i].key] == now)
      && (forall i, j :: 0 <= i < j < |applied| ==> applied[i].key != applied[j].key)
  {
    if recs != [] {
      RunLedger(s, recs[..|recs| - 1], now, dry);
      hide ResourceOf, FirstNumber, KeyOf, Commits;
    }
  }

  /** A run reports and changes what it should, and only that. */
  lemma RunIsSo(s: Advisor, recs: seq<Rec>, now: int, dry: bool)
    ensures var c := Candidates(recs);
      RunIs(s, Apply(s, Run(recs, now, dry)), recs, now, dry, All(s, c, now, dry).1)
  {
    hide All, LimitsAsReported, TimesAsReported, AllFrom, Candidates, MayPatch;
    CandidatesAre(recs);
    var at :| FirstOnes(recs, at) && Candidates(recs) == At(recs, at);
    AllReports(s, At(recs, at), now, dry);
    RunLedger(s, At(recs, at), now, dry);
  }

  // ---- one recommendation ----------------------------------------------------------------------

  /** What it starts from: the actual limit when it can be read, and otherwise the number it claims. */
  predicate StartsAt(s: Advisor, rec: Rec, r: Resource, from: nat) {
    if rec.readable && Limits(r, rec.field) && r in s.cluster then s.cluster[r] == from
    else FirstNumber(rec.from) == Some(from)
  }

  /** A recommendation is carried out exactly when it asks for more than it starts from, was not patched lately and
      is dry or can be committed; and then it gets what it asks for, but at most twice what it starts from. */
  lemma ReportIs(s: Advisor, rec: Rec, now: int, dry: bool, r: Resource, from: nat, to: nat)
    requires ResourceOf(rec.target) == r && StartsAt(s, rec, r, from) && FirstNumber(rec.to) == Some(to)
    ensures var most := if from == 0 then 1 else 2 * from;
      Patch(s, rec, now, dry).1 ==
        if to > from && !Cooling(s.ledger, rec, now)
          && (dry || (rec.commits && r in GIT_FILES && Limits(r, rec.field) && r in s.repo))
        then [Applied(rec.target + "/" + rec.field, r, if to < most then to else most)] else []
  {
    hide ResourceOf, FirstNumber, Cooling, Limits;
  }

  /** And never when either number is missing. */
  lemma NothingToReport(s: Advisor, rec: Rec, now: int, dry: bool)
    requires FirstNumber(rec.to).None? || forall from :: !StartsAt(s, rec, ResourceOf(rec.target), from)
    ensures Patch(s, rec, now, dry) == (s, [])
  {
    hide ResourceOf, FirstNumber, Cooling, Limits;
    var r := ResourceOf(rec.target);
    if rec.readable && Limits(r, rec.field) && r in s.cluster {
      assert StartsAt(s, rec, r, s.cluster[r]);
    } else if FirstNumber(rec.from).Some? {
      assert StartsAt(s, rec, r, FirstNumber(rec.from).value);
    }
  }

  /** Thirty minutes between two patches of a target as it is spelled. */
  lemma CoolingIff(ledger: map<string, int>, rec: Rec, now: int)
    ensures var key := rec.target + "/" + rec.field;
      Cooling(ledger, rec, now) <==> key in ledger && now < ledger[key] + 30 * 60 * 1000000
  {
  }

  /** The limit of an hpa is maxReplicas and of a keda object maxReplicaCount; three files may be changed. */
  lemma LimitsIff(r: Resource, field: string)
    ensures Limits(r, field) <==> (r.0, field) in {("hpa", "spec.maxReplicas"), ("keda", "spec.maxReplicaCount")}
    ensures r in GIT_FILES <==>
      || (r.0 == "hpa" && r.1 in {"read-api-hpa", "write-api-hpa"}) || (r.0 == "keda" && r.1 == "worker-svc-sqs")
  {
  }

  // ---- the texts -------------------------------------------------------------------------------

  /** A target is read as what precedes its first slash, in lower case, and what follows its last one. */
  lemma ResourceIs(target: string, kind: string, name: string)
    requires kind <= target && '/' !in kind && (|kind| == |target| || target[|kind|] == '/')
    requires |name| <= |target| && target[|target| - |name|..] == name && '/' !in name
    requires |name| == |target| || target[|target| - |name| - 1] == '/'
    ensures ResourceOf(target) == (Lower(Strip(kind)), Strip(name))
  {
    hide Lower, Strip, Split;
    FirstPart(target, '/');
    LastPart(target, '/');
    SplitIs(target, '/');
    var parts := Split(target, '/');
    SameStart(target, kind, parts[0]);
    SameEnd(target, name, parts[|parts| - 1]);
  }

  lemma SameStart(s: string, a: string, b: string)
    requires a <= s && b <= s && '/' !in a && '/' !in b
    requires |a| == |s| || s[|a|] == '/'
    requires |b| == |s| || s[|b|] == '/'
    ensures a == b
  {
    assert forall i :: 0 <= i < |a| ==> s[i] == a[i] != '/';
    assert forall i :: 0 <= i < |b| ==> s[i] == b[i] != '/';
  }

  lemma SameEnd(s: string, a: string, b: string)
    requires |a| <= |s| && |b| <= |s| && s[|s| - |a|..] == a && s[|s| - |b|..] == b && '/' !in a && '/' !in b
    requires |a| == |s| || s[|s| - |a| - 1] == '/'
    requires |b| == |s| || s[|s| - |b| - 1] == '/'
    ensures a == b
  {
    assert forall i :: 0 <= i < |a| ==> s[|s| - |a| + i] == a[i] != '/';
    assert forall i :: 0 <= i < |b| ==> s[|s| - |b| + i] == b[i] != '/';
    assert |a| < |s| ==> |b| <= |a|;
  }

  predicate AllDigits(s: string) {
    forall c :: c in s ==> IsDigit(c)
  }

  /** The number in a text is the one its first digits denote. */
  lemma {:induction false} FirstNumberIs(a: string, d: string, b: string)
    requires (forall c :: c in a ==> !IsDigit(c)) && d != [] && AllDigits(d) && (b == [] || !IsDigit(b[0]))
    ensures FirstNumber(a + d + b) == Some(Decimal(d))
    decreases |a|
  {
    if a == [] {
      assert [] + d + b == d + b && [] + d == d;
      LeadingIs([], d, b);
    } else {
      FirstNumberIs(a[1..], d, b);
      assert (a + d + b)[1..] == a[1..] + d + b;
    }
  }

  /** And there is none in a text without digits. */
  lemma {:induction false} NoNumber(s: string)
    ensures FirstNumber(s).None? <==> forall c :: c in s ==> !IsDigit(c)
  {
    if s != [] {
      NoNumber(s[1..]);
      assert s == [s[0]] + s[1..];
    }
  }

  lemma {:induction false} LeadingIs(p: string, d: string, b: string)
    requires AllDigits(p) && AllDigits(d) && AllDigits(p + d) && (b == [] || !IsDigit(b[0]))
    ensures Leading(d + b, Decimal(p)) == Decimal(p + d)
    decreases |d|
  {
    if d == [] {
      assert p + d == p && d + b == b;
    } else {
      var q := p + [d[0]];
      assert q[..|q| - 1] == p && q + d[1..] == p + d && (d + b)[1..] == d[1..] + b;
      LeadingIs(q, d[1..], b);
    }
  }
}
