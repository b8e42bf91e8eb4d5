/** The advisor's run as the service does it. */
module AutoPatchService {
  import opened Text
  import opened AutoPatch
  import opened AutoPatchAnswers

  class Service {
    var repo: map<Resource, nat>
    var cluster: map<Resource, nat>
    var saved: map<string, int>

    function View(): Advisor
      reads this
    {
      Advisor(repo, cluster, saved)
    }

    /** The filter and the cut to three. */
    static method Select(recs: seq<Rec>) returns (candidates: seq<Rec>)
      ensures candidates == Candidates(recs)
      ensures exists at :: FirstOnes(recs, at) && candidates == At(recs, at)
    {
      var safe: seq<Rec> := [];
      for i := 0 to |recs|
        invariant safe == SafeOnes(recs[..i])
      {
        assert recs[..i + 1][..i] == recs[..i];
        if recs[i].priority == "now" && recs[i].confidence == "high"
          && (recs[i].risk == "none" || recs[i].risk == "low")
          && recs[i].field in SAFE_FIELDS {
          safe := safe + [recs[i]];
        }
      }
      assert recs[..|recs|] == recs;
      candidates := if |safe| <= MAX_PATCHES then safe else safe[..MAX_PATCHES];
      CandidatesAre(recs);
    }

    /** The value to write for one candidate. */
    method Propose(cooldown: map<string, int>, rec: Rec, now: int) returns (value: Option<nat>)
      ensures value == Proposed(Advisor(repo, cluster, cooldown), rec, now)
      ensures value.Some? ==>
        var from := Basis(cluster, rec); from.Some? && from.value < value.value <= Cap(from.value)
    {
      hide ResourceOf, FirstNumber;
      var key := rec.target + "/" + rec.field;
      if key in cooldown && now - cooldown[key] < COOLDOWN {
        return None;
      }
      var actual := Current(cluster, rec);
      var from := if actual.Some? then actual else FirstNumber(rec.from);
      var to := FirstNumber(rec.to);
      if from.None? || to.None? || to.value <= from.value {
        return None;
      }
      var cap := if from.value + 1 < 2 * from.value then 2 * from.value else from.value + 1;
      value := Some(if to.value > cap then cap else to.value);
    }

    /** One candidate: the commit, the ledger of this run, and what is reported. */
    method ApplyOne(cooldown: map<string, int>, rec: Rec, now: int, dry: bool)
      returns (next: map<string, int>, applied: seq<Applied>)
      modifies this`repo, this`cluster
      ensures (Advisor(repo, cluster, next), applied) == One(Advisor(old(repo), old(cluster), cooldown), rec, now, dry)
      ensures applied == [] ==> next == cooldown
      ensures dry || applied == [] ==> repo == old(repo)
    {
      hide Proposed, Commits, ResourceOf, KeyOf, Basis;
      next, applied := cooldown, [];
      if rec.synced {
        CatchUp(ResourceOf(rec.target));
      }
      var value := Propose(cooldown, rec, now);
      if value.None? || !(dry || Commits(repo, rec)) {
        return;
      }
      if !dry {
        repo := repo[ResourceOf(rec.target) := value.value];
      }
      next := cooldown[KeyOf(rec) := now];
      applied := [Applied(KeyOf(rec), ResourceOf(rec.target), value.value)];
    }

    /** The cluster catches up. */
    method CatchUp(r: Resource)
      modifies this`cluster
      ensures View() == Sync(old(View()), r)
    {
      if r in repo {
        cluster := cluster[r := repo[r]];
      }
    }

    /** apply_safe_patches: the ledger is saved if anything was applied for real. */
    method ApplySafePatches(recs: seq<Rec>, now: int, dry: bool) returns (applied: seq<Applied>)
      modifies this
      ensures View() == Apply(old(View()), Run(recs, now, dry))
      ensures applied == All(old(View()), Candidates(recs), now, dry).1
      ensures RunIs(old(View()), View(), recs, now, dry, applied)
    {
      RunIsSo(View(), recs, now, dry);
      var cooldown := saved;
      var candidates := Select(recs);
      applied := [];
      hide One, Candidates, RunIs;
      for i := 0 to |candidates|
        invariant saved == old(saved)
        invariant All(old(View()), candidates[..i], now, dry) == (Advisor(repo, cluster, cooldown), applied)
        invariant applied == [] ==> cooldown == saved
      {
        assert candidates[..i + 1][..i] == candidates[..i];
        var more;
        cooldown, more := ApplyOne(cooldown, candidates[i], now, dry);
        applied := applied + more;
      }
      assert candidates[..|candidates|] == candidates;
      if applied != [] && !dry {
        saved := cooldown;
      }
    }
  }
}
