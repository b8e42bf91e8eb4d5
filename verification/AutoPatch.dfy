/** The advisor's automatic patches: which recommendations are applied, and how far a run, or many, can go.

    A run reads the ledger of earlier patches, takes the first three safe recommendations, and for each decides
    whether to raise a replica limit, by at most a factor of two and at most once in thirty minutes. What it
    reads is the cluster; what it writes is the repository, which ArgoCD applies to the cluster later. */
module AutoPatch {
  import opened Text

  /** Thirty minutes, in microseconds, the resolution of the ledger's times. */
  const COOLDOWN: nat := 1800000000

  const MAX_PATCHES: nat := 3

  /** `synced`: the cluster has caught up with the repository by the time its value is read; `readable`: the
      cluster answers; `commits`: the repository accepts the change. */
  datatype Rec = Rec(target: string, field: string, priority: string, confidence: string, risk: string,
                     from: string, to: string, synced: bool, readable: bool, commits: bool)

  /** A resource by lower-case type and name. */
  type Resource = (string, string)

  /** The limits in the repository, those in the cluster, and the time of the last patch of each target as it
      was spelled. */
  datatype Advisor = Advisor(repo: map<Resource, nat>, cluster: map<Resource, nat>, ledger: map<string, int>)

  datatype Applied = Applied(key: string, resource: Resource, value: nat)

  const SAFE_FIELDS: set<string> := {"spec.maxReplicas", "spec.maxReplicaCount"}

  /** The resources whose files the advisor may change. */
  const GIT_FILES: set<Resource> := {("hpa", "read-api-hpa"), ("hpa", "write-api-hpa"), ("keda", "worker-svc-sqs")}

  /** The resource a target names: its first and its last part. */
  function ResourceOf(target: string): Resource {
    var parts := Split(target, '/');
    (Lower(Strip(parts[0])), Strip(parts[|parts| - 1]))
  }

  /** The ledger's key: the target and the field as written. */
  function KeyOf(rec: Rec): string {
    rec.target + "/" + rec.field
  }

  /** The field is the limit of this type of resource. */
  predicate Limits(resource: Resource, field: string) {
    (field == "spec.maxReplicas" && resource.0 == "hpa") || (field == "spec.maxReplicaCount" && resource.0 == "keda")
  }

  /** The first run of digits. */
  function FirstNumber(s: string): Option<nat> {
    if s == [] then None
    else if IsDigit(s[0]) then Some(Leading(s, 0))
    else FirstNumber(s[1..])
  }

  function Leading(s: string, sofar: nat): nat {
    if s == [] || !IsDigit(s[0]) then sofar else Leading(s[1..], sofar * 10 + (s[0] - '0') as nat)
  }

  predicate Safe(rec: Rec) {
    && rec.priority == "now" && rec.confidence == "high" && (rec.risk == "none" || rec.risk == "low")
    && rec.field in SAFE_FIELDS
  }

  function SafeOnes(recs: seq<Rec>): seq<Rec> {
    if recs == [] then []
    else SafeOnes(recs[..|recs| - 1]) + if Safe(recs[|recs| - 1]) then [recs[|recs| - 1]] else []
  }

  function Candidates(recs: seq<Rec>): (c: seq<Rec>)
    ensures |c| <= MAX_PATCHES
  {
    var safe := SafeOnes(recs);
    if |safe| <= MAX_PATCHES then safe else safe[..MAX_PATCHES]
  }

  /** _get_current_value. */
  function Current(cluster: map<Resource, nat>, rec: Rec): Option<nat> {
    var r := ResourceOf(rec.target);
    if rec.readable && Limits(r, rec.field) && r in cluster then Some(cluster[r]) else None
  }

  /** Patched too recently. */
  predicate Cooling(ledger: map<string, int>, rec: Rec, now: int) {
    KeyOf(rec) in ledger && now - ledger[KeyOf(rec)] < COOLDOWN
  }

  function Cap(v: nat): nat {
    if v + 1 < 2 * v then 2 * v else v + 1
  }

  /** The value a recommendation starts from: the actual one, or its own claim when that cannot be read. */
  function Basis(cluster: map<Resource, nat>, rec: Rec): Option<nat> {
    var actual := Current(cluster, rec);
    if actual.Some? then actual else FirstNumber(rec.from)
  }

  /** The value to write, or None: cooling down, not a number, or not a raise. */
  function Proposed(s: Advisor, rec: Rec, now: int): Option<nat> {
    var from := Basis(s.cluster, rec);
    var to := FirstNumber(rec.to);
    if Cooling(s.ledger, rec, now) || from.None? || to.None? || to.value <= from.value then None
    else Some(if to.value > Cap(from.value) then Cap(from.value) else to.value)
  }

  /** _do_git_patch finds the file and the field, and the commit goes through. */
  predicate Commits(repo: map<Resource, nat>, rec: Rec) {
    var r := ResourceOf(rec.target);
    rec.commits && r in GIT_FILES && Limits(r, rec.field) && r in repo
  }

  /** ArgoCD applies the committed limit of a resource. */
  function Sync(s: Advisor, r: Resource): Advisor {
    if r in s.repo then s.(cluster := s.cluster[r := s.repo[r]]) else s
  }

  /** What a recommendation finds: the cluster may have caught up just before. */
  function Found(s: Advisor, rec: Rec): Advisor {
    if rec.synced then Sync(s, ResourceOf(rec.target)) else s
  }

  /** One recommendation: the limits, the run's ledger, and what is reported. */
  function One(s: Advisor, rec: Rec, now: int, dry: bool): (Advisor, seq<Applied>) {
    Patch(Found(s, rec), rec, now, dry)
  }

  function Patch(s: Advisor, rec: Rec, now: int, dry: bool): (Advisor, seq<Applied>) {
    var value := Proposed(s, rec, now);
    var r := ResourceOf(rec.target);
    if value.None? || !(dry || Commits(s.repo, rec)) then (s, [])
    else (Advisor(if dry then s.repo else s.repo[r := value.value], s.cluster, s.ledger[KeyOf(rec) := now]),
          [Applied(KeyOf(rec), r, value.value)])
  }

  function All(s: Advisor, recs: seq<Rec>, now: int, dry: bool): (Advisor, seq<Applied>) {
    if recs == [] then (s, [])
    else
      var (before, applied) := All(s, recs[..|recs| - 1], now, dry);
      var (after, more) := One(before, recs[|recs| - 1], now, dry);
      (after, applied + more)
  }

  /** What happens over time: runs of the advisor, and the cluster catching up. A dry run saves nothing. */
  datatype Event = Run(recs: seq<Rec>, now: int, dry: bool) | Catch(resource: Resource)

  function Apply(s: Advisor, event: Event): Advisor {
    match event
    case Run(recs, now, dry) =>
      var after := All(s, Candidates(recs), now, dry).0;
      if dry then after.(ledger := s.ledger) else after
    case Catch(r) => Sync(s, r)
  }

  function Exec(s: Advisor, events: seq<Event>): Advisor {
    if events == [] then s else Apply(Exec(s, events[..|events| - 1]), events[|events| - 1])
  }
}
