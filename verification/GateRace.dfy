/** Pollers racing on one gate: nothing makes the read, the computation and the write of a poll one action.

    A stale write can put `done` and the clock back, but it puts both back: every pair that is ever read or
    written lies on the same line, and that bounds both how fast tickets are admitted and how long they wait. */
module GateRace {
  import opened Gate

  /** A status poll for ticket `place`: it has its time, then the stored pair, then it is over. */
  datatype Poll = Timed(place: nat, t: int) | Holding(place: nat, t: int, seen: Gate)

  /** `admitted` collects the tickets that were given a permit. */
  datatype Race = Race(now: int, gate: Gate, polls: map<nat, Poll>, admitted: set<nat>)

  datatype Step =
    | Tick(ms: nat)                 // time passes
    | Start(p: nat, place: nat)       // poll p, for a ticket, reads the time
    | Read(p: nat)                  // poll p reads the stored pair
    | Write(p: nat, rate: nat)      // poll p writes what it computed and answers
    | Paused(place: nat)              // a poll of a disabled gate answers from the stored count

  predicate Enabled(st: Race, step: Step) {
    match step
    case Tick(_) => true
    case Start(p, place) => p !in st.polls && place >= 1
    case Read(p) => p in st.polls && st.polls[p].Timed?
    case Write(p, _) => p in st.polls && st.polls[p].Holding?
    case Paused(place) => place >= 1
  }

  /** What a poll stores: the clock alone when it initialises, nothing when no whole second has passed. */
  function Stored(gate: Gate, seen: Gate, rate: nat, t: int): Gate {
    if seen.clock <= 0 then gate.(clock := t)
    else if Whole(seen.clock, t) * rate <= 0 then gate
    else Advance(seen, rate, t)
  }

  /** The first ticket after the admitted ones is let in as well. */
  function Admit(admitted: set<nat>, place: nat, done: nat): set<nat> {
    if place <= done + 1 then admitted + {place} else admitted
  }

  function Apply(st: Race, step: Step): Race
    requires Enabled(st, step)
  {
    match step
    case Tick(ms) => st.(now := st.now + ms)
    case Start(p, place) => st.(polls := st.polls[p := Timed(place, st.now)])
    case Read(p) => st.(polls := st.polls[p := Holding(st.polls[p].place, st.polls[p].t, st.gate)])
    case Write(p, rate) =>
      var h := st.polls[p];
      st.(gate := Stored(st.gate, h.seen, rate, h.t), polls := st.polls - {p},
          admitted := Admit(st.admitted, h.place, Advance(h.seen, rate, h.t).done))
    case Paused(place) => st.(admitted := Admit(st.admitted, place, st.gate.done))
  }

  predicate InRange(step: Step, lo: nat, hi: nat) {
    step.Write? ==> 1 <= step.rate && lo <= step.rate <= hi
  }

  predicate Runs(st: Race, steps: seq<Step>, lo: nat, hi: nat)
    decreases |steps|
  {
    steps == [] ||
    (Enabled(st, steps[0]) && InRange(steps[0], lo, hi) && Runs(Apply(st, steps[0]), steps[1..], lo, hi))
  }

  function Exec(st: Race, steps: seq<Step>, lo: nat, hi: nat): Race
    requires Runs(st, steps, lo, hi)
    decreases |steps|
  {
    if steps == [] then st else Exec(Apply(st, steps[0]), steps[1..], lo, hi)
  }

  /** The gate's clock is initialised, and no poll has begun. */
  predicate Ready(st: Race) {
    0 < st.gate.clock <= st.now && st.polls == map[] && st.admitted == {}
  }

  ghost predicate PollOk(g0: Gate, h: Poll, now: int, lo: nat, hi: nat) {
    && h.t <= now && h.place >= 1
    && (h.Holding? ==> Paid(g0, h.seen, lo, hi) && h.seen.clock <= now)
  }

  /** No ticket beyond what `hi` places a second allow. */
  ghost predicate AdmittedOk(g0: Gate, admitted: set<nat>, now: int, hi: nat) {
    forall s :: s in admitted ==> 1 <= s <= g0.done + hi * Whole(g0.clock, now) + 1
  }

  ghost predicate RaceInv(g0: Gate, st: Race, lo: nat, hi: nat) {
    && Paid(g0, st.gate, lo, hi) && st.gate.clock <= st.now
    && (forall p :: p in st.polls ==> PollOk(g0, st.polls[p], st.now, lo, hi))
    && AdmittedOk(g0, st.admitted, st.now, hi)
  }

  lemma CountBound(g0: Gate, g: Gate, now: int, lo: nat, hi: nat)
    requires Paid(g0, g, lo, hi) && g.clock <= now
    ensures g.done <= g0.done + hi * Whole(g0.clock, now)
  {
    Scale(Ticks(g0, g), Whole(g0.clock, now), hi);
  }

  lemma AdvanceStays(g0: Gate, g: Gate, lo: nat, hi: nat, rate: nat, t: int, now: int)
    requires Paid(g0, g, lo, hi) && 1 <= rate && lo <= rate <= hi && g.clock <= now && t <= now
    ensures Paid(g0, Advance(g, rate, t), lo, hi) && Advance(g, rate, t).clock <= now
  {
    PaidAdvance(g0, g, lo, hi, rate, t);
  }

  lemma RaceStep(g0: Gate, st: Race, step: Step, lo: nat, hi: nat)
    requires RaceInv(g0, st, lo, hi) && Enabled(st, step) && InRange(step, lo, hi)
    ensures RaceInv(g0, Apply(st, step), lo, hi)
  {
    var nu := Apply(st, step);
    match step
    case Tick(ms) =>
      WholeMonotone(g0.clock, st.now, nu.now);
      Scale(Whole(g0.clock, st.now), Whole(g0.clock, nu.now), hi);
    case Write(p, rate) =>
      var h := st.polls[p];
      assert PollOk(g0, h, st.now, lo, hi);
      AdvanceStays(g0, h.seen, lo, hi, rate, h.t, st.now);
      CountBound(g0, Advance(h.seen, rate, h.t), st.now, lo, hi);
      hide Paid, Advance, Whole;
    case Paused(place) =>
      CountBound(g0, st.gate, st.now, lo, hi);
    case _ =>
  }

  lemma {:induction false} RaceRun(g0: Gate, st: Race, steps: seq<Step>, lo: nat, hi: nat)
    requires RaceInv(g0, st, lo, hi) && Runs(st, steps, lo, hi)
    ensures RaceInv(g0, Exec(st, steps, lo, hi), lo, hi)
    decreases |steps|
  {
    hide RaceInv, Apply, Enabled;
    if steps != [] {
      RaceStep(g0, st, steps[0], lo, hi);
      RaceRun(g0, Apply(st, steps[0]), steps[1..], lo, hi);
    }
  }

  lemma {:induction false} UpTo(s: set<nat>, n: nat)
    requires forall x :: x in s ==> 1 <= x <= n
    ensures |s| <= n
    decreases n
  {
    if n == 0 {
      assert s == {};
    } else {
      UpTo(s - {n}, n - 1);
      assert s - {n} == s || s == (s - {n}) + {n};
    }
  }

  /** Whatever the interleaving of reads and writes, the count never exceeds what `hi` places a second allow
      up to the clock, the clock never passes the time, and that bounds the tickets that get a permit. */
  lemma AdmissionBound(st: Race, steps: seq<Step>, hi: nat)
    requires Ready(st) && Runs(st, steps, 0, hi)
    ensures var end := Exec(st, steps, 0, hi);
      && st.gate.clock <= end.gate.clock <= end.now
      && end.gate.done <= st.gate.done + hi * Whole(st.gate.clock, end.gate.clock)
      && |end.admitted| <= st.gate.done + hi * Whole(st.gate.clock, end.now) + 1
  {
    var end := Exec(st, steps, 0, hi);
    RaceRun(st.gate, st, steps, 0, hi);
    CountBound(st.gate, end.gate, end.gate.clock, 0, hi);
    UpTo(end.admitted, st.gate.done + hi * Whole(st.gate.clock, end.now) + 1);
  }

  /** A race cannot delay a ticket either: a poll whose time is late enough for `lo` places a second to
      reach the ticket admits it, whatever the other polls have read and written. */
  lemma RacingWaitBound(st: Race, steps: seq<Step>, lo: nat, hi: nat, p: nat, rate: nat)
    requires Ready(st) && lo >= 1 && Runs(st, steps, lo, hi)
    requires var end := Exec(st, steps, lo, hi);
      Enabled(end, Write(p, rate)) && lo <= rate <= hi
      && end.polls[p].t >= st.gate.clock + 1000 * WaitFor(st.gate, end.polls[p].place, lo)
    ensures var end := Exec(st, steps, lo, hi); end.polls[p].place in Apply(end, Write(p, rate)).admitted
  {
    var end := Exec(st, steps, lo, hi);
    RaceRun(st.gate, st, steps, lo, hi);
    var h := end.polls[p];
    assert PollOk(st.gate, h, end.now, lo, hi);
    var nu := Advance(h.seen, rate, h.t);
    PaidAdvance(st.gate, h.seen, lo, hi, rate, h.t);
    assert Ticks(st.gate, nu) >= Whole(st.gate.clock, h.t) >= WaitFor(st.gate, h.place, lo);
    WaitSuffices(st.gate, h.place, lo, Ticks(st.gate, nu));
  }

  /** At a constant rate the stored pair is exact at every moment of every race. */
  lemma ConstantRateExact(st: Race, steps: seq<Step>, rate: nat)
    requires Ready(st) && Runs(st, steps, rate, rate)
    ensures var end := Exec(st, steps, rate, rate);
      end.gate.done == st.gate.done + rate * Whole(st.gate.clock, end.gate.clock)
  {
    RaceRun(st.gate, st, steps, rate, rate);
  }

  /** Whether a write puts the stored count back, at a constant rate: exactly when it pays at all and its time is
      in an earlier second, counted from the start, than the clock that is stored by then. */
  lemma StepsBackIff(st: Race, steps: seq<Step>, rate: nat, p: nat)
    requires Ready(st) && Runs(st, steps, rate, rate) && rate >= 1
    requires Enabled(Exec(st, steps, rate, rate), Write(p, rate))
    ensures var mid := Exec(st, steps, rate, rate);
      var h := mid.polls[p];
      Apply(mid, Write(p, rate)).gate.done < mid.gate.done <==>
        Whole(h.seen.clock, h.t) >= 1 && Whole(st.gate.clock, h.t) < Whole(st.gate.clock, mid.gate.clock)
  {
    var mid := Exec(st, steps, rate, rate);
    RaceRun(st.gate, st, steps, rate, rate);
    var h := mid.polls[p];
    assert PollOk(st.gate, h, mid.now, rate, rate);
    PaidAdvance(st.gate, h.seen, rate, rate, rate, h.t);
    var k := Whole(h.seen.clock, h.t);
    if k >= 1 {
      Scale(1, rate, k);
      LaterPays(st.gate, h.seen, h.t);
      Compare(rate, Whole(st.gate.clock, h.t), Ticks(st.gate, mid.gate));
    }
  }

  /** A poll that pays brings the clock to its own second. */
  lemma LaterPays(g0: Gate, seen: Gate, t: int)
    requires g0.clock > 0 && g0.clock <= seen.clock && (seen.clock - g0.clock) % 1000 == 0 && Whole(seen.clock, t) >= 1
    ensures Ticks(g0, seen) < Whole(g0.clock, t)
  {
  }

  lemma Compare(rate: nat, a: nat, b: nat)
    requires rate >= 1
    ensures rate * a < rate * b <==> a < b
  {
    if a < b { Scale(a + 1, b, rate); Distribute(rate, a, 1); } else { Scale(b, a, rate); }
  }

  // ---- gates that were never initialised -------------------------------------------------------

  /** The gate has no clock yet, and no poll has begun. */
  predicate Unset(st: Race) {
    st.gate.clock <= 0 < st.now && st.polls == map[] && st.admitted == {}
  }

  /** A poll that saw no clock writes one although there is one by now. */
  predicate Stall(st: Race, step: Step) {
    && step.Write? && step.p in st.polls && st.polls[step.p].Holding? && st.polls[step.p].seen.clock <= 0
    && st.gate.clock > 0
  }

  function Stalls(st: Race, steps: seq<Step>, hi: nat): nat
    requires Runs(st, steps, 0, hi)
    decreases |steps|
  {
    if steps == [] then 0
    else (if Stall(st, steps[0]) then 1 else 0) + Stalls(Apply(st, steps[0]), steps[1..], hi)
  }

  /** What may have been paid, in thousandths: up to the clock, and once more the whole time for every stall. */
  function Budget(hi: nat, start: int, clock: int, now: int, j: nat): int {
    hi * ((clock - start) + j * (now - start))
  }

  lemma BudgetGrows(hi: nat, start: int, clock: int, now: int, later: int, j: nat)
    requires start <= now <= later
    ensures Budget(hi, start, clock, now, j) <= Budget(hi, start, clock, later, j)
  {
    Scale(now - start, later - start, j);
    ScaleInt((clock - start) + j * (now - start), (clock - start) + j * (later - start), hi);
  }

  lemma BudgetRewinds(hi: nat, start: int, clock: int, t: int, now: int, j: nat)
    requires clock <= now && start <= t
    ensures Budget(hi, start, clock, now, j) <= Budget(hi, start, t, now, j + 1)
  {
    assert (j + 1) * (now - start) == j * (now - start) + (now - start);
    ScaleInt((clock - start) + j * (now - start), (t - start) + (j + 1) * (now - start), hi);
  }

  lemma BudgetPays(hi: nat, start: int, clock: int, now: int, j: nat, k: nat)
    ensures Budget(hi, start, clock + 1000 * k, now, j) == Budget(hi, start, clock, now, j) + hi * (1000 * k)
  {
    DistributeInt(hi, (clock - start) + j * (now - start), 1000 * k);
  }

  lemma ScaleInt(a: int, b: int, n: nat)
    requires a <= b
    ensures n * a <= n * b
  {
  }

  lemma DistributeInt(r: int, a: int, b: int)
    ensures r * (a + b) == r * a + r * b
  {
  }

  ghost predicate PairOk(g: Gate, d0: nat, start: int, now: int, hi: nat, j: nat) {
    if g.clock <= 0 then g.done == d0
    else start <= g.clock <= now && 1000 * (g.done - d0) <= Budget(hi, start, g.clock, now, j)
  }

  ghost predicate UnsetInv(st: Race, d0: nat, start: int, hi: nat, j: nat) {
    && 0 < start <= st.now && PairOk(st.gate, d0, start, st.now, hi, j)
    && (forall p :: p in st.polls ==> st.polls[p].place >= 1 && start <= st.polls[p].t <= st.now)
    && (forall p :: p in st.polls && st.polls[p].Holding? ==> PairOk(st.polls[p].seen, d0, start, st.now, hi, j))
    && (forall s :: s in st.admitted ==> 1 <= s && 1000 * (s - 1 - d0) <= Budget(hi, start, st.now, st.now, j))
  }

  /** More time and more stalls only allow more. */
  lemma PairLater(g: Gate, d0: nat, start: int, now: int, later: int, hi: nat, j: nat, k: nat)
    requires start <= now <= later && j <= k && PairOk(g, d0, start, now, hi, j)
    ensures PairOk(g, d0, start, later, hi, k)
  {
    if g.clock > 0 {
      BudgetGrows(hi, start, g.clock, now, later, j);
      Scale(j, k, later - start);
      ScaleInt((g.clock - start) + j * (later - start), (g.clock - start) + k * (later - start), hi);
    }
  }

  lemma FullBudget(hi: nat, start: int, now: int, later: int, clock: int, j: nat, k: nat)
    requires start <= clock <= now <= later && j <= k
    ensures Budget(hi, start, clock, now, j) <= Budget(hi, start, later, later, k)
  {
    BudgetGrows(hi, start, clock, now, later, j);
    Scale(j, k, later - start);
    ScaleInt((clock - start) + j * (later - start), (later - start) + k * (later - start), hi);
  }

  lemma PairPays(g: Gate, d0: nat, start: int, now: int, hi: nat, j: nat, rate: nat, t: int)
    requires 0 < start <= t <= now && rate <= hi && PairOk(g, d0, start, now, hi, j)
    ensures g.clock > 0 ==> PairOk(Advance(g, rate, t), d0, start, now, hi, j)
    ensures 1000 * (Advance(g, rate, t).done - d0) <= Budget(hi, start, now, now, j)
  {
    var k := Whole(g.clock, t);
    if g.clock > 0 {
      BudgetPays(hi, start, g.clock, now, j, k);
      Scale(rate, hi, 1000 * k);
      assert 1000 * (k * rate) == rate * (1000 * k);
      FullBudget(hi, start, now, now, Advance(g, rate, t).clock, j, j);
    } else {
      FullBudget(hi, start, now, now, start, 0, j);
    }
  }

  lemma UnsetStep(st: Race, step: Step, d0: nat, start: int, hi: nat, j: nat)
    requires UnsetInv(st, d0, start, hi, j) && Enabled(st, step) && InRange(step, 0, hi)
    ensures UnsetInv(Apply(st, step), d0, start, hi, j + if Stall(st, step) then 1 else 0)
  {
    match step
    case Tick(ms) => UnsetTick(st, ms, d0, start, hi, j);
    case Write(p, rate) => UnsetWrite(st, p, rate, d0, start, hi, j);
    case Paused(place) =>
      if st.gate.clock > 0 { FullBudget(hi, start, st.now, st.now, st.gate.clock, j, j); }
      else { FullBudget(hi, start, st.now, st.now, start, 0, j); }
      hide PairOk;
      assert 1000 * (st.gate.done - d0) <= Budget(hi, start, st.now, st.now, j) by {
        PairPays(st.gate, d0, start, st.now, hi, j, 0, st.now);
      }
    case _ => hide PairOk;
  }

  lemma UnsetTick(st: Race, ms: nat, d0: nat, start: int, hi: nat, j: nat)
    requires UnsetInv(st, d0, start, hi, j)
    ensures UnsetInv(Apply(st, Tick(ms)), d0, start, hi, j)
  {
    var later := st.now + ms;
    PairLater(st.gate, d0, start, st.now, later, hi, j, j);
    forall p | p in st.polls && st.polls[p].Holding? ensures PairOk(st.polls[p].seen, d0, start, later, hi, j) {
      PairLater(st.polls[p].seen, d0, start, st.now, later, hi, j, j);
    }
    FullBudget(hi, start, st.now, later, st.now, j, j);
    hide PairOk, Budget;
  }

  lemma UnsetWrite(st: Race, p: nat, rate: nat, d0: nat, start: int, hi: nat, j: nat)
    requires UnsetInv(st, d0, start, hi, j) && Enabled(st, Write(p, rate)) && rate <= hi
    ensures UnsetInv(Apply(st, Write(p, rate)), d0, start, hi, j + if Stall(st, Write(p, rate)) then 1 else 0)
  {
    var h, nu := st.polls[p], Apply(st, Write(p, rate));
    var k := j + if Stall(st, Write(p, rate)) then 1 else 0;
    PairPays(h.seen, d0, start, st.now, hi, j, rate, h.t);
    forall q | q in nu.polls && nu.polls[q].Holding? ensures PairOk(nu.polls[q].seen, d0, start, st.now, hi, k) {
      PairLater(st.polls[q].seen, d0, start, st.now, st.now, hi, j, k);
    }
    FullBudget(hi, start, st.now, st.now, st.now, j, k);
    StoredOk(st.gate, h.seen, d0, start, st.now, hi, j, rate, h.t);
    hide PairOk, Budget, Advance, Stored;
  }

  /** What the write stores. */
  lemma StoredOk(gate: Gate, seen: Gate, d0: nat, start: int, now: int, hi: nat, j: nat, rate: nat, t: int)
    requires 0 < start <= t <= now && rate <= hi && PairOk(gate, d0, start, now, hi, j)
      && PairOk(seen, d0, start, now, hi, j)
    ensures PairOk(Stored(gate, seen, rate, t), d0, start, now, hi, j + if seen.clock <= 0
      && gate.clock > 0 then 1 else 0)
  {
    PairPays(seen, d0, start, now, hi, j, rate, t);
    if seen.clock <= 0 {
      if gate.clock > 0 {
        BudgetRewinds(hi, start, gate.clock, t, now, j);
      } else {
        BudgetRewinds(hi, start, start, t, now, 0);
        Scale(0, j, now - start);
        ScaleInt(0, (t - start) + j * (now - start), hi);
      }
    }
  }

  lemma {:induction false} UnsetRun(st: Race, steps: seq<Step>, d0: nat, start: int, hi: nat, j: nat)
    requires UnsetInv(st, d0, start, hi, j) && Runs(st, steps, 0, hi)
    ensures UnsetInv(Exec(st, steps, 0, hi), d0, start, hi, j + Stalls(st, steps, hi))
    decreases |steps|
  {
    hide UnsetInv, Apply, Enabled, Stall;
    if steps != [] {
      var k := j + if Stall(st, steps[0]) then 1 else 0;
      UnsetStep(st, steps[0], d0, start, hi, j);
      UnsetRun(Apply(st, steps[0]), steps[1..], d0, start, hi, k);
    }
  }

  /** From a gate that was never initialised: once it has a clock, that clock never lies before the race began,
      and each stall can at most have the time since then paid once more. Without a stall the rate holds. */
  lemma UninitialisedBound(st: Race, steps: seq<Step>, hi: nat)
    requires Unset(st) && Runs(st, steps, 0, hi)
    ensures var end, j := Exec(st, steps, 0, hi), Stalls(st, steps, hi);
      && (end.gate.clock > 0 ==> st.now <= end.gate.clock <= end.now)
      && (end.gate.clock > 0 ==>
            1000 * (end.gate.done - st.gate.done) <= hi * ((end.gate.clock - st.now) + j * (end.now - st.now)))
      && |end.admitted| <= st.gate.done + hi * ((1 + j) * (end.now - st.now)) / 1000 + 1
  {
    var end, j := Exec(st, steps, 0, hi), Stalls(st, steps, hi);
    UnsetRun(st, steps, st.gate.done, st.now, hi, 0);
    var full := hi * ((1 + j) * (end.now - st.now));
    assert (1 + j) * (end.now - st.now) == (end.now - st.now) + j * (end.now - st.now);
    Nonneg(hi, (1 + j) * (end.now - st.now));
    forall s | s in end.admitted ensures 1 <= s <= st.gate.done + full / 1000 + 1 {}
    UpTo(end.admitted, st.gate.done + full / 1000 + 1);
  }

  lemma Nonneg(a: nat, b: int)
    ensures b >= 0 ==> a * b >= 0
  {
  }

  // ---- what races do break ---------------------------------------------------------------------

  /** Some run at one place a second leads from `a` to `b`. */
  ghost predicate Reaches(a: Race, b: Race) {
    exists steps :: Runs(a, steps, 1, 1) && Exec(a, steps, 1, 1) == b
  }

  lemma Here(a: Race)
    ensures Reaches(a, a)
  {
    assert Runs(a, [], 1, 1) && Exec(a, [], 1, 1) == a;
  }

  lemma First(a: Race, step: Step, mid: Race, b: Race)
    requires Enabled(a, step) && InRange(step, 1, 1) && Apply(a, step) == mid && Reaches(mid, b)
    ensures Reaches(a, b)
  {
    var rest :| Runs(mid, rest, 1, 1) && Exec(mid, rest, 1, 1) == b;
    var steps := [step] + rest;
    assert steps[0] == step && steps[1..] == rest;
    assert Runs(a, steps, 1, 1) && Exec(a, steps, 1, 1) == b;
  }

  /** A whole poll by itself, of a ticket that is still far back. */
  lemma FirstPoll(a: Race, p: nat, mid: Race, b: Race)
    requires p !in a.polls && Reaches(mid, b)
    requires mid == a.(gate := Stored(a.gate, a.gate, 1, a.now)) && Advance(a.gate, 1, a.now).done < 90
    ensures Reaches(a, b)
  {
    var a1 := Apply(a, Start(p, 99));
    var a2 := Apply(a1, Read(p));
    assert a2.polls - {p} == a.polls;
    First(a2, Write(p, 1), mid, b);
    First(a1, Read(p), a2, b);
    First(a, Start(p, 99), a1, b);
  }

  /** A late write puts the stored count back: the count alone is not monotone. */
  lemma CountCanStepBack()
    ensures exists st: Race, mid: Race, end: Race ::
      Ready(st) && Reaches(st, mid) && Reaches(mid, end) && end.gate.done < mid.gate.done
  {
    var st := Race(2000, Gate(0, 1000), map[], {});
    var s1 := Apply(st, Start(1, 99));
    var s2 := Apply(s1, Read(1));
    var s3 := Apply(s2, Tick(5000));
    var mid := s3.(gate := Gate(6, 7000));
    Here(mid);
    FirstPoll(s3, 2, mid, mid);
    First(s2, Tick(5000), s3, mid);
    First(s1, Read(1), s2, mid);
    First(st, Start(1, 99), s1, mid);
    var end := Apply(mid, Write(1, 1));
    Here(end);
    First(mid, Write(1, 1), end, end);
    assert end.gate == Gate(1, 2000);
  }

  /** On a gate that was never initialised, a stalled initialiser rewinds the clock without the count, and
      the same ten seconds are paid twice. */
  lemma StalledInitialiser()
    ensures exists st: Race, end: Race :: st.gate == Gate(0, 0) && st.now == 1000 && st.polls == map[]
                                          && Reaches(st, end) && end.now == 11000 && end.gate.done == 20
  {
    var st := Race(1000, Gate(0, 0), map[], {});
    var s1 := Apply(st, Start(1, 99));
    var s2 := Apply(s1, Read(1));
    var s3 := s2.(gate := Gate(0, 1000));
    var s4 := s3.(now := 11000);
    var s5 := s4.(gate := Gate(10, 11000));
    var s6 := Apply(s5, Write(1, 1));
    assert s6.gate == Gate(10, 1000);
    var end := s6.(gate := Gate(20, 11000));
    Here(end);
    FirstPoll(s6, 3, end, end);
    First(s5, Write(1, 1), s6, end);
    FirstPoll(s4, 2, s5, end);
    First(s3, Tick(10000), s4, end);
    FirstPoll(s2, 2, s3, end);
    First(s1, Read(1), s2, end);
    First(st, Start(1, 99), s1, end);
  }
}
