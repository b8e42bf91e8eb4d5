/** The concert booking protocol of one show, as a step system over Redis, the queue and MySQL.

    Each step is one atomic action of the write-api commit, the worker or the refund. Requests, deliveries
    and refunds interleave freely; a process that dies between two steps is one that takes no further step,
    and a worker that dies also puts its message back on the queue (`Crash`). */
module BookingProtocol {
  import opened SeatStore

  /** The show's grid and seat count, and WORKER_DB_DEADLOCK_RETRIES. */
  datatype Config = Config(rows: nat, cols: nat, total: nat, retries: nat)

  /** The table's CHECK on the seat count, and the floor the worker puts under its retries. */
  predicate Sound(cfg: Config) {
    cfg.total == cfg.rows * cfg.cols && cfg.retries >= 1
  }

  datatype Code = InvalidSeat | DbError | SeatMismatch | DuplicateSeat
  datatype Outcome = Okay | Failure(code: Code)
  datatype Status = Paid | Cancelled

  /** Where the request with a given reference stands. Up to `Indexed` the write-api is at work. */
  datatype Pc =
    | Debited                                   // the counter was debited
    | Checked                                   // no requested seat was confirmed
    | Won                                       // every NX key was won
    | Conflict(held: seq<Seat>)                 // a key was taken; `held` was won before it
    | SendFailed                                // the queue refused the message
    | Dropping(mine: set<Seat>, repay: bool)    // release_seats has read its keys
    | Crediting(k: nat, repay: bool)            // release_seats has deleted k keys
    | Repaying                                  // the request's own credit is due
    | Rejected
    | Indexed                                   // hold set and metadata are written
    | Queued                                    // the message is visible
    | Taken(attempt: nat)                       // a worker runs this attempt
    | Storing(outcome: Outcome)                 // the transaction ended; the poll result is due
    | Finalising(ok: bool)
    | Writing(mine: set<Seat>, ok: bool)        // the hold's keys were read
    | Restoring(k: nat)                         // k keys were deleted; their credit is due
    | Returning                                 // the handler returns; the ACK is due
    | Acked
    | Unreturned                                // the except branches that do not return

  /** `writes` counts the transactions that wrote rows for this reference. */
  datatype Flow = Flow(seats: seq<Seat>, pc: Pc, writes: nat)

  /** A refund between its database commit and its Redis fix-up: the seats and the counter value to write. */
  datatype Refund = Refund(seats: set<Seat>, left: nat)

  /** `active` is the unique index of ACTIVE seat rows, each with its booking's reference; `book` is the
      unique index on sqs_booking_ref. `pend` and `counts` are what refunds still have to do in Redis: clear
      the seat keys, then overwrite the counter. `drift` and `lost` are history only. */
  datatype State = State(
    cfg: Config,
    rd: Redis,
    active: map<Seat, Ref>,
    book: map<Ref, Status>,
    result: map<Ref, Outcome>,
    queued: set<Ref>,
    marking: set<Ref>,
    flows: seq<Flow>,
    pend: map<Ref, Refund>,
    counts: map<Ref, nat>,
    drift: int,
    lost: nat)

  datatype Fault = NoFault | Deadlock | Operational

  datatype Step =
    | Submit(seats: seq<Seat>)
    | CheckConfirmed(r: Ref) | HoldNx(r: Ref) | IndexHold(r: Ref)
    | Enqueue(r: Ref) | EnqueueFail(r: Ref) | MarkQueued(r: Ref, stored: bool)
    | ReleaseRead(r: Ref) | ReleaseDrop(r: Ref) | ReleaseCredit(r: Ref) | Repay(r: Ref)
    | Deliver(r: Ref) | Transact(r: Ref, fault: Fault) | Store(r: Ref)
    | FinaliseRead(r: Ref) | FinaliseWrite(r: Ref) | FinaliseCredit(r: Ref)
    | Ack(r: Ref) | Crash(r: Ref)
    | RefundCancel(r: Ref) | RefundKeys(r: Ref) | RefundCount(r: Ref)

  predicate InGrid(cfg: Config, seats: seq<Seat>) {
    forall s :: s in seats ==> s.row <= cfg.rows && s.col <= cfg.cols
  }

  function ActiveOf(active: map<Seat, Ref>, r: Ref): set<Seat> {
    set s | s in active && active[s] == r
  }

  function SetPc(st: State, r: Ref, pc: Pc): State
    requires r < |st.flows|
  {
    st.(flows := st.flows[r := st.flows[r].(pc := pc)])
  }

  predicate At(st: State, r: Ref) {
    r < |st.flows|
  }

  // ---- write-api -------------------------------------------------------------------------------

  /** A new request debits the counter if it covers the request, and is rejected otherwise. */
  function DoSubmit(st: State, seats: seq<Seat>): State {
    if st.rd.remain < |seats| then
      st.(flows := st.flows + [Flow(seats, Rejected, 0)])
    else
      st.(flows := st.flows + [Flow(seats, Debited, 0)], rd := st.rd.(remain := st.rd.remain - |seats|))
  }

  predicate AnyConfirmed(keys: map<Seat, Owner>, seats: seq<Seat>) {
    exists s :: s in seats && s in keys && keys[s] == Confirmed
  }

  function DoCheckConfirmed(st: State, r: Ref): State
    requires At(st, r)
  {
    SetPc(st, r, if AnyConfirmed(st.rd.keys, st.flows[r].seats) then Repaying else Checked)
  }

  /** All keys won, or the request is in conflict. The drift records the free seats of a failed request. */
  function DoHoldNx(st: State, r: Ref): State
    requires At(st, r)
  {
    var seats := st.flows[r].seats;
    var p := FreePrefix(st.rd.keys, seats);
    var st1 := st.(rd := SetNx(st.rd, seats, r));
    if p == |seats| then SetPc(st1, r, Won)
    else SetPc(st1.(drift := st.drift + |Free(st.rd.keys, seats)|), r, Conflict(seats[..p]))
  }

  function DoIndexHold(st: State, r: Ref): State
    requires At(st, r)
  {
    SetPc(st.(rd := Index(st.rd, st.flows[r].seats, r)), r, Indexed)
  }

  /** release_seats reads the keys it is about to delete; with nothing held it returns at once. */
  function DoReleaseRead(st: State, r: Ref): State
    requires At(st, r)
  {
    var f := st.flows[r];
    if f.pc.Conflict? then
      SetPc(st, r, if f.pc.held == [] then Repaying else Dropping(Mine(st.rd.keys, f.pc.held, r), true))
    else
      SetPc(st, r, Dropping(Mine(st.rd.keys, f.seats, r), false))
  }

  function DoReleaseDrop(st: State, r: Ref): State
    requires At(st, r) && st.flows[r].pc.Dropping?
  {
    var pc := st.flows[r].pc;
    SetPc(st.(rd := Drop(st.rd, pc.mine)), r, Crediting(|pc.mine|, pc.repay))
  }

  function DoReleaseCredit(st: State, r: Ref): State
    requires At(st, r) && st.flows[r].pc.Crediting?
  {
    var pc := st.flows[r].pc;
    SetPc(st.(rd := Credit(st.rd, pc.k)), r, if pc.repay then Repaying else Rejected)
  }

  function DoRepay(st: State, r: Ref): State
    requires At(st, r)
  {
    SetPc(st.(rd := Credit(st.rd, |st.flows[r].seats|)), r, Rejected)
  }

  // ---- worker ----------------------------------------------------------------------------------

  function DoDeliver(st: State, r: Ref): State
    requires At(st, r)
  {
    SetPc(st, r, if r in st.result then Acked else Taken(1))
  }

  /** The ACTIVE index once `r` has the seats. */
  function Sell(active: map<Seat, Ref>, seats: set<Seat>, r: Ref): map<Seat, Ref> {
    active + map s | s in seats :: r
  }

  /** The rows one successful transaction writes. */
  function Commit(st: State, r: Ref): State
    requires At(st, r)
  {
    var f := st.flows[r];
    st.(book := st.book[r := Paid],
        active := Sell(st.active, Elems(f.seats), r),
        flows := st.flows[r := Flow(f.seats, Storing(Okay), f.writes + 1)])
  }

  /** The attempt writes its rows and commits. */
  predicate Writes(st: State, r: Ref, fault: Fault)
    requires At(st, r) && st.flows[r].pc.Taken?
  {
    && fault == NoFault && r !in st.book && InGrid(st.cfg, st.flows[r].seats)
    && forall s :: s in st.flows[r].seats ==> s !in st.active
  }

  /** Where an attempt that writes nothing leaves the delivery. A redelivery whose seats were all
      cancelled meets the unique payment row; a seat that is ACTIVE meets the unique seat row. */
  function Outcomes(st: State, r: Ref, fault: Fault): (pc: Pc)
    requires At(st, r) && st.flows[r].pc.Taken?
    ensures pc.Taken? || pc.Storing? || pc.Unreturned?
  {
    var f := st.flows[r];
    match fault
    case Deadlock => if f.pc.attempt < st.cfg.retries then Taken(f.pc.attempt + 1) else Storing(Failure(DbError))
    case Operational => Storing(Failure(DbError))
    case NoFault =>
      if !InGrid(st.cfg, f.seats) then Storing(Failure(InvalidSeat))
      else if r in st.book then
        var have := ActiveOf(st.active, r);
        if have == Elems(f.seats) then Storing(Okay)
        else if have != {} then Storing(Failure(SeatMismatch))
        else Unreturned
      else Unreturned
  }

  /** One attempt of the worker's transaction. */
  function DoTransact(st: State, r: Ref, fault: Fault): State
    requires At(st, r) && st.flows[r].pc.Taken?
  {
    if Writes(st, r, fault) then Commit(st, r) else SetPc(st, r, Outcomes(st, r, fault))
  }

  /** store_failure_result keeps an OK that is already there; INVALID_SEAT is stored without that check. */
  predicate KeepsOkay(result: map<Ref, Outcome>, r: Ref, o: Outcome) {
    o.Failure? && o.code != InvalidSeat && r in result && result[r] == Okay
  }

  function DoStore(st: State, r: Ref): State
    requires At(st, r) && st.flows[r].pc.Storing?
  {
    var o := st.flows[r].pc.outcome;
    if KeepsOkay(st.result, r, o) then SetPc(st, r, Finalising(false))
    else SetPc(st.(result := st.result[r := o], queued := st.queued - {r}), r, Finalising(o.Okay?))
  }

  function DoFinaliseRead(st: State, r: Ref): State
    requires At(st, r) && st.flows[r].pc.Finalising?
  {
    if r !in st.rd.meta then SetPc(st, r, Returning)
    else SetPc(st, r, Writing(Mine(st.rd.keys, st.rd.meta[r], r), st.flows[r].pc.ok))
  }

  function DoFinaliseWrite(st: State, r: Ref): State
    requires At(st, r) && st.flows[r].pc.Writing?
  {
    var pc := st.flows[r].pc;
    SetPc(st.(rd := Finish(st.rd, r, pc.mine, pc.ok)), r, if pc.ok then Returning else Restoring(|pc.mine|))
  }

  function DoFinaliseCredit(st: State, r: Ref): State
    requires At(st, r) && st.flows[r].pc.Restoring?
  {
    SetPc(st.(rd := Credit(st.rd, st.flows[r].pc.k)), r, Returning)
  }

  predicate Working(pc: Pc) {
    pc.Taken? || pc.Storing? || pc.Finalising? || pc.Writing? || pc.Restoring? || pc.Returning? || pc.Unreturned?
  }

  /** The worker dies: its open transaction is rolled back and the message becomes visible again. */
  function DoCrash(st: State, r: Ref): State
    requires At(st, r)
  {
    var pc := st.flows[r].pc;
    SetPc(st.(lost := st.lost + if pc.Restoring? then pc.k else 0), r, Queued)
  }

  // ---- refund ----------------------------------------------------------------------------------

  /** GREATEST(0, total - n). */
  function Left(cfg: Config, n: nat): nat {
    if n <= cfg.total then cfg.total - n else 0
  }

  /** The refund's transaction: cancel the rows and recompute the remaining count. */
  function DoRefundCancel(st: State, r: Ref): State {
    var seats := ActiveOf(st.active, r);
    var active := st.active - seats;
    st.(book := st.book[r := Cancelled], active := active,
        pend := st.pend[r := Refund(seats, Left(st.cfg, |active|))])
  }

  /** The refund's pipeline: seat keys and hold set are cleared, whatever the keys hold. */
  function DoRefundKeys(st: State, r: Ref): State
    requires r in st.pend
  {
    var rd := Drop(st.rd, st.pend[r].seats);
    st.(rd := rd, pend := st.pend - {r}, counts := st.counts[r := st.pend[r].left],
        drift := st.drift + Occupied(rd) - Occupied(st.rd))
  }

  /** The refund's SET of the counter, to the value its transaction had computed. */
  function DoRefundCount(st: State, r: Ref): State
    requires r in st.counts
  {
    st.(rd := st.rd.(remain := st.counts[r]), counts := st.counts - {r},
        drift := st.drift + st.counts[r] - st.rd.remain)
  }

  /** The whole fix-up, when nobody interleaves. */
  function DoRefundFixUp(st: State, r: Ref): State
    requires r in st.pend
  {
    DoRefundCount(DoRefundKeys(st, r), r)
  }

  /** The write-api step moves one existing request. */
  predicate ApiStep(step: Step) {
    step.CheckConfirmed? || step.HoldNx? || step.IndexHold? || step.Enqueue? || step.EnqueueFail?
    || step.ReleaseRead? || step.ReleaseDrop? || step.ReleaseCredit? || step.Repay?
  }

  predicate WorkerStep(step: Step) {
    step.Deliver? || step.Transact? || step.Store? || step.FinaliseRead? || step.FinaliseWrite?
    || step.FinaliseCredit? || step.Ack? || step.Crash?
  }

  // ---- the step relation -----------------------------------------------------------------------

  predicate Enabled(st: State, step: Step) {
    match step
    case Submit(seats) => seats != [] && (forall i, j :: 0 <= i < j < |seats| ==> seats[i] != seats[j])
    case CheckConfirmed(r) => At(st, r) && st.flows[r].pc.Debited?
    case HoldNx(r) => At(st, r) && st.flows[r].pc.Checked?
    case IndexHold(r) => At(st, r) && st.flows[r].pc.Won?
    case Enqueue(r) => At(st, r) && st.flows[r].pc.Indexed?
    case EnqueueFail(r) => At(st, r) && st.flows[r].pc.Indexed?
    case MarkQueued(r, _) => r in st.marking
    case ReleaseRead(r) => At(st, r) && (st.flows[r].pc.Conflict? || st.flows[r].pc.SendFailed?)
    case ReleaseDrop(r) => At(st, r) && st.flows[r].pc.Dropping?
    case ReleaseCredit(r) => At(st, r) && st.flows[r].pc.Crediting?
    case Repay(r) => At(st, r) && st.flows[r].pc.Repaying?
    case Deliver(r) => At(st, r) && st.flows[r].pc.Queued?
    case Transact(r, _) => At(st, r) && st.flows[r].pc.Taken?
    case Store(r) => At(st, r) && st.flows[r].pc.Storing?
    case FinaliseRead(r) => At(st, r) && st.flows[r].pc.Finalising?
    case FinaliseWrite(r) => At(st, r) && st.flows[r].pc.Writing?
    case FinaliseCredit(r) => At(st, r) && st.flows[r].pc.Restoring?
    case Ack(r) => At(st, r) && st.flows[r].pc.Returning?
    case Crash(r) => At(st, r) && Working(st.flows[r].pc)
    case RefundCancel(r) => At(st, r) && r in st.book && st.book[r] == Paid
    case RefundKeys(r) => r in st.pend
    case RefundCount(r) => r in st.counts
  }

  function Apply(st: State, step: Step): State
    requires Enabled(st, step)
  {
    match step
    case Submit(seats) => DoSubmit(st, seats)
    case CheckConfirmed(r) => DoCheckConfirmed(st, r)
    case HoldNx(r) => DoHoldNx(st, r)
    case IndexHold(r) => DoIndexHold(st, r)
    case Enqueue(r) => SetPc(st.(marking := st.marking + {r}), r, Queued)
    case EnqueueFail(r) => SetPc(st, r, SendFailed)
    case MarkQueued(r, stored) =>
      st.(marking := st.marking - {r}, queued := if stored then st.queued + {r} else st.queued)
    case ReleaseRead(r) => DoReleaseRead(st, r)
    case ReleaseDrop(r) => DoReleaseDrop(st, r)
    case ReleaseCredit(r) => DoReleaseCredit(st, r)
    case Repay(r) => DoRepay(st, r)
    case Deliver(r) => DoDeliver(st, r)
    case Transact(r, fault) => DoTransact(st, r, fault)
    case Store(r) => DoStore(st, r)
    case FinaliseRead(r) => DoFinaliseRead(st, r)
    case FinaliseWrite(r) => DoFinaliseWrite(st, r)
    case FinaliseCredit(r) => DoFinaliseCredit(st, r)
    case Ack(r) => SetPc(st, r, Acked)
    case Crash(r) => DoCrash(st, r)
    case RefundCancel(r) => DoRefundCancel(st, r)
    case RefundKeys(r) => DoRefundKeys(st, r)
    case RefundCount(r) => DoRefundCount(st, r)
  }

  /** The database gives up: an OperationalError that is not a deadlock, or the last deadlock. */
  predicate GivesUp(st: State, r: Ref, fault: Fault)
    requires At(st, r) && st.flows[r].pc.Taken?
  {
    fault == Operational || (fault == Deadlock && st.flows[r].pc.attempt >= st.cfg.retries)
  }

  /** The delivery has read keys of its own that it is about to confirm. */
  predicate Closing(st: State, r: Ref) {
    At(st, r) && st.flows[r].pc.Writing? && st.flows[r].pc.mine != {}
  }

  /** What the environment must respect: the database never gives up on a reference that is already committed,
      a refund starts once the booking's result is recorded, and it does not clear the seat keys between the
      worker's read of them and its closing pipeline. */
  predicate Benign(st: State, step: Step)
    requires Enabled(st, step)
  {
    match step
    case Transact(r, fault) => GivesUp(st, r, fault) ==> r !in st.book
    case RefundCancel(r) => r in st.result
    case RefundKeys(r) => !Closing(st, r)
    case _ => true
  }

  /** A fresh show: every seat is free and the counter equals the seat count. */
  predicate Init(st: State) {
    && Sound(st.cfg)
    && st.rd == Redis(st.cfg.total, map[], {}, map[])
    && st.active == map[] && st.book == map[] && st.result == map[]
    && st.queued == {} && st.marking == {} && st.flows == [] && st.pend == map[] && st.counts == map[]
    && st.drift == 0 && st.lost == 0
  }

  /** Every step of the run is enabled. */
  predicate Goes(st: State, steps: seq<Step>)
    decreases |steps|
  {
    steps == [] || (Enabled(st, steps[0]) && Goes(Apply(st, steps[0]), steps[1..]))
  }

  /** Every step of the run is enabled and within the environment's terms. */
  predicate Runs(st: State, steps: seq<Step>): (b: bool)
    ensures b ==> Goes(st, steps)
    decreases |steps|
  {
    steps == [] || (Enabled(st, steps[0]) && Benign(st, steps[0]) && Runs(Apply(st, steps[0]), steps[1..]))
  }

  function Exec(st: State, steps: seq<Step>): State
    requires Goes(st, steps)
    decreases |steps|
  {
    if steps == [] then st else Exec(Apply(st, steps[0]), steps[1..])
  }

  lemma {:induction false} ExecAppend(st: State, a: seq<Step>, b: seq<Step>)
    requires Runs(st, a) && Runs(Exec(st, a), b)
    ensures Runs(st, a + b) && Exec(st, a + b) == Exec(Exec(st, a), b)
    decreases |a|
  {
    hide Apply, Enabled, Benign;
    if a == [] {
      assert a + b == b;
    } else {
      ExecAppend(Apply(st, a[0]), a[1..], b);
      assert (a + b)[1..] == a[1..] + b;
    }
  }

  // ---- what a step leaves alone ----------------------------------------------------------------

  /** A step of the write-api. */
  ghost predicate ApiFrame(st: State, nu: State) {
    nu == st.(rd := nu.rd, flows := nu.flows, marking := nu.marking, drift := nu.drift)
  }

  /** A step of the worker other than its transaction. */
  ghost predicate WorkerFrame(st: State, nu: State) {
    nu == st.(rd := nu.rd, flows := nu.flows, result := nu.result, queued := nu.queued, lost := nu.lost)
  }

  lemma ApiLeaves(st: State, step: Step)
    requires Enabled(st, step) && ApiStep(step)
    ensures ApiFrame(st, Apply(st, step)) && (!step.HoldNx? ==> Apply(st, step).drift == st.drift)
  {
    hide AnyConfirmed, Mine, Free, FreePrefix, SetNx, Index, Drop, Credit;
    if step.ReleaseRead? || step.ReleaseDrop? || step.ReleaseCredit? || step.Repay? { ReleaseLeaves(st, step); }
  }

  lemma ReleaseLeaves(st: State, step: Step)
    requires Enabled(st, step) && (step.ReleaseRead? || step.ReleaseDrop? || step.ReleaseCredit? || step.Repay?)
    ensures ApiFrame(st, Apply(st, step)) && Apply(st, step).drift == st.drift
  {
    hide Mine, Drop, Credit;
  }

  lemma WorkerLeaves(st: State, step: Step)
    requires Enabled(st, step) && WorkerStep(step) && !step.Transact?
    ensures WorkerFrame(st, Apply(st, step))
  {
    hide Mine, Finish, Credit, KeepsOkay;
  }

  lemma TransactLeaves(st: State, r: Ref, fault: Fault)
    requires At(st, r) && st.flows[r].pc.Taken?
    ensures var nu := DoTransact(st, r, fault);
      && nu == st.(flows := nu.flows, book := nu.book, active := nu.active)
      && (!Writes(st, r, fault) ==> nu.book == st.book && nu.active == st.active)
  {
    hide Outcomes, Writes, Sell;
  }

  // ---- reachability ----------------------------------------------------------------------------

  /** Some run leads from `a` to `b`. */
  ghost predicate Reaches(a: State, b: State) {
    exists steps :: Runs(a, steps) && Exec(a, steps) == b
  }

  lemma ReachSelf(a: State)
    ensures Reaches(a, a)
  {
    assert Runs(a, []) && Exec(a, []) == a;
  }

  lemma ReachNext(a: State, b: State, step: Step)
    requires Reaches(a, b) && Enabled(b, step) && Benign(b, step)
    ensures Reaches(a, Apply(b, step))
  {
    hide Apply, Enabled, Benign;
    var steps :| Runs(a, steps) && Exec(a, steps) == b;
    assert Runs(b, [step]) && Exec(b, [step]) == Apply(b, step) by { assert [step][1..] == []; }
    ExecAppend(a, steps, [step]);
  }

  lemma ReachTrans(a: State, b: State, c: State)
    requires Reaches(a, b) && Reaches(b, c)
    ensures Reaches(a, c)
  {
    var x :| Runs(a, x) && Exec(a, x) == b;
    var y :| Runs(b, y) && Exec(b, y) == c;
    ExecAppend(a, x, y);
  }

  /** Some sequence of enabled steps leads from `a` to `b`, the environment's terms aside. */
  ghost predicate Comes(a: State, b: State) {
    exists steps :: Goes(a, steps) && Exec(a, steps) == b
  }

  lemma ReachComes(a: State, b: State)
    requires Reaches(a, b)
    ensures Comes(a, b)
  {
  }

  lemma ComesNext(a: State, b: State, step: Step)
    requires Comes(a, b) && Enabled(b, step)
    ensures Comes(a, Apply(b, step))
  {
    hide Apply, Enabled;
    var steps :| Goes(a, steps) && Exec(a, steps) == b;
    GoesOn(a, steps, step);
  }

  lemma ComesTrans(a: State, b: State, c: State)
    requires Comes(a, b) && Comes(b, c)
    ensures Comes(a, c)
  {
    var x :| Goes(a, x) && Exec(a, x) == b;
    var y :| Goes(b, y) && Exec(b, y) == c;
    GoesFurther(a, x, y);
  }

  lemma {:induction false} GoesFurther(st: State, a: seq<Step>, b: seq<Step>)
    requires Goes(st, a) && Goes(Exec(st, a), b)
    ensures Goes(st, a + b) && Exec(st, a + b) == Exec(Exec(st, a), b)
    decreases |a|
  {
    hide Apply, Enabled;
    if a == [] {
      assert a + b == b;
    } else {
      GoesFurther(Apply(st, a[0]), a[1..], b);
      assert (a + b)[1..] == a[1..] + b;
    }
  }

  lemma {:induction false} GoesOn(st: State, steps: seq<Step>, step: Step)
    requires Goes(st, steps) && Enabled(Exec(st, steps), step)
    ensures Goes(st, steps + [step]) && Exec(st, steps + [step]) == Apply(Exec(st, steps), step)
    decreases |steps|
  {
    hide Apply, Enabled;
    if steps == [] {
      assert steps + [step] == [step] && [step][1..] == [];
    } else {
      GoesOn(Apply(st, steps[0]), steps[1..], step);
      assert (steps + [step])[1..] == steps[1..] + [step];
    }
  }
}
