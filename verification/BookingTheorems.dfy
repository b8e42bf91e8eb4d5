/** What the booking protocol guarantees over every run: seat exclusivity, exactly-once effect,
    truthful and stable polls, refund accounting, and the return of the worker's loop. */
module BookingTheorems {
  import opened SeatStore
  import opened SeatKeys
  import opened Text
  import opened BookingProtocol
  import opened BookingInvariant
  import opened BookingLedger

  // ---- seat exclusivity ------------------------------------------------------------------------

  /** The message is queued or being worked on, nothing is committed and no result is recorded. */
  predicate InFlight(st: State, r: Ref)
    requires At(st, r)
  {
    (st.flows[r].pc.Queued? || st.flows[r].pc.Taken?) && r !in st.book && r !in st.result
  }

  /** While a request is in flight each of its seat keys is its own and no ACTIVE row exists for the seat. */
  lemma InFlightOwnsSeats(st: State, steps: seq<Step>, r: Ref, s: Seat)
    requires Init(st) && Runs(st, steps)
    requires At(Exec(st, steps), r) && InFlight(Exec(st, steps), r) && s in Exec(st, steps).flows[r].seats
    ensures var end := Exec(st, steps); s in end.rd.keys && end.rd.keys[s] == Held(r) && s !in end.active
  {
    InvInit(st);
    InvRun(st, steps);
    assert FlowOk(Exec(st, steps), r);
    LiveSeatsUnsold(Exec(st, steps), r, s);
  }

  /** Every ACTIVE seat's key is its owner's reference or CONFIRMED, and its owner asked for it. */
  lemma ActiveSeatsKeyed(st: State, steps: seq<Step>, s: Seat)
    requires Init(st) && Runs(st, steps) && s in Exec(st, steps).active
    ensures var end := Exec(st, steps); var r := end.active[s];
      Owns(end.rd.keys, s, r) && At(end, r) && s in end.flows[r].seats && r in end.book && end.book[r] == Paid
  {
    InvInit(st);
    InvRun(st, steps);
    assert ActiveOk(Exec(st, steps), s);
  }

  /** So no delivery ever enters the branches without a return: the seat INSERT never conflicts. */
  lemma InsertNeverConflicts(st: State, steps: seq<Step>, r: Ref)
    requires Init(st) && Runs(st, steps) && At(Exec(st, steps), r)
    ensures var end := Exec(st, steps);
      && !end.flows[r].pc.Unreturned?
      && (end.flows[r].pc.Taken? && r !in end.book && InGrid(end.cfg, end.flows[r].seats) ==>
            DoTransact(end, r, NoFault) == Commit(end, r))
  {
    InvInit(st);
    InvRun(st, steps);
    var end := Exec(st, steps);
    assert FlowOk(end, r);
    if end.flows[r].pc.Taken? && r !in end.book && InGrid(end.cfg, end.flows[r].seats) {
      TransactCases(end, r, NoFault);
    }
  }

  /** The hold set agrees with the seat keys and the metadata at every atomic step. */
  lemma HoldIndexAgrees(st: State, steps: seq<Step>, s: Seat)
    requires Init(st) && Runs(st, steps)
    ensures var rd := Exec(st, steps).rd;
      s in rd.hold <==>
      (s in rd.keys && rd.keys[s].Held? && rd.keys[s].ref in rd.meta && s in rd.meta[rd.keys[s].ref])
  {
    InvInit(st);
    InvRun(st, steps);
    assert s in Exec(st, steps).rd.hold <==> Listed(Exec(st, steps).rd, s);
  }

  // ---- exactly once ----------------------------------------------------------------------------

  /** How many steps of the run commit rows for `r`. */
  function Commits(st: State, steps: seq<Step>, r: Ref): nat
    requires Goes(st, steps)
    decreases |steps|
  {
    if steps == [] then 0
    else (if steps[0].Transact? && steps[0].r == r && Writes(st, r, steps[0].fault) then 1 else 0)
         + Commits(Apply(st, steps[0]), steps[1..], r)
  }

  /** Only the committing transaction books a reference, and nothing takes the booking back. */
  lemma BookStep(st: State, step: Step, r: Ref)
    requires Enabled(st, step)
    ensures r in Apply(st, step).book <==>
      r in st.book || (step.Transact? && step.r == r && Writes(st, r, step.fault))
    ensures step.Transact? && step.r == r && Writes(st, r, step.fault) ==> r !in st.book
  {
    if ApiStep(step) {
      ApiLeaves(st, step);
      hide Apply, Enabled;
    } else if WorkerStep(step) && !step.Transact? {
      WorkerLeaves(st, step);
      hide Apply, Enabled;
    } else if step.Transact? {
      TransactLeaves(st, step.r, step.fault);
      hide Outcomes;
    }
  }

  /** In every run whatsoever, the database giving up and refunds at any moment included, one transaction
      at most writes rows for a reference: exactly one if the reference is booked at the end but not before. */
  lemma {:induction false} AtMostOneCommit(st: State, steps: seq<Step>, r: Ref)
    requires Goes(st, steps)
    ensures Commits(st, steps, r) == (if r in Exec(st, steps).book && r !in st.book then 1 else 0)
    ensures r in st.book ==> r in Exec(st, steps).book
    decreases |steps|
  {
    hide Apply, Enabled, Writes;
    if steps != [] {
      BookStep(st, steps[0], r);
      AtMostOneCommit(Apply(st, steps[0]), steps[1..], r);
    }
  }

  lemma {:induction false} SeatsRun(st: State, steps: seq<Step>, r: Ref)
    requires Goes(st, steps) && At(st, r)
    ensures At(Exec(st, steps), r) && Exec(st, steps).flows[r].seats == st.flows[r].seats
    decreases |steps|
  {
    hide Apply, Enabled;
    if steps != [] {
      StepSeats(st, steps[0]);
      SeatsRun(Apply(st, steps[0]), steps[1..], r);
    }
  }

  /** However often the message is delivered and wherever a worker dies, one transaction at most writes
      rows for a reference, and a paid booking's ACTIVE seats are exactly the seats requested. */
  lemma ExactlyOnce(st: State, steps: seq<Step>, r: Ref)
    requires Inv(st) && Runs(st, steps) && At(st, r) && r !in st.book
    ensures var end := Exec(st, steps);
      && Commits(st, steps, r) <= 1
      && (Commits(st, steps, r) == 1 <==> r in end.book)
      && (r in end.book && end.book[r] == Paid ==> ActiveOf(end.active, r) == Elems(st.flows[r].seats))
      && (r !in end.book || end.book[r] == Cancelled ==> ActiveOf(end.active, r) == {})
  {
    AtMostOneCommit(st, steps, r);
    SeatsRun(st, steps, r);
    InvRun(st, steps);
    var end := Exec(st, steps);
    assert FlowOk(st, r) && FlowOk(end, r);
    if r in end.book && end.book[r] == Paid {
      PaidExactly(end, r);
    } else {
      forall s ensures s !in ActiveOf(end.active, r) {
        if s in end.active { assert ActiveOk(end, s); }
      }
    }
  }

  /** From the request's text to the rows: however the request spelled and repeated its seats, the booking's
      ACTIVE seats are those the request names, which are those the worker reads from the message. */
  lemma SoldAsNamed(st: State, steps: seq<Step>, r: Ref, items: seq<string>, s: Seat)
    requires Inv(st) && Runs(st, steps) && At(st, r) && r !in st.book
    requires AllParse(items) && st.flows[r].seats == FirstSeen(items)
    requires r in Exec(st, steps).book && Exec(st, steps).book[r] == Paid
    ensures s in ActiveOf(Exec(st, steps).active, r) <==> Names(items, s)
    ensures s in ActiveOf(Exec(st, steps).active, r) <==> s in ParseAll(PrintAll(FirstSeen(items)))
  {
    hide AllParse, FirstSeen, Names, ParseAll, PrintAll, Inv, Runs, Exec;
    ExactlyOnce(st, steps, r);
    FirstSeenCovers(items);
    MessageRoundTrip(FirstSeen(items));
  }

  /** A redelivery of a committed reference leaves the database as it is and reports success. */
  lemma RedeliveryIsIdle(st: State, r: Ref)
    requires Inv(st) && At(st, r) && st.flows[r].pc.Taken? && r in st.book
    ensures var nu := DoTransact(st, r, NoFault);
      nu.active == st.active && nu.book == st.book && nu.flows[r].pc == Storing(Okay)
  {
    assert FlowOk(st, r);
    TransactCases(st, r, NoFault);
  }

  // ---- polls -----------------------------------------------------------------------------------

  datatype Answer = Final(outcome: Outcome) | Processing | Recovered | Unknown

  /** get_booking_status_dict: the stored result, else the queued mark, else the database row. */
  function Poll(st: State, r: Ref): Answer {
    if r in st.result then Final(st.result[r])
    else if r in st.queued then Processing
    else if r in st.book then Recovered
    else Unknown
  }

  /** The answer carries ok:true. */
  predicate SaysOk(a: Answer) {
    a == Final(Okay) || a == Recovered
  }

  /** The answer carries ok:false. */
  predicate SaysFailed(a: Answer) {
    a.Final? && a.outcome.Failure?
  }

  lemma PollTruth(st: State, steps: seq<Step>, r: Ref)
    requires Init(st) && Runs(st, steps)
    ensures var end := Exec(st, steps);
      && (SaysOk(Poll(end, r)) ==> r in end.book)
      && (SaysFailed(Poll(end, r)) ==> r !in end.book)
  {
    InvInit(st);
    InvRun(st, steps);
    if r in Exec(st, steps).result { assert FlowOk(Exec(st, steps), r); }
  }

  /** What a poll reads of `r` and no later step takes back. */
  ghost predicate Sticky(st: State, nu: State, r: Ref) {
    && (r in st.result ==> r in nu.result && nu.result[r] == st.result[r])
    && (r in st.book ==> r in nu.book)
    && (r in st.book && r !in st.marking && r !in st.queued ==> r !in nu.marking && r !in nu.queued)
  }

  lemma StickyStep(st: State, step: Step, r: Ref)
    requires Inv(st) && Enabled(st, step) && Benign(st, step)
    ensures Sticky(st, Apply(st, step), r)
  {
    if ApiStep(step) { StickyApi(st, step, r); }
    else if WorkerStep(step) { StickyWorker(st, step, r); }
  }

  lemma StickyApi(st: State, step: Step, r: Ref)
    requires Inv(st) && Enabled(st, step) && ApiStep(step)
    ensures Sticky(st, Apply(st, step), r)
  {
    if step.Enqueue? {
      assert FlowOk(st, step.r);
    } else {
      ApiLeaves(st, step);
      NoNewMark(st, step);
      hide Apply, Enabled;
    }
    hide Inv;
  }

  lemma NoNewMark(st: State, step: Step)
    requires Enabled(st, step) && ApiStep(step) && !step.Enqueue?
    ensures Apply(st, step).marking == st.marking
  {
    hide AnyConfirmed, Mine, Free, SetNx, Index, Drop, Credit, FreePrefix;
    if step.ReleaseRead? || step.ReleaseDrop? || step.ReleaseCredit? || step.Repay? { NoMarkOnRelease(st, step); }
  }

  lemma NoMarkOnRelease(st: State, step: Step)
    requires Enabled(st, step) && (step.ReleaseRead? || step.ReleaseDrop? || step.ReleaseCredit? || step.Repay?)
    ensures Apply(st, step).marking == st.marking
  {
    hide Mine, Drop, Credit;
  }

  lemma StickyWorker(st: State, step: Step, r: Ref)
    requires Inv(st) && Enabled(st, step) && WorkerStep(step)
    ensures Sticky(st, Apply(st, step), r)
  {
    if step.Store? {
      assert FlowOk(st, step.r);
    } else if step.Transact? {
      TransactLeaves(st, step.r, step.fault);
      assert Apply(st, step) == DoTransact(st, step.r, step.fault);
      hide DoTransact;
    } else {
      WorkerKeepsAnswers(st, step);
      hide Apply, Enabled;
    }
    hide Inv, Outcomes, Mine, Finish, Credit;
  }

  lemma WorkerKeepsAnswers(st: State, step: Step)
    requires Enabled(st, step) && WorkerStep(step) && !step.Store? && !step.Transact?
    ensures var nu := Apply(st, step);
      nu.result == st.result && nu.book == st.book && nu.marking == st.marking && nu.queued == st.queued
  {
    hide Mine, Finish, Credit, DoFinaliseRead, DoFinaliseWrite, DoFinaliseCredit;
    if step.FinaliseRead? || step.FinaliseWrite? || step.FinaliseCredit? { ClosingKeepsAnswers(st, step); }
  }

  lemma ClosingKeepsAnswers(st: State, step: Step)
    requires Enabled(st, step) && (step.FinaliseRead? || step.FinaliseWrite? || step.FinaliseCredit?)
    ensures var nu := Apply(st, step);
      nu.result == st.result && nu.book == st.book && nu.marking == st.marking && nu.queued == st.queued
  {
    hide Mine, Finish, Credit;
  }

  lemma {:induction false} StickyRun(st: State, steps: seq<Step>, r: Ref)
    requires Inv(st) && Runs(st, steps)
    ensures Sticky(st, Exec(st, steps), r)
    decreases |steps|
  {
    hide Apply, Enabled, Benign, Inv;
    if steps != [] {
      StickyStep(st, steps[0], r);
      InvStep(st, steps[0]);
      StickyRun(Apply(st, steps[0]), steps[1..], r);
    }
  }

  /** Once terminal, an answer never changes: a stored result is final, and an ok:true recovered from the
      database stays ok:true, provided the commit request has been answered (the queued mark was tried). */
  lemma PollStable(st: State, steps: seq<Step>, r: Ref)
    requires Inv(st) && Runs(st, steps)
    ensures Poll(st, r).Final? ==> Poll(Exec(st, steps), r) == Poll(st, r)
    ensures Poll(st, r) == Recovered && r !in st.marking ==> SaysOk(Poll(Exec(st, steps), r))
  {
    StickyRun(st, steps, r);
    InvRun(st, steps);
    if r in Exec(st, steps).result { assert FlowOk(Exec(st, steps), r); }
  }

  /** The proviso is exact: a recovered answer survives the pending mark only if the mark is lost. */
  lemma MarkHidesRecovery(st: State, r: Ref, stored: bool)
    requires Poll(st, r) == Recovered && r in st.marking
    ensures SaysOk(Poll(Apply(st, MarkQueued(r, stored)), r)) <==> !stored
  {
  }

  // ---- refunds ---------------------------------------------------------------------------------

  /** Occupied seat keys without an ACTIVE row: seats held or leaked, but not committed. */
  function Uncommitted(st: State): set<Seat> {
    set s | s in st.rd.keys && s !in st.active
  }

  ghost predicate Within(seats: set<Seat>, rows: nat, cols: nat) {
    forall s :: s in seats ==> s.row <= rows && s.col <= cols
  }

  lemma {:induction false} RowFits(seats: set<Seat>, row: Pos, cols: nat)
    requires forall s :: s in seats ==> s.row == row && s.col <= cols
    ensures |seats| <= cols
    decreases cols
  {
    if cols == 0 {
      assert seats == {};
    } else {
      var last := Seat(row, cols);
      RowFits(seats - {last}, row, cols - 1);
      assert seats <= (seats - {last}) + {last};
      CardMonotone(seats, (seats - {last}) + {last});
    }
  }

  lemma {:induction false} CardMonotone(a: set<Seat>, b: set<Seat>)
    requires a <= b
    ensures |a| <= |b|
    decreases |a|
  {
    if a != {} {
      var x :| x in a;
      CardMonotone(a - {x}, b - {x});
    }
  }

  lemma SplitCard(seats: set<Seat>, some: set<Seat>)
    requires some <= seats
    ensures |seats| == |seats - some| + |some|
  {
    assert seats == (seats - some) + some;
  }

  lemma OneRowMore(rows: nat, cols: nat)
    requires rows >= 1
    ensures (rows - 1) * cols + cols == rows * cols
  {
  }

  lemma {:induction false} GridFits(seats: set<Seat>, rows: nat, cols: nat)
    requires Within(seats, rows, cols)
    ensures |seats| <= rows * cols
    decreases rows
  {
    if rows == 0 {
      assert seats == {};
    } else {
      var last := set s | s in seats && s.row == rows;
      RowFits(last, rows, cols);
      GridFits(seats - last, rows - 1, cols);
      SplitCard(seats, last);
      OneRowMore(rows, cols);
    }
  }

  lemma ActiveFits(st: State)
    requires Inv(st) && Sound(st.cfg)
    ensures |st.active| <= st.cfg.total
  {
    forall s | s in st.active.Keys ensures s.row <= st.cfg.rows && s.col <= st.cfg.cols {
      assert ActiveOk(st, s);
      assert FlowOk(st, st.active[s]);
    }
    GridFits(st.active.Keys, st.cfg.rows, st.cfg.cols);
  }

  /** A refund that runs as one step leaves the counter at exactly total minus ACTIVE rows, its seats can
      be held again, and counter plus occupied seats exceed the total by exactly the uncommitted seats. */
  lemma RefundAccounting(st: State, r: Ref)
    requires Inv(st) && Sound(st.cfg) && Refundable(st, r) && !Closing(st, r)
    ensures var end := DoRefundFixUp(DoRefundCancel(st, r), r);
      && end.rd.remain + |end.active| == end.cfg.total
      && (forall s :: s in st.flows[r].seats ==> s !in end.rd.keys && s !in end.active && s !in end.rd.hold)
      && end.rd.remain + Occupied(end.rd) == end.cfg.total + |Uncommitted(end)|
  {
    var mid := DoRefundCancel(st, r);
    InvRefundCancel(st, r);
    ActiveFits(mid);
    PaidExactly(st, r);
    FixUpAccounting(mid, r);
  }

  /** The fix-up as one step, whatever has happened since its transaction: the refunded seats can be held
      again, the counter is what that transaction computed, and with the occupied seats it makes up that value,
      the rows that are ACTIVE now, and the seats held or leaked but not committed. */
  lemma FixUpAccounting(st: State, r: Ref)
    requires Inv(st) && r in st.pend && !Closing(st, r)
    ensures var end := DoRefundFixUp(st, r);
      && end.rd.remain == st.pend[r].left && end.active == st.active
      && (forall s :: s in st.flows[r].seats ==> s !in end.rd.keys && s !in end.active && s !in end.rd.hold)
      && end.rd.remain + Occupied(end.rd) == st.pend[r].left + |st.active| + |Uncommitted(end)|
  {
    assert FlowOk(st, r);
    var cleared := DoRefundKeys(st, r);
    InvRefundKeys(st, r);
    InvRefundCount(cleared, r);
    OccupiedSplits(DoRefundCount(cleared, r));
  }

  /** What a refund's transaction computed stays until its fix-up. */
  lemma PendStep(st: State, step: Step, r: Ref)
    requires Inv(st) && Enabled(st, step) && r in st.pend && step != RefundKeys(r)
    ensures r in Apply(st, step).pend && Apply(st, step).pend[r] == st.pend[r]
  {
    assert FlowOk(st, r);
    hide Inv, FlowOk;
    StepLeaves(st, step);
  }

  /** Only refunds touch what refunds still have to do, and nothing touches the configuration. */
  lemma StepLeaves(st: State, step: Step)
    requires Enabled(st, step)
    ensures Apply(st, step).cfg == st.cfg
    ensures !step.RefundCancel? && !step.RefundKeys? ==> Apply(st, step).pend == st.pend
  {
    if ApiStep(step) {
      ApiLeaves(st, step);
      hide Apply, Enabled;
    } else if WorkerStep(step) && !step.Transact? {
      WorkerLeaves(st, step);
      hide Apply, Enabled;
    } else if step.Transact? {
      TransactLeaves(st, step.r, step.fault);
      hide DoTransact;
    }
  }

  lemma {:induction false} PendRun(st: State, steps: seq<Step>, r: Ref)
    requires Inv(st) && Runs(st, steps) && r in st.pend && RefundKeys(r) !in steps
    ensures Inv(Exec(st, steps)) && r in Exec(st, steps).pend && Exec(st, steps).pend[r] == st.pend[r]
    ensures Exec(st, steps).cfg == st.cfg
    decreases |steps|
  {
    hide Apply, Enabled, Benign, Inv;
    if steps != [] {
      InvStep(st, steps[0]);
      PendStep(st, steps[0], r);
      StepLeaves(st, steps[0]);
      PendRun(Apply(st, steps[0]), steps[1..], r);
    }
  }

  /** A fix-up that comes late, after any steps of the others: the counter misses total minus ACTIVE rows by
      exactly the rows sold or cancelled since the refund's transaction, so it is right if and only if as many
      seats are ACTIVE as then. */
  lemma LateFixUp(st: State, r: Ref, steps: seq<Step>)
    requires Inv(st) && Sound(st.cfg) && Refundable(st, r)
    requires Runs(DoRefundCancel(st, r), steps) && RefundKeys(r) !in steps
      && !Closing(Exec(DoRefundCancel(st, r), steps), r)
    ensures var done := DoRefundCancel(st, r);
      var mid := Exec(done, steps);
      r in mid.pend
      && var end := DoRefundFixUp(mid, r);
      && end.rd.remain + |end.active| == end.cfg.total + |mid.active| - |done.active|
      && (end.rd.remain + |end.active| == end.cfg.total <==> |mid.active| == |done.active|)
      && end.rd.remain + Occupied(end.rd) == end.cfg.total + |mid.active| - |done.active| + |Uncommitted(end)|
  {
    var done := DoRefundCancel(st, r);
    InvRefundCancel(st, r);
    ActiveFits(done);
    PendRun(done, steps, r);
    FixUpAccounting(Exec(done, steps), r);
    hide Exec, Inv, Runs, DoRefundCancel;
    assert Exec(done, steps).pend[r].left == done.cfg.total - |done.active|;
  }

  /** Every ACTIVE seat is keyed, so the keys are the ACTIVE seats and the uncommitted ones. */
  lemma OccupiedSplits(st: State)
    requires Inv(st)
    ensures Occupied(st.rd) == |st.active| + |Uncommitted(st)|
  {
    forall s | s in st.active ensures s in st.rd.keys { assert ActiveOk(st, s); }
    assert st.rd.keys.Keys == st.active.Keys + Uncommitted(st);
  }

  /** With nothing held or leaked, a refund restores the exact balance. */
  lemma CleanRefundRestores(st: State, r: Ref)
    requires Inv(st) && Sound(st.cfg) && Refundable(st, r) && Uncommitted(st) == {} && !Closing(st, r)
    ensures var end := DoRefundFixUp(DoRefundCancel(st, r), r); end.rd.remain + Occupied(end.rd) == end.cfg.total
  {
    var end := DoRefundFixUp(DoRefundCancel(st, r), r);
    RefundAccounting(st, r);
    PaidExactly(st, r);
    assert Uncommitted(end) == {};
  }

  // ---- the worker's loop -----------------------------------------------------------------------

  /** Whether the retry loop returns within these attempts. A conflict stores a failure and tries again. */
  predicate LoopReturns(st: State, r: Ref, faults: seq<Fault>)
    requires At(st, r) && st.flows[r].pc.Taken?
    decreases |faults|
  {
    faults != [] &&
    var nu := DoTransact(st, r, faults[0]);
    nu.flows[r].pc.Storing?
    || LoopReturns(SetPc(nu, r, Taken(st.flows[r].pc.attempt + 1)), r, faults[1..])
  }

  /** On every reachable delivery the loop returns within the configured attempts, whatever
      OperationalErrors the database raises. */
  lemma {:induction false} LoopTerminates(st: State, r: Ref, faults: seq<Fault>)
    requires Inv(st) && At(st, r) && st.flows[r].pc.Taken?
    requires |faults| == st.cfg.retries - st.flows[r].pc.attempt + 1
    ensures LoopReturns(st, r, faults)
    decreases |faults|
  {
    assert FlowOk(st, r);
    var nu := DoTransact(st, r, faults[0]);
    if !GivesUp(st, r, faults[0]) {
      TransactCases(st, r, faults[0]);
      if nu.flows[r].pc.Taken? {
        InvTransact(st, r, faults[0]);
        LoopTerminates(nu, r, faults[1..]);
        assert SetPc(nu, r, Taken(st.flows[r].pc.attempt + 1)) == nu;
      }
    }
  }

  /** The delivery has an ending: the request lies outside the grid, or is committed with seats still ACTIVE,
      or is not committed and meets no ACTIVE seat. */
  predicate HasEnding(st: State, r: Ref)
    requires At(st, r)
  {
    var seats := st.flows[r].seats;
    || !InGrid(st.cfg, seats)
    || if r in st.book then ActiveOf(st.active, r) != {} || seats == [] else forall s :: s in seats ==> s !in st.active
  }

  /** Seat exclusivity is what termination rests on: with healthy attempts the loop returns if and only if the
      delivery has an ending, however many attempts it is given. */
  lemma {:induction false} LoopReturnsIff(st: State, r: Ref, n: nat)
    requires At(st, r) && st.flows[r].pc.Taken? && n >= 1
    ensures LoopReturns(st, r, seq(n, _ => NoFault)) <==> HasEnding(st, r)
    decreases n
  {
    var faults := seq(n, _ => NoFault);
    if !HasEnding(st, r) {
      if r in st.book { assert st.flows[r].seats[0] in Elems(st.flows[r].seats); }
      assert !Writes(st, r, NoFault) && Outcomes(st, r, NoFault) == Unreturned;
      var again := SetPc(DoTransact(st, r, NoFault), r, Taken(st.flows[r].pc.attempt + 1));
      assert again.flows[r].seats == st.flows[r].seats && again.book == st.book && again.active == st.active;
      assert faults[1..] == seq((n - 1) as nat, _ => NoFault);
      if n > 1 { LoopReturnsIff(again, r, n - 1); }
    }
  }
}
