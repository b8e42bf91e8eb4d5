/** Where the booking code falls short of its obvious claims, and the exact condition each time. */
module BookingLimits {
  import opened SeatStore
  import opened BookingProtocol
  import opened BookingInvariant
  import opened BookingLedger
  import opened BookingTheorems

  // ---- a failed multi-seat hold ----------------------------------------------------------------

  /** The write-api's path from the NX pipeline to the 409 answer, when nobody interleaves. */
  function FailedHold(st: State, r: Ref): State
    requires At(st, r)
  {
    var s1 := DoHoldNx(st, r);
    var s2 := DoReleaseRead(s1, r);
    var s4 := if s2.flows[r].pc.Dropping? then DoReleaseCredit(DoReleaseDrop(s2, r), r) else s2;
    DoRepay(s4, r)
  }

  /** A request that meets a taken seat leaves the counter too high by the seats before it, counting the
      debit it had taken, and keeps the keys of the free seats after it under a reference nobody serves. */
  lemma FailedHoldAftermath(st: State, r: Ref)
    requires At(st, r) && st.flows[r].pc.Checked? && Distinct(st.flows[r].seats)
    requires FreePrefix(st.rd.keys, st.flows[r].seats) < |st.flows[r].seats|
    ensures var seats := st.flows[r].seats; var p := FreePrefix(st.rd.keys, seats); var end := FailedHold(st, r);
      && end.flows[r].pc == Rejected
      && end.rd.remain == st.rd.remain + |seats| + p
      && end.rd.keys == Take(st.rd.keys, Leaked(st.rd.keys, seats), r)
      && end.drift == st.drift + |Free(st.rd.keys, seats)|
  {
    var seats := st.flows[r].seats;
    var held := seats[..FreePrefix(st.rd.keys, seats)];
    PrefixMine(st.rd, seats, r);
    NxThenDrop(st.rd, seats, r);
    var s1 := DoHoldNx(st, r);
    assert s1.flows[r] == Flow(seats, Conflict(held), st.flows[r].writes);
    ReleasePrefix(s1, r, held);
  }

  /** The rest of the path once the conflict is known. */
  lemma ReleasePrefix(st: State, r: Ref, held: seq<Seat>)
    requires At(st, r) && st.flows[r].pc == Conflict(held)
    requires Mine(st.rd.keys, held, r) == Elems(held) && |Elems(held)| == |held|
    ensures var s2 := DoReleaseRead(st, r);
      var s4 := if s2.flows[r].pc.Dropping? then DoReleaseCredit(DoReleaseDrop(s2, r), r) else s2;
      var end := DoRepay(s4, r);
      && end.flows[r].pc == Rejected && end.drift == st.drift
      && end.rd.remain == st.rd.remain + |st.flows[r].seats| + |held|
      && end.rd.keys == st.rd.keys - Elems(held)
  {
    if held == [] {
      assert st.rd.keys - Elems(held) == st.rd.keys;
    } else {
      hide Mine, Elems;
    }
  }

  /** The failure is harmless exactly when none of the requested seats was free. */
  lemma FailedHoldExactIff(st: State, r: Ref)
    requires At(st, r) && st.flows[r].pc.Checked? && Distinct(st.flows[r].seats)
    requires FreePrefix(st.rd.keys, st.flows[r].seats) < |st.flows[r].seats|
    ensures FailedHold(st, r).drift == st.drift <==> forall s :: s in st.flows[r].seats ==> s in st.rd.keys
  {
    var seats := st.flows[r].seats;
    FailedHoldAftermath(st, r);
    if forall s :: s in seats ==> s in st.rd.keys {
      assert Free(st.rd.keys, seats) == {};
    } else {
      var s :| s in seats && s !in st.rd.keys;
      assert s in Free(st.rd.keys, seats);
    }
  }

  ghost predicate Leak(st: State, r: Ref, s: Seat) {
    At(st, r) && st.flows[r].pc.Rejected? && s in st.rd.keys && st.rd.keys[s] == Held(r)
  }

  /** No step frees a leaked seat. */
  lemma LeakStep(st: State, step: Step, r: Ref, s: Seat)
    requires Inv(st) && Enabled(st, step) && Leak(st, r, s)
    ensures Leak(Apply(st, step), r, s)
  {
    if ApiStep(step) { LeakApi(st, step, r, s); }
    else if WorkerStep(step) { LeakWorker(st, step, r, s); }
    else if step.RefundKeys? {
      assert FlowOk(st, step.r) && FlowOk(st, r);
      assert KeyOk(st, s);
      assert s in st.pend[step.r].seats ==> Owns(st.rd.keys, s, step.r);
    }
  }

  /** A step of one request leaves the others where they are. */
  lemma OthersStay(st: State, step: Step, q: Ref)
    requires Enabled(st, step) && (ApiStep(step) || WorkerStep(step)) && At(st, q) && step.r != q
    ensures At(Apply(st, step), q) && Apply(st, step).flows[q] == st.flows[q]
  {
    if WorkerStep(step) { WorkerOthers(st, step, q); hide Apply; }
    hide AnyConfirmed, Mine, Free, SetNx, Index, Drop;
  }

  lemma WorkerOthers(st: State, step: Step, q: Ref)
    requires Enabled(st, step) && WorkerStep(step) && At(st, q) && step.r != q
    ensures At(Apply(st, step), q) && Apply(st, step).flows[q] == st.flows[q]
  {
    hide Outcomes, Writes, Mine, Finish, KeepsOkay, Sell;
  }

  lemma LeakApi(st: State, step: Step, r: Ref, s: Seat)
    requires Inv(st) && Enabled(st, step) && Leak(st, r, s) && ApiStep(step)
    ensures Leak(Apply(st, step), r, s)
  {
    OthersStay(st, step, r);
    if step.ReleaseDrop? { assert FlowOk(st, step.r); }
    if step.HoldNx? { assert s !in Free(st.rd.keys, st.flows[step.r].seats); }
    if !step.ReleaseDrop? && !step.HoldNx? {
      ApiKeys(st, step);
      hide Apply;
    }
    hide Inv, AnyConfirmed, Index, Enabled;
  }

  lemma ApiKeys(st: State, step: Step)
    requires Enabled(st, step) && ApiStep(step) && !step.ReleaseDrop? && !step.HoldNx?
    ensures Apply(st, step).rd.keys == st.rd.keys
  {
    hide Mine, AnyConfirmed;
  }

  lemma LeakWorker(st: State, step: Step, r: Ref, s: Seat)
    requires Inv(st) && Enabled(st, step) && Leak(st, r, s) && WorkerStep(step)
    ensures Leak(Apply(st, step), r, s)
  {
    OthersStay(st, step, r);
    if step.FinaliseWrite? {
      assert FlowOk(st, step.r);
      assert s !in st.flows[step.r].pc.mine;
    } else {
      WorkerKeys(st, step);
    }
  }

  lemma WorkerKeys(st: State, step: Step)
    requires Enabled(st, step) && WorkerStep(step) && !step.FinaliseWrite?
    ensures Apply(st, step).rd.keys == st.rd.keys
  {
    hide Outcomes, Writes, Mine, KeepsOkay;
  }

  /** A leaked seat stays under its dead reference, unsold, through every later run. */
  lemma {:induction false} LeakForever(st: State, steps: seq<Step>, r: Ref, s: Seat)
    requires Inv(st) && Runs(st, steps) && Leak(st, r, s)
    ensures Leak(Exec(st, steps), r, s) && s !in Exec(st, steps).active
    decreases |steps|
  {
    if steps == [] {
      assert FlowOk(st, r);
      if s in st.active { LeakNotActive(st, r, s); }
    } else {
      LeakStep(st, steps[0], r, s);
      InvStep(st, steps[0]);
      LeakForever(Apply(st, steps[0]), steps[1..], r, s);
    }
  }

  lemma LeakNotActive(st: State, r: Ref, s: Seat)
    requires Inv(st) && Leak(st, r, s)
    ensures s !in st.active
  {
    assert FlowOk(st, r);
    assert s in st.active ==> ActiveOk(st, s);
  }

  // ---- giving up on a committed reference ------------------------------------------------------

  /** When the database gives up on a delivery, recording the failure keeps the protocol's invariant
      if and only if the reference is not committed yet. */
  lemma GivingUpIff(st: State, r: Ref, fault: Fault)
    requires Inv(st) && At(st, r) && st.flows[r].pc.Taken? && GivesUp(st, r, fault)
    ensures Inv(DoStore(DoTransact(st, r, fault), r)) <==> r !in st.book
  {
    var mid := DoTransact(st, r, fault);
    var end := DoStore(mid, r);
    if r !in st.book {
      InvTransact(st, r, fault);
      InvStore(mid, r);
    } else {
      assert FlowOk(st, r);
      assert !FlowOk(end, r);
    }
  }

  /** On a committed reference the poll then says ok:false of a booking whose rows stand,
      and the rollback frees every seat the hold still covered. */
  lemma GivingUpOnCommitted(st: State, r: Ref, fault: Fault)
    requires Inv(st) && At(st, r) && st.flows[r].pc.Taken? && GivesUp(st, r, fault)
    requires r in st.book && r in st.rd.meta
    ensures var told := DoStore(DoTransact(st, r, fault), r);
      var freed := DoFinaliseWrite(DoFinaliseRead(told, r), r);
      && SaysFailed(Poll(told, r)) && r in told.book
      && (forall s :: s in st.flows[r].seats ==>
            s in freed.active && (s in freed.rd.keys ==> freed.rd.keys[s] != Held(r)))
  {
    assert FlowOk(st, r);
  }

  // ---- a refund inside the worker's closing read and write --------------------------------------

  /** Clearing a refund's seat keys keeps the invariant, whatever else is going on, if and only if the worker is
      not between reading keys of that booking and confirming them. */
  lemma ClearingIff(st: State, r: Ref)
    requires Inv(st) && r in st.pend
    ensures Inv(DoRefundKeys(st, r)) <==> !Closing(st, r)
  {
    if Closing(st, r) {
      var nu := DoRefundKeys(st, r);
      assert FlowOk(st, r);
      NotClosing(st, r);
      hide FlowOk;
      assert !FlowsOk(nu);
    } else {
      InvRefundKeys(st, r);
    }
  }

  lemma NotClosing(st: State, r: Ref)
    requires Closing(st, r) && FlowOk(st, r) && r in st.pend
    ensures At(DoRefundKeys(st, r), r) && !FlowOk(DoRefundKeys(st, r), r)
  {
    var s :| s in st.flows[r].pc.mine;
    assert s !in Mine(DoRefundKeys(st, r).rd.keys, st.flows[r].seats, r);
  }

  /** So a fix-up during the closing read and write, whenever its transaction ran, does no harm if and only if
      the worker had no key left to confirm. */
  lemma RefundInsideIff(st: State, r: Ref)
    requires Inv(st) && r in st.pend && st.flows[r].pc.Writing?
    ensures st.flows[r].pc.ok
    ensures Inv(DoFinaliseWrite(DoRefundFixUp(st, r), r)) <==> st.flows[r].pc.mine == {}
  {
    assert FlowOk(st, r);
    if st.flows[r].pc.mine == {} {
      InvRefundKeys(st, r);
      InvRefundCount(DoRefundKeys(st, r), r);
      InvFinaliseWrite(DoRefundFixUp(st, r), r);
    } else {
      var s :| s in st.flows[r].pc.mine;
      StuckSeat(st, r, s);
    }
  }

  /** Otherwise a refunded seat ends up CONFIRMED with no ACTIVE row and no refund to clear it. */
  lemma StuckSeat(st: State, r: Ref, s: Seat)
    requires Inv(st) && r in st.pend && st.flows[r].pc.Writing? && s in st.flows[r].pc.mine
    ensures var end := DoFinaliseWrite(DoRefundFixUp(st, r), r);
      && s in end.rd.keys && end.rd.keys[s] == Confirmed
      && s !in end.active && (forall q :: q in end.pend ==> s !in end.pend[q].seats)
      && !Inv(end)
  {
    assert FlowOk(st, r);
    assert s in st.pend[r].seats;
    ConfirmedAfter(st, r, s);
    StrayConfirmed(DoFinaliseWrite(DoRefundFixUp(st, r), r), s);
  }

  lemma ConfirmedAfter(st: State, r: Ref, s: Seat)
    requires At(st, r) && r in st.pend && st.flows[r].pc.Writing? && st.flows[r].pc.ok && s in st.flows[r].pc.mine
    requires s in st.pend[r].seats && s !in st.active && PendsApart(st)
    ensures var end := DoFinaliseWrite(DoRefundFixUp(st, r), r);
      && s in end.rd.keys && end.rd.keys[s] == Confirmed && s !in end.active
      && forall q :: q in end.pend ==> s !in end.pend[q].seats
  {
    hide Drop, Occupied;
    var mid := DoRefundFixUp(st, r);
    assert mid.flows == st.flows && mid.active == st.active && mid.pend == st.pend - {r};
  }

  lemma StrayConfirmed(st: State, s: Seat)
    requires s in st.rd.keys && st.rd.keys[s] == Confirmed && s !in st.active
    requires forall q :: q in st.pend ==> s !in st.pend[q].seats
    ensures !Inv(st)
  {
    assert !KeyOk(st, s);
  }

  // ---- both situations arise -------------------------------------------------------------------

  /** A lone single-seat request, from its submission to a worker's first attempt. */
  function ToWorker(seat: Seat): seq<Step> {
    [Submit([seat]), CheckConfirmed(0), HoldNx(0), IndexHold(0), Enqueue(0), Deliver(0)]
  }

  function Fresh(cfg: Config): State {
    State(cfg, Redis(cfg.total, map[], {}, map[]), map[], map[], map[], {}, {}, [], map[], map[], 0, 0)
  }

  /** The state that path reaches. */
  function AtWorker(cfg: Config, seat: Seat): State
    requires cfg.total >= 1
  {
    State(cfg, Redis(cfg.total - 1, map[seat := Held(0)], {seat}, map[0 := [seat]]),
          map[], map[], map[], {}, {0}, [Flow([seat], Taken(1), 0)], map[], map[], 0, 0)
  }

  /** The states along that path. */
  function Path(cfg: Config, seat: Seat, n: nat): State
    requires cfg.total >= 1
  {
    var debited := Redis(cfg.total - 1, map[], {}, map[]);
    var won := debited.(keys := map[seat := Held(0)]);
    var indexed := won.(hold := {seat}, meta := map[0 := [seat]]);
    var st := Fresh(cfg);
    if n == 0 then st
    else if n == 1 then st.(flows := [Flow([seat], Debited, 0)], rd := debited)
    else if n == 2 then st.(flows := [Flow([seat], Checked, 0)], rd := debited)
    else if n == 3 then st.(flows := [Flow([seat], Won, 0)], rd := won)
    else if n == 4 then st.(flows := [Flow([seat], BookingProtocol.Indexed, 0)], rd := indexed)
    else if n == 5 then st.(flows := [Flow([seat], Queued, 0)], rd := indexed, marking := {0})
    else AtWorker(cfg, seat)
  }

  lemma PathStep(cfg: Config, seat: Seat, n: nat)
    requires cfg.total >= 1 && n < 6
    ensures Enabled(Path(cfg, seat, n), ToWorker(seat)[n]) && Benign(Path(cfg, seat, n), ToWorker(seat)[n])
    ensures Apply(Path(cfg, seat, n), ToWorker(seat)[n]) == Path(cfg, seat, n + 1)
  {
    if n < 3 { PathHold(cfg, seat, n); }
  }

  lemma PathHold(cfg: Config, seat: Seat, n: nat)
    requires cfg.total >= 1 && n < 3
    ensures Enabled(Path(cfg, seat, n), ToWorker(seat)[n]) && Benign(Path(cfg, seat, n), ToWorker(seat)[n])
    ensures Apply(Path(cfg, seat, n), ToWorker(seat)[n]) == Path(cfg, seat, n + 1)
  {
    if n == 2 { NxOfOne(Path(cfg, seat, 2), seat); }
  }

  lemma {:induction false} PathRun(cfg: Config, seat: Seat, n: nat)
    requires cfg.total >= 1 && n <= 6
    ensures Reaches(Fresh(cfg), Path(cfg, seat, n))
  {
    if n == 0 {
      ReachSelf(Fresh(cfg));
    } else {
      PathRun(cfg, seat, n - 1);
      PathStep(cfg, seat, n - 1);
      hide Path, Enabled, Benign, Apply;
      ReachNext(Fresh(cfg), Path(cfg, seat, n - 1), ToWorker(seat)[n - 1]);
    }
  }

  lemma NxOfOne(st: State, seat: Seat)
    requires |st.flows| == 1 && st.flows[0].seats == [seat] && st.rd.keys == map[]
    ensures DoHoldNx(st, 0) == SetPc(st.(rd := st.rd.(keys := map[seat := Held(0)])), 0, Won)
  {
    assert Free(st.rd.keys, [seat]) == {seat};
    assert SetNx(st.rd, [seat], 0).keys == map[seat := Held(0)];
    assert FreePrefix(st.rd.keys, [seat]) == 1;
  }

  function Overtaken(): seq<Step> {
    [Transact(0, NoFault), Store(0), RefundCancel(0), FinaliseRead(0)]
  }

  /** The states after the worker's commit, with the refund's transaction on the way. */
  function AfterCommit(cfg: Config, seat: Seat, n: nat): State
    requires cfg.total >= 1
  {
    var st := AtWorker(cfg, seat);
    var sold := st.(book := map[0 := Paid], active := map[seat := 0]);
    var told := sold.(result := map[0 := Okay], queued := {});
    var refunded := told.(book := map[0 := Cancelled], active := map[], pend := map[0 := Refund({seat}, Left(cfg, 0))]);
    if n == 0 then st
    else if n == 1 then sold.(flows := [Flow([seat], Storing(Okay), 1)])
    else if n == 2 then told.(flows := [Flow([seat], Finalising(true), 1)])
    else if n == 3 then refunded.(flows := [Flow([seat], Finalising(true), 1)])
    else refunded.(flows := [Flow([seat], Writing({seat}, true), 1)])
  }

  lemma ClosingStep(cfg: Config, seat: Seat, n: nat)
    requires cfg.total >= 1 && InGrid(cfg, [seat]) && n < 4
    ensures Enabled(AfterCommit(cfg, seat, n), Overtaken()[n]) && Benign(AfterCommit(cfg, seat, n), Overtaken()[n])
    ensures Apply(AfterCommit(cfg, seat, n), Overtaken()[n]) == AfterCommit(cfg, seat, n + 1)
  {
    if n == 0 {
      var st := AfterCommit(cfg, seat, 0);
      FirstSale(st, seat);
    } else if n < 3 {
      ClosingMiddle(cfg, seat, n);
    } else {
      assert Mine(AtWorker(cfg, seat).rd.keys, [seat], 0) == {seat};
    }
  }

  lemma ClosingMiddle(cfg: Config, seat: Seat, n: nat)
    requires cfg.total >= 1 && InGrid(cfg, [seat]) && 1 <= n < 3
    ensures Enabled(AfterCommit(cfg, seat, n), Overtaken()[n]) && Benign(AfterCommit(cfg, seat, n), Overtaken()[n])
    ensures Apply(AfterCommit(cfg, seat, n), Overtaken()[n]) == AfterCommit(cfg, seat, n + 1)
  {
    assert ActiveOf(map[seat := 0], 0) == {seat};
    assert map[seat := 0] - {seat} == map[];
    hide ActiveOf;
  }

  /** The first sale of a lone request. */
  lemma FirstSale(st: State, seat: Seat)
    requires |st.flows| == 1 && st.flows[0] == Flow([seat], Taken(1), 0) && InGrid(st.cfg, [seat])
    requires st.book == map[] && st.active == map[]
    ensures Enabled(st, Transact(0, NoFault)) && Benign(st, Transact(0, NoFault))
    ensures Apply(st, Transact(0, NoFault)) ==
      st.(book := map[0 := Paid], active := map[seat := 0], flows := [Flow([seat], Storing(Okay), 1)])
  {
    assert Apply(st, Transact(0, NoFault)) == Commit(st, 0);
    assert Sell(map[], Elems([seat]), 0) == map[seat := 0];
    hide Writes, Outcomes, DoTransact, Sell;
  }

  lemma {:induction false} ClosingRun(cfg: Config, seat: Seat, n: nat)
    requires cfg.total >= 1 && InGrid(cfg, [seat]) && n <= 4
    ensures Reaches(Fresh(cfg), AfterCommit(cfg, seat, n))
  {
    if n == 0 {
      PathRun(cfg, seat, 6);
    } else {
      ClosingRun(cfg, seat, n - 1);
      ClosingStep(cfg, seat, n - 1);
      hide AfterCommit, Enabled, Benign, Apply, InGrid;
      ReachNext(Fresh(cfg), AfterCommit(cfg, seat, n - 1), Overtaken()[n - 1]);
    }
  }

  /** A refund that commits while the worker is about to read its keys is one that can then overtake it. */
  lemma OpenClosingArises(cfg: Config, seat: Seat)
    requires Sound(cfg) && cfg.total >= 1 && InGrid(cfg, [seat])
    ensures exists end ::
      Reaches(Fresh(cfg), end) && At(end, 0) && end.flows[0].pc == Writing({seat}, true) && 0 in end.pend
  {
    ClosingRun(cfg, seat, 4);
    hide Reaches;
    assert 0 in AfterCommit(cfg, seat, 4).pend;
  }

  // ---- a seat sold twice -----------------------------------------------------------------------

  /** The rest of a delivery whose database gives up after the commit, and a second request for the seat. */
  function SecondSale(seat: Seat): seq<Step> {
    [Transact(0, NoFault), Crash(0), Deliver(0), Transact(0, Operational), Store(0), FinaliseRead(0), FinaliseWrite(0),
     FinaliseCredit(0), Submit([seat]), CheckConfirmed(1), HoldNx(1), IndexHold(1), Enqueue(1), Deliver(1)]
  }

  /** The states along it. */
  function Resale(cfg: Config, seat: Seat, n: nat): State
    requires cfg.total >= 1
  {
    if n <= 8 then Lapse(cfg, seat, n)
    else
      var st := Lapse(cfg, seat, 8);
      var first := st.flows[0];
      var debited := st.rd.(remain := cfg.total - 1);
      var won := debited.(keys := map[seat := Held(1)]);
      var indexed := won.(hold := {seat}, meta := map[1 := [seat]]);
      if n == 9 then st.(rd := debited, flows := [first, Flow([seat], Debited, 0)])
      else if n == 10 then st.(rd := debited, flows := [first, Flow([seat], Checked, 0)])
      else if n == 11 then st.(rd := won, flows := [first, Flow([seat], Won, 0)])
      else if n == 12 then st.(rd := indexed, flows := [first, Flow([seat], BookingProtocol.Indexed, 0)])
      else if n == 13 then st.(rd := indexed, flows := [first, Flow([seat], Queued, 0)], marking := {0, 1})
      else st.(rd := indexed, flows := [first, Flow([seat], Taken(1), 0)], marking := {0, 1})
  }

  /** Up to the second request: the booking stands, its result says otherwise, and its seat key is gone. */
  function Lapse(cfg: Config, seat: Seat, n: nat): State
    requires cfg.total >= 1
  {
    var st := AtWorker(cfg, seat);
    var sold := st.(book := map[0 := Paid], active := map[seat := 0]);
    var told := sold.(result := map[0 := Failure(DbError)], queued := {});
    var freed := told.(rd := Redis(cfg.total - 1, map[], {}, map[]));
    if n == 0 then st
    else if n == 1 then sold.(flows := [Flow([seat], Storing(Okay), 1)])
    else if n == 2 then sold.(flows := [Flow([seat], Queued, 1)])
    else if n == 3 then sold.(flows := [Flow([seat], Taken(1), 1)])
    else if n == 4 then sold.(flows := [Flow([seat], Storing(Failure(DbError)), 1)])
    else if n == 5 then told.(flows := [Flow([seat], Finalising(false), 1)])
    else if n == 6 then told.(flows := [Flow([seat], Writing({seat}, false), 1)])
    else if n == 7 then freed.(flows := [Flow([seat], Restoring(1), 1)])
    else freed.(flows := [Flow([seat], Returning, 1)], rd := Redis(cfg.total, map[], {}, map[]))
  }

  lemma LapseStep(cfg: Config, seat: Seat, n: nat)
    requires cfg.total >= 1 && InGrid(cfg, [seat]) && n < 8
    ensures Enabled(Lapse(cfg, seat, n), SecondSale(seat)[n])
    ensures n < 3 ==> Benign(Lapse(cfg, seat, n), SecondSale(seat)[n])
    ensures Apply(Lapse(cfg, seat, n), SecondSale(seat)[n]) == Lapse(cfg, seat, n + 1)
  {
    if n == 0 {
      FirstSale(Lapse(cfg, seat, 0), seat);
      hide Apply;
    } else if n < 4 {
      LapseRedelivery(cfg, seat, n);
      hide Apply;
    } else {
      if n < 6 { LapseTold(cfg, seat, n); } else { LapseFreed(cfg, seat, n); }
      hide Apply;
    }
  }

  lemma LapseRedelivery(cfg: Config, seat: Seat, n: nat)
    requires cfg.total >= 1 && 1 <= n < 4
    ensures Enabled(Lapse(cfg, seat, n), SecondSale(seat)[n])
    ensures Apply(Lapse(cfg, seat, n), SecondSale(seat)[n]) == Lapse(cfg, seat, n + 1)
  {
    hide DoStore, DoFinaliseRead, DoFinaliseWrite, DoFinaliseCredit, Sell, InGrid;
  }

  lemma LapseTold(cfg: Config, seat: Seat, n: nat)
    requires cfg.total >= 1 && 4 <= n < 6
    ensures Enabled(Lapse(cfg, seat, n), SecondSale(seat)[n])
    ensures Apply(Lapse(cfg, seat, n), SecondSale(seat)[n]) == Lapse(cfg, seat, n + 1)
  {
    assert Mine(map[seat := Held(0)], [seat], 0) == {seat};
    hide Mine;
  }

  lemma LapseFreed(cfg: Config, seat: Seat, n: nat)
    requires cfg.total >= 1 && 6 <= n < 8
    ensures Enabled(Lapse(cfg, seat, n), SecondSale(seat)[n])
    ensures Apply(Lapse(cfg, seat, n), SecondSale(seat)[n]) == Lapse(cfg, seat, n + 1)
  {
    assert map[seat := Held(0)] - {seat} == map[];
    assert map[0 := [seat]] - {0} == map[];
    assert {seat} - {seat} == {};
  }

  lemma ResaleStep(cfg: Config, seat: Seat, n: nat)
    requires cfg.total >= 1 && 8 <= n < 14
    ensures Enabled(Resale(cfg, seat, n), SecondSale(seat)[n])
    ensures Apply(Resale(cfg, seat, n), SecondSale(seat)[n]) == Resale(cfg, seat, n + 1)
  {
    if n < 10 { ResaleDebit(cfg, seat, n); }
    else if n == 10 { ResaleHold(cfg, seat); }
    else { ResaleQueue(cfg, seat, n); }
    hide Apply, Enabled;
  }

  lemma ResaleDebit(cfg: Config, seat: Seat, n: nat)
    requires cfg.total >= 1 && 8 <= n < 10
    ensures Enabled(Resale(cfg, seat, n), SecondSale(seat)[n])
    ensures Apply(Resale(cfg, seat, n), SecondSale(seat)[n]) == Resale(cfg, seat, n + 1)
  {
  }

  lemma ResaleHold(cfg: Config, seat: Seat)
    requires cfg.total >= 1
    ensures Enabled(Resale(cfg, seat, 10), HoldNx(1))
    ensures Apply(Resale(cfg, seat, 10), HoldNx(1)) == Resale(cfg, seat, 11)
  {
    assert Free(map[], [seat]) == {seat} && FreePrefix(map[], [seat]) == 1;
    assert Take(map[], {seat}, 1) == map[seat := Held(1)];
    hide Free, FreePrefix, Take;
  }

  lemma ResaleQueue(cfg: Config, seat: Seat, n: nat)
    requires cfg.total >= 1 && 11 <= n < 14
    ensures Enabled(Resale(cfg, seat, n), SecondSale(seat)[n])
    ensures Apply(Resale(cfg, seat, n), SecondSale(seat)[n]) == Resale(cfg, seat, n + 1)
  {
    assert Elems([seat]) == {seat};
    hide Elems;
  }

  lemma {:induction false} ResaleRun(cfg: Config, seat: Seat, n: nat)
    requires cfg.total >= 1 && InGrid(cfg, [seat]) && n <= 14
    ensures Comes(Fresh(cfg), Resale(cfg, seat, n))
  {
    if n == 0 {
      PathRun(cfg, seat, 6);
      ReachComes(Fresh(cfg), AtWorker(cfg, seat));
    } else {
      ResaleRun(cfg, seat, n - 1);
      if n <= 8 { LapseStep(cfg, seat, n - 1); } else { ResaleStep(cfg, seat, n - 1); }
      hide Apply, Enabled, Lapse, InGrid;
      ComesNext(Fresh(cfg), Resale(cfg, seat, n - 1), SecondSale(seat)[n - 1]);
    }
  }

  lemma {:induction false} LapseRun(cfg: Config, seat: Seat, n: nat)
    requires cfg.total >= 1 && InGrid(cfg, [seat]) && n <= 3
    ensures Reaches(Fresh(cfg), Lapse(cfg, seat, n))
  {
    if n == 0 {
      PathRun(cfg, seat, 6);
    } else {
      LapseRun(cfg, seat, n - 1);
      LapseStep(cfg, seat, n - 1);
      hide Apply, Enabled, Lapse, InGrid;
      ReachNext(Fresh(cfg), Lapse(cfg, seat, n - 1), SecondSale(seat)[n - 1]);
    }
  }

  /** A worker that dies after its commit leaves a delivery whose reference is committed. */
  lemma CommittedRedeliveryArises(cfg: Config, seat: Seat)
    requires Sound(cfg) && cfg.total >= 1 && InGrid(cfg, [seat])
    ensures exists end :: Reaches(Fresh(cfg), end)
                          && At(end, 0) && end.flows[0].pc == Taken(1) && 0 in end.book && 0 in end.rd.meta
  {
    LapseRun(cfg, seat, 3);
    hide Reaches;
    assert 0 in Lapse(cfg, seat, 3).book;
  }

  /** What giving up on a committed reference leads to, for every show and every seat: the freed key is taken by
      another request, whose delivery then never returns, however many healthy attempts it is given. */
  lemma GivingUpNeverEnds(cfg: Config, seat: Seat, n: nat)
    requires Sound(cfg) && cfg.total >= 1 && InGrid(cfg, [seat]) && n >= 1
    ensures exists end :: Comes(Fresh(cfg), end) && SoldTwice(end, seat) && !LoopReturns(end, 1, seq(n, _ => NoFault))
  {
    ResaleRun(cfg, seat, 14);
    var end := Resale(cfg, seat, 14);
    assert SoldTwice(end, seat);
    assert seat in end.flows[1].seats;
    LoopReturnsIff(end, 1, n);
    hide Comes, LoopReturns, Resale;
  }

  /** The first booking has the seat and is denied; the second delivery holds the seat's key. */
  predicate SoldTwice(st: State, seat: Seat) {
    && At(st, 1) && st.flows[1] == Flow([seat], Taken(1), 0) && 1 !in st.book
    && seat in st.active && st.active[seat] == 0 && SaysFailed(Poll(st, 0))
    && seat in st.rd.keys && st.rd.keys[seat] == Held(1)
  }
}
