/** Conservation of the remain counter over every run, with the exact drift.

    `remain` + occupied seat keys + debits still owed = capacity + drift. */
module BookingLedger {
  import opened SeatStore
  import opened BookingProtocol
  import opened BookingInvariant

  /** What a request has taken from the counter and neither turned into seat keys nor given back:
      taken but not yet held, or released but not yet credited. */
  function Owes(f: Flow): nat {
    match f.pc
    case Debited => |f.seats|
    case Checked => |f.seats|
    case Conflict(_) => |f.seats|
    case Repaying => |f.seats|
    case Dropping(_, repay) => if repay then |f.seats| else 0
    case Crediting(k, repay) => k + if repay then |f.seats| else 0
    case Restoring(k) => k
    case _ => 0
  }

  function Owed(flows: seq<Flow>): nat {
    if flows == [] then 0 else Owed(flows[..|flows| - 1]) + Owes(flows[|flows| - 1])
  }

  ghost predicate Balanced(st: State) {
    st.rd.remain + Occupied(st.rd) + Owed(st.flows) + st.lost == st.cfg.total + st.drift
  }

  lemma {:induction false} OwedUpdate(flows: seq<Flow>, r: nat, f: Flow)
    requires r < |flows|
    ensures Owed(flows[r := f]) + Owes(flows[r]) == Owed(flows) + Owes(f)
  {
    var n := |flows| - 1;
    if r == n {
      assert flows[r := f][..n] == flows[..n];
    } else {
      OwedUpdate(flows[..n], r, f);
      assert flows[r := f][..n] == flows[..n][r := f];
    }
  }

  /** What the step adds to the drift: a failed hold adds its free seats, a refund what it clears
      and what it overwrites. */
  function Penalty(st: State, step: Step): int
    requires Enabled(st, step)
  {
    match step
    case HoldNx(r) =>
      var seats := st.flows[r].seats;
      if FreePrefix(st.rd.keys, seats) == |seats| then 0 else |Free(st.rd.keys, seats)|
    case RefundKeys(r) => Occupied(Drop(st.rd, st.pend[r].seats)) - Occupied(st.rd)
    case RefundCount(r) => st.counts[r] - st.rd.remain
    case _ => 0
  }

  lemma DriftStep(st: State, step: Step)
    requires Enabled(st, step)
    ensures Apply(st, step).drift == st.drift + Penalty(st, step)
  {
    if ApiStep(step) { DriftApi(st, step); }
    else if WorkerStep(step) { DriftWorker(st, step); }
  }

  lemma DriftApi(st: State, step: Step)
    requires Enabled(st, step) && ApiStep(step)
    ensures Apply(st, step).drift == st.drift + Penalty(st, step)
  {
    ApiLeaves(st, step);
    if !step.HoldNx? { hide Apply, Enabled; }
  }

  lemma DriftWorker(st: State, step: Step)
    requires Enabled(st, step) && WorkerStep(step)
    ensures Apply(st, step).drift == st.drift
  {
    if step.Transact? { TransactLeaves(st, step.r, step.fault); } else { WorkerLeaves(st, step); }
    hide DoTransact, DoDeliver, DoStore, DoFinaliseRead, DoFinaliseWrite, DoFinaliseCredit, DoCrash;
    if !step.Transact? { hide Apply; }
  }

  /** Only a failed hold of two or more seats, or a refund, moves the drift. */
  lemma PenaltyCause(st: State, step: Step)
    requires Inv(st) && Enabled(st, step) && !step.RefundKeys? && !step.RefundCount?
    ensures Penalty(st, step) >= 0
    ensures Penalty(st, step) > 0 ==>
      && step.HoldNx? && |st.flows[step.r].seats| >= 2
      && Penalty(st, step) == |Free(st.rd.keys, st.flows[step.r].seats)|
      && Apply(st, step).flows[step.r].pc.Conflict?
  {
    if step.HoldNx? {
      var seats := st.flows[step.r].seats;
      assert FlowOk(st, step.r);
      if |seats| == 1 && FreePrefix(st.rd.keys, seats) != |seats| {
        assert Free(st.rd.keys, seats) == {} by { assert seats[0] in st.rd.keys; }
      }
    }
  }

  // ---- every step keeps the balance ------------------------------------------------------------

  /** Enough to balance the books after a step of `r`. */
  lemma BalanceFlow(st: State, nu: State, r: Ref)
    requires Balanced(st) && At(st, r) && At(nu, r)
    requires nu.flows == st.flows[r := nu.flows[r]] && nu.cfg == st.cfg
    requires nu.rd.remain + Occupied(nu.rd) + Owes(nu.flows[r]) + nu.lost - nu.drift
          == st.rd.remain + Occupied(st.rd) + Owes(st.flows[r]) + st.lost - st.drift
    ensures Balanced(nu)
  {
    OwedUpdate(st.flows, r, nu.flows[r]);
  }

  lemma BalanceSubmit(st: State, seats: seq<Seat>)
    requires Balanced(st)
    ensures Balanced(DoSubmit(st, seats))
  {
    if st.rd.remain < |seats| {
      OwedAppend(st.flows, Flow(seats, Rejected, 0));
    } else {
      OwedAppend(st.flows, Flow(seats, Debited, 0));
    }
    hide Owed;
  }

  lemma OwedAppend(flows: seq<Flow>, f: Flow)
    ensures Owed(flows + [f]) == Owed(flows) + Owes(f)
  {
    assert (flows + [f])[..|flows|] == flows;
  }

  lemma BalanceHoldNx(st: State, r: Ref)
    requires Balanced(st) && At(st, r) && st.flows[r].pc.Checked? && Distinct(st.flows[r].seats)
    ensures Balanced(DoHoldNx(st, r))
  {
    var seats := st.flows[r].seats;
    SetNxCount(st.rd, seats, r);
    if FreePrefix(st.rd.keys, seats) == |seats| {
      AllFree(st.rd.keys, seats);
      ElemsCard(seats);
    }
    assert SetNx(st.rd, seats, r).remain == st.rd.remain;
    hide SetNx, Free, Distinct, Elems, Occupied;
    BalanceFlow(st, DoHoldNx(st, r), r);
  }

  lemma BalanceDrop(st: State, r: Ref)
    requires Balanced(st) && At(st, r) && st.flows[r].pc.Dropping? && st.flows[r].pc.mine <= st.rd.keys.Keys
    ensures Balanced(DoReleaseDrop(st, r))
  {
    hide Occupied;
    DropCount(st.rd, st.flows[r].pc.mine);
    BalanceFlow(st, DoReleaseDrop(st, r), r);
  }

  lemma BalanceFinish(st: State, r: Ref)
    requires Balanced(st) && At(st, r) && st.flows[r].pc.Writing? && st.flows[r].pc.mine <= st.rd.keys.Keys
    ensures Balanced(DoFinaliseWrite(st, r))
  {
    hide Occupied, Confirm;
    FinishCount(st.rd, r, st.flows[r].pc.mine, st.flows[r].pc.ok);
    BalanceFlow(st, DoFinaliseWrite(st, r), r);
  }

  lemma BalanceTransact(st: State, r: Ref, fault: Fault)
    requires Balanced(st) && At(st, r) && st.flows[r].pc.Taken?
    ensures Balanced(DoTransact(st, r, fault))
  {
    TransactOwesNothing(st, r, fault);
    BalanceFlow(st, DoTransact(st, r, fault), r);
  }

  lemma TransactOwesNothing(st: State, r: Ref, fault: Fault)
    requires At(st, r) && st.flows[r].pc.Taken?
    ensures var nu := DoTransact(st, r, fault);
      && nu.flows == st.flows[r := nu.flows[r]] && Owes(nu.flows[r]) == 0
      && nu.cfg == st.cfg && nu.rd == st.rd && nu.lost == st.lost && nu.drift == st.drift
  {
    hide Outcomes, Writes;
  }

  lemma BalanceApi(st: State, step: Step)
    requires Balanced(st) && Enabled(st, step) && ApiStep(step) && !step.HoldNx? && !step.ReleaseDrop?
    ensures Balanced(Apply(st, step))
  {
    if step.ReleaseCredit? || step.Repay? { BalanceCredit(st, step); }
    else { BalanceMove(st, step); }
  }

  lemma BalanceCredit(st: State, step: Step)
    requires Balanced(st) && Enabled(st, step) && (step.ReleaseCredit? || step.Repay?)
    ensures Balanced(Apply(st, step))
  {
    BalanceFlow(st, Apply(st, step), step.r);
  }

  lemma BalanceMove(st: State, step: Step)
    requires Balanced(st) && Enabled(st, step)
    requires step.CheckConfirmed? || step.IndexHold? || step.Enqueue? || step.EnqueueFail? || step.ReleaseRead?
    ensures Balanced(Apply(st, step))
  {
    hide AnyConfirmed, Mine, Owed, DoIndexHold, DoReleaseRead, DoCheckConfirmed, Occupied;
    match step
    case IndexHold(r) => BalanceIndex(st, r);
    case ReleaseRead(r) => BalanceReleaseRead(st, r);
    case CheckConfirmed(r) => BalanceCheck(st, r);
    case Enqueue(r) => BalanceFlow(st, SetPc(st.(marking := st.marking + {r}), r, Queued), r);
    case EnqueueFail(r) => BalanceFlow(st, SetPc(st, r, SendFailed), r);
  }

  lemma BalanceCheck(st: State, r: Ref)
    requires Balanced(st) && At(st, r) && st.flows[r].pc.Debited?
    ensures Balanced(DoCheckConfirmed(st, r))
  {
    hide AnyConfirmed, Owed, Occupied;
    BalanceFlow(st, DoCheckConfirmed(st, r), r);
  }

  lemma BalanceReleaseRead(st: State, r: Ref)
    requires Balanced(st) && At(st, r) && (st.flows[r].pc.Conflict? || st.flows[r].pc.SendFailed?)
    ensures Balanced(DoReleaseRead(st, r))
  {
    hide Mine, Owed, Occupied;
    BalanceFlow(st, DoReleaseRead(st, r), r);
  }

  lemma BalanceIndex(st: State, r: Ref)
    requires Balanced(st) && At(st, r) && st.flows[r].pc.Won?
    ensures Balanced(DoIndexHold(st, r))
  {
    hide Owed;
    BalanceFlow(st, DoIndexHold(st, r), r);
  }

  lemma BalanceWorker(st: State, step: Step)
    requires Balanced(st) && Enabled(st, step) && WorkerStep(step) && !step.Transact? && !step.FinaliseWrite?
    ensures Balanced(Apply(st, step))
  {
    match step
    case Deliver(r) => BalanceFlow(st, DoDeliver(st, r), r);
    case Store(r) => BalanceFlow(st, DoStore(st, r), r);
    case FinaliseRead(r) => BalanceReading(st, r);
    case _ => BalanceClosing(st, step);
  }

  lemma BalanceReading(st: State, r: Ref)
    requires Balanced(st) && At(st, r) && st.flows[r].pc.Finalising?
    ensures Balanced(DoFinaliseRead(st, r))
  {
    hide Mine;
    BalanceFlow(st, DoFinaliseRead(st, r), r);
  }

  lemma BalanceClosing(st: State, step: Step)
    requires Balanced(st) && Enabled(st, step) && (step.FinaliseCredit? || step.Ack? || step.Crash?)
    ensures Balanced(Apply(st, step))
  {
    BalanceFlow(st, Apply(st, step), step.r);
  }

  lemma BalanceStep(st: State, step: Step)
    requires Inv(st) && Balanced(st) && Enabled(st, step)
    ensures Balanced(Apply(st, step))
  {
    hide Live, HoldsAll, Distinct, KeyOk, ActiveOk, BookOk, PendOk;
    match step
    case Submit(seats) => BalanceSubmit(st, seats);
    case HoldNx(r) => assert FlowOk(st, r); BalanceHoldNx(st, r);
    case ReleaseDrop(r) => assert FlowOk(st, r); BalanceDrop(st, r);
    case Transact(r, fault) => BalanceTransact(st, r, fault);
    case FinaliseWrite(r) => assert FlowOk(st, r); BalanceFinish(st, r);
    case MarkQueued(r, stored) =>
    case RefundCancel(r) =>
    case RefundKeys(r) =>
    case RefundCount(r) =>
    case _ => if ApiStep(step) { BalanceApi(st, step); } else { BalanceWorker(st, step); }
  }

  // ---- runs ------------------------------------------------------------------------------------

  /** The total of what the steps of a run add to the drift. */
  function Penalties(st: State, steps: seq<Step>): int
    requires Runs(st, steps)
    decreases |steps|
  {
    if steps == [] then 0 else Penalty(st, steps[0]) + Penalties(Apply(st, steps[0]), steps[1..])
  }

  lemma {:induction false} BalanceRun(st: State, steps: seq<Step>)
    requires Inv(st) && Balanced(st) && Runs(st, steps)
    ensures Balanced(Exec(st, steps))
    ensures Exec(st, steps).drift == st.drift + Penalties(st, steps)
    decreases |steps|
  {
    hide Apply, Enabled, Benign, Inv;
    if steps != [] {
      InvStep(st, steps[0]);
      BalanceStep(st, steps[0]);
      DriftStep(st, steps[0]);
      BalanceRun(Apply(st, steps[0]), steps[1..]);
    }
  }

  /** Conservation with exact drift, from a fresh show, over every interleaving. */
  lemma Conservation(st: State, steps: seq<Step>)
    requires Init(st) && Runs(st, steps)
    ensures var end := Exec(st, steps);
      end.rd.remain + Occupied(end.rd) + Owed(end.flows) + end.lost == end.cfg.total + Penalties(st, steps)
  {
    InvInit(st);
    BalanceRun(st, steps);
  }

  ghost predicate SingleSeat(st: State) {
    forall r :: 0 <= r < |st.flows| ==> |st.flows[r].seats| == 1
  }

  /** Only single-seat requests are submitted, and no refund reaches Redis. */
  predicate SingleSteps(steps: seq<Step>) {
    forall i :: 0 <= i < |steps| ==>
      !steps[i].RefundKeys? && !steps[i].RefundCount? && (steps[i].Submit? ==> |steps[i].seats| == 1)
  }

  /** A step changes no request but its own, and never the seats of a request. */
  lemma StepSeats(st: State, step: Step)
    requires Enabled(st, step)
    ensures SameSeats(st, Apply(st, step), step)
  {
    if ApiStep(step) { ApiSeats(st, step); }
    else if WorkerStep(step) { WorkerSeats(st, step); }
  }

  predicate SameSeats(st: State, nu: State, step: Step) {
    && |nu.flows| == |st.flows| + (if step.Submit? then 1 else 0)
    && (forall r :: 0 <= r < |st.flows| ==> nu.flows[r].seats == st.flows[r].seats)
    && (step.Submit? ==> nu.flows[|st.flows|].seats == step.seats)
  }

  lemma ApiSeats(st: State, step: Step)
    requires Enabled(st, step) && ApiStep(step)
    ensures SameSeats(st, Apply(st, step), step)
  {
    hide AnyConfirmed, Mine, Free, SetNx, Index, Drop, Credit, FreePrefix;
    if step.ReleaseRead? || step.ReleaseDrop? || step.ReleaseCredit? || step.Repay? { ReleaseSameSeats(st, step); }
  }

  lemma ReleaseSameSeats(st: State, step: Step)
    requires Enabled(st, step) && (step.ReleaseRead? || step.ReleaseDrop? || step.ReleaseCredit? || step.Repay?)
    ensures SameSeats(st, Apply(st, step), step)
  {
    hide Mine, Drop, Credit;
  }

  lemma WorkerSeats(st: State, step: Step)
    requires Enabled(st, step) && WorkerStep(step)
    ensures SameSeats(st, Apply(st, step), step)
  {
    hide Outcomes, Writes, Mine, Finish, KeepsOkay, Credit, Sell, DoFinaliseRead, DoFinaliseWrite, DoFinaliseCredit;
    if step.FinaliseRead? || step.FinaliseWrite? || step.FinaliseCredit? { ClosingSameSeats(st, step); }
  }

  lemma ClosingSameSeats(st: State, step: Step)
    requires Enabled(st, step) && (step.FinaliseRead? || step.FinaliseWrite? || step.FinaliseCredit?)
    ensures SameSeats(st, Apply(st, step), step)
  {
    hide Mine, Finish, Credit;
  }

  lemma SingleStep(st: State, step: Step)
    requires SingleSeat(st) && Enabled(st, step) && (step.Submit? ==> |step.seats| == 1)
    ensures SingleSeat(Apply(st, step))
  {
    StepSeats(st, step);
  }

  lemma {:induction false} SinglePenalties(st: State, steps: seq<Step>)
    requires Inv(st) && SingleSeat(st) && Runs(st, steps) && SingleSteps(steps)
    ensures Penalties(st, steps) == 0
    decreases |steps|
  {
    if steps != [] {
      assert !steps[0].RefundKeys? && !steps[0].RefundCount?;
      PenaltyCause(st, steps[0]);
      InvStep(st, steps[0]);
      SingleStep(st, steps[0]);
      SinglePenalties(Apply(st, steps[0]), steps[1..]);
    }
  }

  /** Single-seat runs are exact: seats on sale plus seats occupied never exceed the capacity, whatever
      process died, and equal it once no debit is owed and none was lost with a worker. */
  lemma SingleSeatConservation(st: State, steps: seq<Step>)
    requires Init(st) && Runs(st, steps) && SingleSteps(steps)
    ensures var end := Exec(st, steps);
      && end.rd.remain + Occupied(end.rd) <= end.cfg.total
      && (Owed(end.flows) == 0 && end.lost == 0 <==> end.rd.remain + Occupied(end.rd) == end.cfg.total)
  {
    InvInit(st);
    Conservation(st, steps);
    SinglePenalties(st, steps);
  }
}
