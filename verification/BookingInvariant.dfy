/** The invariant of the booking protocol and its preservation, one step at a time. */
module BookingInvariant {
  import opened SeatStore
  import opened BookingProtocol

  /** The request has not reached the queue. */
  predicate InApi(pc: Pc) {
    pc.Debited? || pc.Checked? || pc.Won? || pc.Conflict? || pc.SendFailed? || pc.Dropping?
    || pc.Crediting? || pc.Repaying? || pc.Rejected? || pc.Indexed?
  }

  /** The request has not written its hold metadata. */
  predicate Unindexed(pc: Pc) {
    pc.Debited? || pc.Checked? || pc.Won? || pc.Conflict? || pc.Repaying? || (pc.Dropping? && pc.repay)
    || (pc.Crediting? && pc.repay)
  }

  /** The request holds its seats and is on its way to a commit. */
  predicate Live(st: State, r: Ref)
    requires At(st, r)
  {
    var pc := st.flows[r].pc;
    (pc.Won? || pc.Indexed? || pc.Queued? || pc.Taken? || pc.Storing?) && r !in st.book && r !in st.result
  }

  ghost predicate Owns(keys: map<Seat, Owner>, s: Seat, r: Ref) {
    s in keys && (keys[s] == Held(r) || keys[s] == Confirmed)
  }

  ghost predicate HoldsAll(keys: map<Seat, Owner>, seats: seq<Seat>, r: Ref) {
    forall s :: s in seats ==> s in keys && keys[s] == Held(r)
  }

  ghost predicate PcOk(st: State, r: Ref)
    requires At(st, r)
  {
    var f := st.flows[r];
    match f.pc
    case Dropping(mine, _) => mine <= Mine(st.rd.keys, f.seats, r)
    case Taken(a) => 1 <= a <= st.cfg.retries && r !in st.result
    case Storing(o) => r !in st.result && (o.Okay? <==> r in st.book)
    case Finalising(ok) => r in st.result && (ok <==> r in st.book)
    case Writing(mine, ok) => r in st.result && (ok <==> r in st.book) && mine == Mine(st.rd.keys, f.seats, r)
    case Restoring(k) => r in st.result && r !in st.book
    case Returning => r in st.result
    case Acked => r in st.result
    case Unreturned => false
    case _ => true
  }

  ghost predicate BookOk(st: State, r: Ref)
    requires At(st, r)
  {
    var f := st.flows[r];
    && (r in st.book ==> f.writes == 1 && InGrid(st.cfg, f.seats) && !InApi(f.pc))
    && (r !in st.book ==> f.writes == 0)
    && (r in st.book && st.book[r] == Paid ==> forall s :: s in f.seats ==> s in st.active && st.active[s] == r)
    && (r in st.book && st.book[r] == Cancelled ==> r in st.result)
    && (r in st.book && st.book[r] == Cancelled && r !in st.pend ==> Mine(st.rd.keys, f.seats, r) == {})
  }

  ghost predicate PendOk(st: State, r: Ref)
    requires At(st, r)
  {
    r in st.pend ==>
      && r in st.book && st.book[r] == Cancelled
      && st.pend[r].seats == Elems(st.flows[r].seats)
      && st.pend[r].left <= st.cfg.total
      && forall s :: s in st.flows[r].seats ==> s !in st.active && Owns(st.rd.keys, s, r)
  }

  ghost predicate FlowOk(st: State, r: Ref)
    requires At(st, r)
  {
    var f := st.flows[r];
    && f.seats != [] && Distinct(f.seats)
    && (r in st.rd.meta ==> st.rd.meta[r] == f.seats && !Unindexed(f.pc))
    && (r in st.result ==> !InApi(f.pc) && (st.result[r].Okay? <==> r in st.book))
    && PcOk(st, r)
    && BookOk(st, r)
    && PendOk(st, r)
    && (Live(st, r) ==> HoldsAll(st.rd.keys, f.seats, r))
  }

  ghost predicate KeyOk(st: State, s: Seat)
    requires s in st.rd.keys
  {
    match st.rd.keys[s]
    case Held(r) => At(st, r) && s in st.flows[r].seats
    case Confirmed => s in st.active || exists r :: r in st.pend && s in st.pend[r].seats
  }

  ghost predicate ActiveOk(st: State, s: Seat)
    requires s in st.active
  {
    var r := st.active[s];
    At(st, r) && s in st.flows[r].seats && Owns(st.rd.keys, s, r) && r in st.book && st.book[r] == Paid
  }

  /** A seat is in the hold set exactly when its key is a reference whose metadata lists it. */
  ghost predicate HoldOk(rd: Redis) {
    forall s :: s in rd.hold <==> Listed(rd, s)
  }

  ghost predicate Listed(rd: Redis, s: Seat) {
    s in rd.keys && rd.keys[s].Held? && rd.keys[s].ref in rd.meta && s in rd.meta[rd.keys[s].ref]
  }

  ghost predicate Domains(st: State) {
    && st.cfg.retries >= 1
    && (forall r :: r in st.book ==> At(st, r))
    && (forall r :: r in st.result ==> At(st, r))
    && (forall r :: r in st.pend ==> At(st, r))
    && (forall r :: r in st.rd.meta ==> At(st, r))
  }

  ghost predicate FlowsOk(st: State) {
    forall r :: 0 <= r < |st.flows| ==> FlowOk(st, r)
  }

  ghost predicate KeysOk(st: State) {
    forall s :: s in st.rd.keys ==> KeyOk(st, s)
  }

  ghost predicate ActivesOk(st: State) {
    forall s :: s in st.active ==> ActiveOk(st, s)
  }

  ghost predicate PendsApart(st: State) {
    forall r, q :: r in st.pend && q in st.pend && r != q ==> st.pend[r].seats !! st.pend[q].seats
  }

  ghost predicate Inv(st: State) {
    && Domains(st) && FlowsOk(st) && KeysOk(st) && ActivesOk(st) && PendsApart(st) && HoldOk(st.rd)
  }

  // ---- frames ----------------------------------------------------------------------------------

  /** Nothing that `FlowOk` reads about `r` changed, except that more ACTIVE rows may exist elsewhere. */
  ghost predicate SameFor(st: State, nu: State, r: Ref)
    requires At(st, r) && At(nu, r)
  {
    && nu.cfg == st.cfg && nu.flows[r] == st.flows[r]
    && (r in nu.rd.meta ==> r in st.rd.meta && nu.rd.meta[r] == st.rd.meta[r])
    && (r in nu.book <==> r in st.book) && (r in st.book ==> nu.book[r] == st.book[r])
    && (r in nu.result <==> r in st.result) && (r in st.result ==> nu.result[r] == st.result[r])
    && (r in nu.pend <==> r in st.pend) && (r in st.pend ==> nu.pend[r] == st.pend[r])
    && (forall s :: s in st.flows[r].seats ==>
          ((s in nu.rd.keys && nu.rd.keys[s] == Held(r)) <==> (s in st.rd.keys && st.rd.keys[s] == Held(r))))
    && (r in nu.pend ==> forall s :: s in st.flows[r].seats ==>
          (s in nu.active ==> s in st.active) && (Owns(st.rd.keys, s, r) ==> Owns(nu.rd.keys, s, r)))
    && (forall s :: s in st.flows[r].seats && s in st.active && st.active[s] == r ==>
          s in nu.active && nu.active[s] == r)
  }

  lemma FlowFrame(st: State, nu: State, r: Ref)
    requires At(st, r) && At(nu, r)
    requires FlowOk(st, r) && SameFor(st, nu, r)
    ensures FlowOk(nu, r)
  {
    assert Mine(nu.rd.keys, st.flows[r].seats, r) == Mine(st.rd.keys, st.flows[r].seats, r);
  }

  lemma PcStep(st: State, r: Ref, pc: Pc)
    requires Inv(st) && At(st, r)
    requires FlowOk(SetPc(st, r, pc), r)
    ensures Inv(SetPc(st, r, pc))
  {
    var nu := SetPc(st, r, pc);
    hide FlowOk, HoldOk;
    forall q | 0 <= q < |nu.flows| ensures FlowOk(nu, q) {
      if q != r { FlowFrame(st, nu, q); }
    }
    forall s | s in nu.rd.keys ensures KeyOk(nu, s) { assert KeyOk(st, s); }
    forall s | s in nu.active ensures ActiveOk(nu, s) { assert ActiveOk(st, s); }
  }

  /** The invariant does not read the poll marks or the history counters. */
  lemma Bystanders(st: State, queued: set<Ref>, marking: set<Ref>, drift: int, lost: nat)
    requires Inv(st)
    ensures Inv(st.(queued := queued, marking := marking, drift := drift, lost := lost))
  {
    var nu := st.(queued := queued, marking := marking, drift := drift, lost := lost);
    forall q | 0 <= q < |nu.flows| ensures FlowOk(nu, q) { FlowFrame(st, nu, q); }
    forall s | s in nu.rd.keys ensures KeyOk(nu, s) { assert KeyOk(st, s); }
    forall s | s in nu.active ensures ActiveOk(nu, s) { assert ActiveOk(st, s); }
  }

  // ---- write-api steps -------------------------------------------------------------------------

  /** Lifts the invariant across a step of `r` from what the step does to each part of the state. */
  lemma Lift(st: State, nu: State, r: Ref)
    requires Inv(st) && |nu.flows| == |st.flows| && At(nu, r) && Domains(nu)
    requires forall q :: 0 <= q < |nu.flows| && q != r ==> SameFor(st, nu, q)
    requires FlowOk(nu, r) && KeysOk(nu) && ActivesOk(nu) && PendsApart(nu) && HoldOk(nu.rd)
    ensures Inv(nu)
  {
    forall q | 0 <= q < |nu.flows| ensures FlowOk(nu, q) {
      if q != r { FlowFrame(st, nu, q); }
    }
  }

  /** The state once a new request has been answered or debited. */
  function AfterSubmit(st: State, f: Flow, remain: nat): State {
    st.(flows := st.flows + [f], rd := st.rd.(remain := remain))
  }

  lemma InvSubmit(st: State, seats: seq<Seat>)
    requires Inv(st) && seats != [] && Distinct(seats)
    ensures Inv(DoSubmit(st, seats))
  {
    var nu := DoSubmit(st, seats);
    assert nu == AfterSubmit(st, nu.flows[|st.flows|], nu.rd.remain);
    InvAfterSubmit(st, nu.flows[|st.flows|], nu.rd.remain);
  }

  lemma InvAfterSubmit(st: State, f: Flow, remain: nat)
    requires Inv(st) && f.seats != [] && Distinct(f.seats) && (f.pc == Debited || f.pc == Rejected) && f.writes == 0
    ensures Inv(AfterSubmit(st, f, remain))
  {
    var nu := AfterSubmit(st, f, remain);
    assert FlowsOk(nu) by {
      forall q | 0 <= q < |nu.flows| ensures FlowOk(nu, q) {
        if q < |st.flows| { SubmitFlow(st, f, remain, q); } else { SubmitNew(st, f, remain); }
      }
    }
    SubmitKeys(st, f, remain);
  }

  lemma SubmitKeys(st: State, f: Flow, remain: nat)
    requires Inv(st)
    ensures var nu := AfterSubmit(st, f, remain); KeysOk(nu) && ActivesOk(nu) && HoldOk(nu.rd)
  {
    var nu := AfterSubmit(st, f, remain);
    forall s | s in nu.rd.keys ensures KeyOk(nu, s) { assert KeyOk(st, s); }
    forall s | s in nu.active ensures ActiveOk(nu, s) { assert ActiveOk(st, s); }
    forall s ensures s in nu.rd.hold <==> Listed(nu.rd, s) {
      assert s in st.rd.hold <==> Listed(st.rd, s);
    }
  }

  lemma SubmitFlow(st: State, f: Flow, remain: nat, q: Ref)
    requires Inv(st) && At(st, q)
    ensures FlowOk(AfterSubmit(st, f, remain), q)
  {
    assert FlowOk(st, q);
    FlowFrame(st, AfterSubmit(st, f, remain), q);
  }

  lemma SubmitNew(st: State, f: Flow, remain: nat)
    requires Inv(st) && f.seats != [] && Distinct(f.seats) && (f.pc == Debited || f.pc == Rejected) && f.writes == 0
    ensures FlowOk(AfterSubmit(st, f, remain), |st.flows|)
  {
    var r := |st.flows|;
    assert r !in st.book && r !in st.result && r !in st.pend && r !in st.rd.meta;
  }

  lemma InvCheckConfirmed(st: State, r: Ref)
    requires Inv(st) && At(st, r) && st.flows[r].pc.Debited?
    ensures Inv(DoCheckConfirmed(st, r))
  {
    assert FlowOk(st, r);
    PcStep(st, r, DoCheckConfirmed(st, r).flows[r].pc);
  }

  /** The state after the NX pipeline, whatever follows it. */
  function AfterNx(st: State, r: Ref, pc: Pc, drift: int): State
    requires At(st, r)
  {
    SetPc(st.(rd := SetNx(st.rd, st.flows[r].seats, r), drift := drift), r, pc)
  }

  lemma InvHoldNx(st: State, r: Ref)
    requires Inv(st) && At(st, r) && st.flows[r].pc.Checked?
    ensures Inv(DoHoldNx(st, r))
  {
    var nu := DoHoldNx(st, r);
    assert nu == AfterNx(st, r, nu.flows[r].pc, nu.drift);
    HoldNxFlow(st, r);
    InvAfterNx(st, r, nu.flows[r].pc, nu.drift);
  }

  lemma InvAfterNx(st: State, r: Ref, pc: Pc, drift: int)
    requires Inv(st) && At(st, r) && st.flows[r].pc.Checked? && FlowOk(AfterNx(st, r, pc, drift), r)
    ensures Inv(AfterNx(st, r, pc, drift))
  {
    var nu := AfterNx(st, r, pc, drift);
    HoldNxKeys(st, r, pc, drift);
    assert r !in st.rd.meta by { assert FlowOk(st, r); }
    HoldNxHold(st, r);
    forall q | 0 <= q < |st.flows| && q != r ensures SameFor(st, nu, q) {
      HoldNxSame(st, r, q, pc, drift);
    }
    Lift(st, nu, r);
  }

  lemma HoldNxFlow(st: State, r: Ref)
    requires Inv(st) && At(st, r) && st.flows[r].pc.Checked?
    ensures FlowOk(DoHoldNx(st, r), r)
  {
    var nu := DoHoldNx(st, r);
    var seats := st.flows[r].seats;
    if FreePrefix(st.rd.keys, seats) == |seats| { AllFree(st.rd.keys, seats); }
    AfterNxFlow(st, r, nu.flows[r].pc, nu.drift);
    assert nu == AfterNx(st, r, nu.flows[r].pc, nu.drift);
  }

  lemma AllFree(keys: map<Seat, Owner>, seats: seq<Seat>)
    requires FreePrefix(keys, seats) == |seats|
    ensures Free(keys, seats) == Elems(seats)
  {
    forall s | s in seats ensures s !in keys {
      var i :| 0 <= i < |seats| && seats[i] == s;
    }
  }

  lemma AfterNxFlow(st: State, r: Ref, pc: Pc, drift: int)
    requires Inv(st) && At(st, r) && st.flows[r].pc.Checked?
    requires pc.Conflict? || (pc.Won? && Free(st.rd.keys, st.flows[r].seats) == Elems(st.flows[r].seats))
    ensures FlowOk(AfterNx(st, r, pc, drift), r)
  {
    assert FlowOk(st, r);
    if pc.Won? {
      forall s | s in st.flows[r].seats ensures s in Free(st.rd.keys, st.flows[r].seats) {
        assert s in Elems(st.flows[r].seats);
      }
    }
  }

  lemma HoldNxSame(st: State, r: Ref, q: Ref, pc: Pc, drift: int)
    requires Inv(st) && At(st, r) && At(st, q) && q != r
    ensures SameFor(st, AfterNx(st, r, pc, drift), q)
  {
    assert FlowOk(st, q);
  }

  lemma HoldNxKeys(st: State, r: Ref, pc: Pc, drift: int)
    requires Inv(st) && At(st, r)
    ensures KeysOk(AfterNx(st, r, pc, drift)) && ActivesOk(AfterNx(st, r, pc, drift))
  {
    var nu := AfterNx(st, r, pc, drift);
    forall s | s in nu.rd.keys ensures KeyOk(nu, s) { if s in st.rd.keys { assert KeyOk(st, s); } }
    forall s | s in nu.active ensures ActiveOk(nu, s) { assert ActiveOk(st, s); }
  }

  lemma HoldNxHold(st: State, r: Ref)
    requires Inv(st) && At(st, r) && r !in st.rd.meta
    ensures HoldOk(SetNx(st.rd, st.flows[r].seats, r))
  {
    var nu := SetNx(st.rd, st.flows[r].seats, r);
    forall s ensures s in nu.hold <==> Listed(nu, s) {
      assert s in st.rd.hold <==> Listed(st.rd, s);
    }
  }

  lemma InvIndexHold(st: State, r: Ref)
    requires Inv(st) && At(st, r) && st.flows[r].pc.Won?
    ensures Inv(DoIndexHold(st, r))
  {
    var nu := DoIndexHold(st, r);
    assert FlowOk(nu, r) by { assert FlowOk(st, r); }
    IndexHoldKeys(st, r);
    IndexHoldHold(st, r);
    forall q | 0 <= q < |nu.flows| && q != r ensures SameFor(st, nu, q) { assert FlowOk(st, q); }
    Lift(st, nu, r);
  }

  lemma IndexHoldKeys(st: State, r: Ref)
    requires Inv(st) && At(st, r) && st.flows[r].pc.Won?
    ensures KeysOk(DoIndexHold(st, r)) && ActivesOk(DoIndexHold(st, r))
  {
    var nu := DoIndexHold(st, r);
    forall s | s in nu.rd.keys ensures KeyOk(nu, s) { assert KeyOk(st, s); }
    forall s | s in nu.active ensures ActiveOk(nu, s) { assert ActiveOk(st, s); }
  }

  lemma IndexHoldHold(st: State, r: Ref)
    requires Inv(st) && At(st, r) && st.flows[r].pc.Won?
    ensures HoldOk(DoIndexHold(st, r).rd)
  {
    var nu := DoIndexHold(st, r);
    assert FlowOk(st, r) && Live(st, r);
    forall s ensures s in nu.rd.hold <==> Listed(nu.rd, s) {
      assert s in st.rd.hold <==> Listed(st.rd, s);
      if s in st.rd.keys { assert KeyOk(st, s); }
    }
  }

  lemma InvEnqueue(st: State, r: Ref)
    requires Inv(st) && At(st, r) && st.flows[r].pc.Indexed?
    ensures Inv(Apply(st, Enqueue(r)))
  {
    assert FlowOk(st, r);
    assert FlowOk(SetPc(st, r, Queued), r) by { assert Live(st, r) || r in st.book || r in st.result; }
    PcStep(st, r, Queued);
    Bystanders(SetPc(st, r, Queued), st.queued, st.marking + {r}, st.drift, st.lost);
  }

  lemma InvReleaseRead(st: State, r: Ref)
    requires Inv(st) && At(st, r) && (st.flows[r].pc.Conflict? || st.flows[r].pc.SendFailed?)
    ensures Inv(DoReleaseRead(st, r))
  {
    assert FlowOk(st, r);
    PcStep(st, r, DoReleaseRead(st, r).flows[r].pc);
  }

  lemma InvReleaseDrop(st: State, r: Ref)
    requires Inv(st) && At(st, r) && st.flows[r].pc.Dropping?
    ensures Inv(DoReleaseDrop(st, r))
  {
    var nu := DoReleaseDrop(st, r);
    assert FlowOk(st, r);
    assert FlowOk(nu, r) by { assert r in st.rd.meta ==> !st.flows[r].pc.repay; }
    ReleaseDropKeys(st, r);
    forall q | 0 <= q < |nu.flows| && q != r ensures SameFor(st, nu, q) { assert FlowOk(st, q); }
    Lift(st, nu, r);
  }

  lemma ReleaseDropKeys(st: State, r: Ref)
    requires Inv(st) && At(st, r) && st.flows[r].pc.Dropping?
    ensures KeysOk(DoReleaseDrop(st, r)) && ActivesOk(DoReleaseDrop(st, r)) && HoldOk(DoReleaseDrop(st, r).rd)
  {
    var nu := DoReleaseDrop(st, r);
    assert FlowOk(st, r);
    forall s | s in nu.rd.keys ensures KeyOk(nu, s) { assert KeyOk(st, s); }
    forall s | s in nu.active ensures ActiveOk(nu, s) { assert ActiveOk(st, s); }
    forall s ensures s in nu.rd.hold <==> Listed(nu.rd, s) {
      assert s in st.rd.hold <==> Listed(st.rd, s);
    }
  }

  lemma InvCredit(st: State, r: Ref, k: nat, pc: Pc)
    requires Inv(st) && At(st, r)
    requires FlowOk(SetPc(st, r, pc), r)
    ensures Inv(SetPc(st.(rd := Credit(st.rd, k)), r, pc))
  {
    PcStep(st, r, pc);
    var mid := SetPc(st, r, pc);
    var nu := SetPc(st.(rd := Credit(st.rd, k)), r, pc);
    forall q | 0 <= q < |nu.flows| ensures FlowOk(nu, q) { FlowFrame(mid, nu, q); }
    forall s | s in nu.rd.keys ensures KeyOk(nu, s) { assert KeyOk(mid, s); }
    forall s | s in nu.active ensures ActiveOk(nu, s) { assert ActiveOk(mid, s); }
    forall s ensures s in nu.rd.hold <==> Listed(nu.rd, s) {
      assert s in mid.rd.hold <==> Listed(mid.rd, s);
    }
  }

  // ---- worker steps ----------------------------------------------------------------------------

  lemma InvDeliver(st: State, r: Ref)
    requires Inv(st) && At(st, r) && st.flows[r].pc.Queued?
    ensures Inv(DoDeliver(st, r))
  {
    assert FlowOk(st, r);
    assert Domains(st);
    assert FlowOk(DoDeliver(st, r), r);
    PcStep(st, r, DoDeliver(st, r).flows[r].pc);
  }

  /** A live request's seats have no ACTIVE row, so its INSERT cannot conflict. */
  lemma LiveSeatsUnsold(st: State, r: Ref, s: Seat)
    requires Inv(st) && At(st, r) && Live(st, r) && s in st.flows[r].seats
    ensures s !in st.active
    ensures forall q :: q in st.pend ==> s !in st.pend[q].seats
  {
    assert FlowOk(st, r);
    assert s in st.active ==> ActiveOk(st, s);
    forall q | q in st.pend ensures s !in st.pend[q].seats {
      assert FlowOk(st, q);
    }
  }

  lemma InvCommit(st: State, r: Ref)
    requires Inv(st) && At(st, r) && st.flows[r].pc.Taken? && r !in st.book && InGrid(st.cfg, st.flows[r].seats)
    ensures Inv(Commit(st, r))
  {
    var nu := Commit(st, r);
    assert FlowOk(st, r) && Live(st, r);
    forall s | s in st.flows[r].seats ensures s !in st.active && forall q :: q in st.pend ==> s !in st.pend[q].seats {
      LiveSeatsUnsold(st, r, s);
    }
    CommitKeys(st, r);
    CommitFlow(st, r);
    forall q | 0 <= q < |nu.flows| && q != r ensures SameFor(st, nu, q) { CommitSame(st, r, q); }
    Lift(st, nu, r);
  }

  lemma CommitFlow(st: State, r: Ref)
    requires Inv(st) && At(st, r) && st.flows[r].pc.Taken? && r !in st.book && InGrid(st.cfg, st.flows[r].seats)
    ensures FlowOk(Commit(st, r), r)
  {
    assert FlowOk(st, r);
  }

  lemma CommitSame(st: State, r: Ref, q: Ref)
    requires Inv(st) && At(st, r) && At(st, q) && q != r
    requires forall s :: s in st.flows[r].seats ==>
      s !in st.active && forall q :: q in st.pend ==> s !in st.pend[q].seats
    ensures SameFor(st, Commit(st, r), q)
  {
    assert FlowOk(st, q);
    assert q in st.pend ==> st.pend[q].seats == Elems(st.flows[q].seats);
  }

  lemma CommitKeys(st: State, r: Ref)
    requires Inv(st) && At(st, r) && HoldsAll(st.rd.keys, st.flows[r].seats, r)
    requires forall s :: s in st.flows[r].seats ==> s !in st.active
    ensures KeysOk(Commit(st, r)) && ActivesOk(Commit(st, r))
  {
    var nu := Commit(st, r);
    forall s | s in nu.rd.keys ensures KeyOk(nu, s) { assert KeyOk(st, s); }
    forall s | s in nu.active ensures ActiveOk(nu, s) { if s in st.active { assert ActiveOk(st, s); } }
  }

  /** ACTIVE rows of a paid booking are exactly the seats it asked for. */
  lemma PaidExactly(st: State, r: Ref)
    requires Inv(st) && At(st, r) && r in st.book && st.book[r] == Paid
    ensures ActiveOf(st.active, r) == Elems(st.flows[r].seats)
  {
    assert FlowOk(st, r);
    forall s | s in ActiveOf(st.active, r) ensures s in Elems(st.flows[r].seats) {
      assert ActiveOk(st, s);
    }
  }

  /** A transaction within the environment's terms never reaches the branches that do not return. */
  lemma TransactCases(st: State, r: Ref, fault: Fault)
    requires Inv(st) && At(st, r) && st.flows[r].pc.Taken? && (GivesUp(st, r, fault) ==> r !in st.book)
    ensures DoTransact(st, r, fault) ==
      if GivesUp(st, r, fault) then SetPc(st, r, Storing(Failure(DbError)))
      else if fault == Deadlock then SetPc(st, r, Taken(st.flows[r].pc.attempt + 1))
      else if !InGrid(st.cfg, st.flows[r].seats) then SetPc(st, r, Storing(Failure(InvalidSeat)))
      else if r in st.book then SetPc(st, r, Storing(Okay))
      else Commit(st, r)
  {
    assert FlowOk(st, r);
    if r in st.book {
      PaidExactly(st, r);
    } else {
      forall s | s in st.flows[r].seats ensures s !in st.active { LiveSeatsUnsold(st, r, s); }
    }
  }

  lemma InvTransact(st: State, r: Ref, fault: Fault)
    requires Inv(st) && At(st, r) && st.flows[r].pc.Taken? && (GivesUp(st, r, fault) ==> r !in st.book)
    ensures Inv(DoTransact(st, r, fault))
  {
    TransactCases(st, r, fault);
    if !GivesUp(st, r, fault) && fault != Deadlock && InGrid(st.cfg, st.flows[r].seats) && r !in st.book {
      InvCommit(st, r);
    } else {
      var pc := DoTransact(st, r, fault).flows[r].pc;
      assert FlowOk(st, r);
      TransactFlow(st, r, fault, pc);
      PcStep(st, r, pc);
    }
  }

  lemma TransactFlow(st: State, r: Ref, fault: Fault, pc: Pc)
    requires Inv(st) && At(st, r) && st.flows[r].pc.Taken?
    requires
      || (pc == Taken(st.flows[r].pc.attempt + 1) && st.flows[r].pc.attempt < st.cfg.retries)
      || (pc == Storing(Okay) && r in st.book)
      || (pc.Storing? && pc.outcome.Failure? && r !in st.book)
    ensures FlowOk(SetPc(st, r, pc), r)
  {
    assert FlowOk(st, r);
  }

  lemma InvStore(st: State, r: Ref)
    requires Inv(st) && At(st, r) && st.flows[r].pc.Storing?
    ensures Inv(DoStore(st, r))
  {
    var nu := DoStore(st, r);
    StoreFlow(st, r);
    StoreKeys(st, r);
    forall q | 0 <= q < |nu.flows| && q != r ensures SameFor(st, nu, q) { StoreSame(st, r, q); }
    hide FlowOk, KeysOk, ActivesOk, PendsApart, HoldOk, SameFor;
    Lift(st, nu, r);
  }

  lemma StoreSame(st: State, r: Ref, q: Ref)
    requires At(st, r) && st.flows[r].pc.Storing? && At(st, q) && q != r
    ensures SameFor(st, DoStore(st, r), q)
  {
  }

  lemma StoreFlow(st: State, r: Ref)
    requires Inv(st) && At(st, r) && st.flows[r].pc.Storing?
    ensures FlowOk(DoStore(st, r), r)
  {
    assert FlowOk(st, r);
  }

  lemma StoreKeys(st: State, r: Ref)
    requires Inv(st) && At(st, r) && st.flows[r].pc.Storing?
    ensures KeysOk(DoStore(st, r)) && ActivesOk(DoStore(st, r))
  {
    var nu := DoStore(st, r);
    forall s | s in nu.rd.keys ensures KeyOk(nu, s) { assert KeyOk(st, s); }
    forall s | s in nu.active ensures ActiveOk(nu, s) { assert ActiveOk(st, s); }
  }

  lemma InvFinaliseRead(st: State, r: Ref)
    requires Inv(st) && At(st, r) && st.flows[r].pc.Finalising?
    ensures Inv(DoFinaliseRead(st, r))
  {
    assert FlowOk(st, r);
    FinaliseReadFlow(st, r);
    hide Inv, FlowOk;
    PcStep(st, r, DoFinaliseRead(st, r).flows[r].pc);
  }

  lemma FinaliseReadFlow(st: State, r: Ref)
    requires At(st, r) && FlowOk(st, r) && st.flows[r].pc.Finalising?
    ensures FlowOk(DoFinaliseRead(st, r), r)
  {
  }

  lemma InvFinaliseWrite(st: State, r: Ref)
    requires Inv(st) && At(st, r) && st.flows[r].pc.Writing?
    ensures Inv(DoFinaliseWrite(st, r))
  {
    assert FlowOk(st, r);
    FinaliseWriteFlow(st, r);
    FinaliseWriteKeys(st, r);
    FinaliseWriteHold(st, r);
    forall q | 0 <= q < |st.flows| && q != r ensures SameFor(st, DoFinaliseWrite(st, r), q) {
      FinaliseWriteSame(st, r, q);
    }
    hide FlowOk, SameFor, KeysOk, ActivesOk, PendsApart, HoldOk, Finish, Mine;
    Lift(st, DoFinaliseWrite(st, r), r);
  }

  lemma FinaliseWriteFlow(st: State, r: Ref)
    requires At(st, r) && FlowOk(st, r) && st.flows[r].pc.Writing?
    ensures FlowOk(DoFinaliseWrite(st, r), r)
  {
  }

  lemma FinaliseWriteSame(st: State, r: Ref, q: Ref)
    requires Inv(st) && At(st, r) && st.flows[r].pc.Writing? && At(st, q) && q != r
    ensures SameFor(st, DoFinaliseWrite(st, r), q)
  {
    assert FlowOk(st, q) && FlowOk(st, r);
  }

  lemma FinaliseWriteKeys(st: State, r: Ref)
    requires Inv(st) && At(st, r) && st.flows[r].pc.Writing?
    ensures KeysOk(DoFinaliseWrite(st, r)) && ActivesOk(DoFinaliseWrite(st, r))
  {
    var nu := DoFinaliseWrite(st, r);
    assert FlowOk(st, r);
    forall s | s in nu.rd.keys ensures KeyOk(nu, s) { assert KeyOk(st, s); }
    forall s | s in nu.active ensures ActiveOk(nu, s) { assert ActiveOk(st, s); }
  }

  lemma FinaliseWriteHold(st: State, r: Ref)
    requires Inv(st) && At(st, r) && st.flows[r].pc.Writing?
    ensures HoldOk(DoFinaliseWrite(st, r).rd)
  {
    var nu := DoFinaliseWrite(st, r);
    assert FlowOk(st, r);
    forall s ensures s in nu.rd.hold <==> Listed(nu.rd, s) {
      assert s in st.rd.hold <==> Listed(st.rd, s);
      if s in st.rd.keys { assert KeyOk(st, s); }
    }
  }

  lemma InvCrash(st: State, r: Ref)
    requires Inv(st) && At(st, r) && Working(st.flows[r].pc)
    ensures Inv(DoCrash(st, r))
  {
    assert FlowOk(st, r);
    PcStep(st, r, Queued);
    Bystanders(SetPc(st, r, Queued), st.queued, st.marking, st.drift, DoCrash(st, r).lost);
  }

  ghost predicate Refundable(st: State, r: Ref) {
    At(st, r) && r in st.book && st.book[r] == Paid && r in st.result
  }

  // ---- refund steps ----------------------------------------------------------------------------

  lemma InvRefundCancel(st: State, r: Ref)
    requires Inv(st) && Refundable(st, r)
    ensures Inv(DoRefundCancel(st, r))
  {
    var nu := DoRefundCancel(st, r);
    CancelFlow(st, r);
    assert r !in st.pend by { assert FlowOk(st, r); }
    CancelKeys(st, r);
    CancelRest(st, r);
    forall q | 0 <= q < |st.flows| && q != r ensures SameFor(st, nu, q) { assert FlowOk(st, q); }
    Lift(st, nu, r);
  }

  lemma CancelRest(st: State, r: Ref)
    requires Inv(st) && Refundable(st, r)
    ensures ActivesOk(DoRefundCancel(st, r)) && PendsApart(DoRefundCancel(st, r)) && HoldOk(DoRefundCancel(st, r).rd)
  {
    var nu := DoRefundCancel(st, r);
    forall s | s in nu.active ensures ActiveOk(nu, s) { assert ActiveOk(st, s); }
    forall q, p | q in nu.pend && p in nu.pend && q != p ensures nu.pend[q].seats !! nu.pend[p].seats {
      if q in st.pend { assert FlowOk(st, q); }
      if p in st.pend { assert FlowOk(st, p); }
    }
    forall s ensures s in nu.rd.hold <==> Listed(nu.rd, s) {
      assert s in st.rd.hold <==> Listed(st.rd, s);
    }
  }

  lemma CancelFlow(st: State, r: Ref)
    requires Inv(st) && Refundable(st, r)
    ensures FlowOk(DoRefundCancel(st, r), r)
  {
    var nu := DoRefundCancel(st, r);
    assert FlowOk(st, r);
    PaidExactly(st, r);
    forall s | s in st.flows[r].seats ensures Owns(nu.rd.keys, s, r) { assert ActiveOk(st, s); }
  }

  lemma CancelKeys(st: State, r: Ref)
    requires Inv(st) && At(st, r) && r in st.book && r !in st.pend
    ensures KeysOk(DoRefundCancel(st, r))
  {
    var nu := DoRefundCancel(st, r);
    forall s | s in nu.rd.keys ensures KeyOk(nu, s) {
      assert KeyOk(st, s);
      if st.rd.keys[s] == Confirmed && s !in nu.active {
        if s in st.active {
          assert s in nu.pend[r].seats;
        } else {
          var q :| q in st.pend && s in st.pend[q].seats;
          assert q in nu.pend && s in nu.pend[q].seats;
        }
      }
    }
  }

  lemma InvRefundKeys(st: State, r: Ref)
    requires Inv(st) && r in st.pend && !Closing(st, r)
    ensures Inv(DoRefundKeys(st, r))
  {
    var nu := DoRefundKeys(st, r);
    assert FlowOk(st, r);
    forall q | 0 <= q < |nu.flows| ensures FlowOk(nu, q) {
      assert FlowOk(st, q);
      if q != r { KeysKeep(st, r, q); FlowFrame(st, nu, q); }
    }
    forall s | s in nu.rd.keys ensures KeyOk(nu, s) {
      assert KeyOk(st, s);
      if st.rd.keys[s] == Confirmed && s !in st.active {
        var q :| q in st.pend && s in st.pend[q].seats;
        assert q in nu.pend && s in nu.pend[q].seats;
      }
    }
    forall s | s in nu.active ensures ActiveOk(nu, s) { assert ActiveOk(st, s); }
    forall s ensures s in nu.rd.hold <==> Listed(nu.rd, s) {
      assert s in st.rd.hold <==> Listed(st.rd, s);
    }
  }

  lemma InvRefundCount(st: State, r: Ref)
    requires Inv(st) && r in st.counts
    ensures Inv(DoRefundCount(st, r))
  {
    var nu := DoRefundCount(st, r);
    forall q | 0 <= q < |nu.flows| ensures FlowOk(nu, q) { FlowFrame(st, nu, q); }
    forall s | s in nu.rd.keys ensures KeyOk(nu, s) { assert KeyOk(st, s); }
    forall s | s in nu.active ensures ActiveOk(nu, s) { assert ActiveOk(st, s); }
    forall s ensures s in nu.rd.hold <==> Listed(nu.rd, s) { assert s in st.rd.hold <==> Listed(st.rd, s); }
  }

  /** The refund deletes no key of another reference. */
  lemma KeysKeep(st: State, r: Ref, q: Ref)
    requires Inv(st) && r in st.pend && At(st, q) && q != r
    ensures SameFor(st, DoRefundKeys(st, r), q)
  {
    var nu := DoRefundKeys(st, r);
    assert FlowOk(st, r) && FlowOk(st, q);
    forall s | s in st.flows[q].seats
      ensures (s in nu.rd.keys && nu.rd.keys[s] == Held(q)) <==> (s in st.rd.keys && st.rd.keys[s] == Held(q))
    {
      if s in st.pend[r].seats { assert Owns(st.rd.keys, s, r); }
    }
    if q in st.pend {
      assert st.pend[q].seats !! st.pend[r].seats;
    }
  }

  // ---- every step, every run -------------------------------------------------------------------

  lemma InvStep(st: State, step: Step)
    requires Inv(st) && Enabled(st, step) && Benign(st, step)
    ensures Inv(Apply(st, step))
  {
    match step
    case Submit(seats) => InvSubmit(st, seats);
    case CheckConfirmed(r) => InvCheckConfirmed(st, r);
    case HoldNx(r) => InvHoldNx(st, r);
    case IndexHold(r) => InvIndexHold(st, r);
    case Enqueue(r) => InvEnqueue(st, r);
    case EnqueueFail(r) => InvPlain(st, r, SendFailed);
    case MarkQueued(r, stored) =>
      Bystanders(st, if stored then st.queued + {r} else st.queued, st.marking - {r}, st.drift, st.lost);
    case ReleaseRead(r) => InvReleaseRead(st, r);
    case ReleaseDrop(r) => InvReleaseDrop(st, r);
    case ReleaseCredit(r) => InvCreditStep(st, step, r);
    case Repay(r) => InvCreditStep(st, step, r);
    case Deliver(r) => InvDeliver(st, r);
    case Transact(r, fault) => InvTransact(st, r, fault);
    case Store(r) => InvStore(st, r);
    case FinaliseRead(r) => InvFinaliseRead(st, r);
    case FinaliseWrite(r) => InvFinaliseWrite(st, r);
    case FinaliseCredit(r) => InvCreditStep(st, step, r);
    case Ack(r) => InvPlain(st, r, Acked);
    case Crash(r) => InvCrash(st, r);
    case RefundCancel(r) => InvRefundCancel(st, r);
    case RefundKeys(r) => InvRefundKeys(st, r);
    case RefundCount(r) => InvRefundCount(st, r);
  }

  lemma InvPlain(st: State, r: Ref, pc: Pc)
    requires Inv(st) && At(st, r)
    requires (st.flows[r].pc.Indexed? && pc.SendFailed?) || (st.flows[r].pc.Returning? && pc.Acked?)
    ensures Inv(SetPc(st, r, pc))
  {
    assert FlowOk(st, r);
    PcStep(st, r, pc);
  }

  lemma InvCreditStep(st: State, step: Step, r: Ref)
    requires Inv(st) && Enabled(st, step)
    requires step == ReleaseCredit(r) || step == Repay(r) || step == FinaliseCredit(r)
    ensures Inv(Apply(st, step))
  {
    assert FlowOk(st, r);
    var pc := st.flows[r].pc;
    var next := Apply(st, step).flows[r].pc;
    assert FlowOk(SetPc(st, r, next), r);
    InvCredit(st, r, if pc.Crediting? || pc.Restoring? then pc.k else |st.flows[r].seats|, next);
  }

  lemma InvInit(st: State)
    requires Init(st)
    ensures Inv(st)
  {
  }

  /** The invariant holds after every run from a fresh show. */
  lemma {:induction false} InvRun(st: State, steps: seq<Step>)
    requires Inv(st) && Runs(st, steps)
    ensures Inv(Exec(st, steps))
    decreases |steps|
  {
    hide Apply, Enabled, Benign, Inv;
    if steps != [] {
      InvStep(st, steps[0]);
      InvRun(Apply(st, steps[0]), steps[1..]);
    }
  }
}
