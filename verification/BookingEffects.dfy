/** What the services' procedures do to the stores, as functions, and the lemmas their loops rest on. */
module BookingEffects {
  import opened SeatStore
  import opened SeatKeys
  import opened Text
  import opened BookingProtocol
  import opened BookingInvariant
  import Protocol = BookingProtocol

  /** One more step of a run. */
  lemma Advance(a: State, b: State, step: Step)
    requires Inv(b) && Reaches(a, b) && Enabled(b, step) && Benign(b, step)
    ensures Inv(Apply(b, step)) && Reaches(a, Apply(b, step))
  {
    InvStep(b, step);
    ReachNext(a, b, step);
  }

  /** `b` comes after `a`; and if all that happened was within the environment's terms, the invariant is kept
      and `b` is reached by a run. */
  ghost predicate Onward(a: State, b: State, lawful: bool) {
    Comes(a, b) && (lawful && Inv(a) ==> Inv(b) && Reaches(a, b))
  }

  lemma OnwardSelf(a: State)
    ensures Onward(a, a, true)
  {
    ReachSelf(a);
  }

  lemma OnwardStep(a: State, step: Step, lawful: bool)
    requires Enabled(a, step) && (lawful ==> Benign(a, step))
    ensures Onward(a, Apply(a, step), lawful)
  {
    ReachSelf(a);
    ComesNext(a, a, step);
    if lawful && Inv(a) { Advance(a, a, step); }
  }

  lemma OnwardTrans(a: State, b: State, c: State, first: bool, second: bool)
    requires Onward(a, b, first) && Onward(b, c, second)
    ensures Onward(a, c, first && second)
  {
    hide Inv, Reaches, Comes;
    ComesTrans(a, b, c);
    if first && second && Inv(a) { ReachTrans(a, b, c); }
  }

  lemma MineNext(keys: map<Seat, Owner>, seats: seq<Seat>, i: nat, r: Ref)
    requires Distinct(seats) && i < |seats|
    ensures Mine(keys, seats[..i + 1], r) ==
      Mine(keys, seats[..i], r) + if seats[i] in keys && keys[seats[i]] == Held(r) then {seats[i]} else {}
    ensures seats[i] !in Mine(keys, seats[..i], r)
  {
    assert seats[..i + 1] == seats[..i] + [seats[i]];
  }

  lemma FreeNext(keys: map<Seat, Owner>, seats: seq<Seat>, i: nat)
    requires Distinct(seats) && i < |seats|
    ensures Free(keys, seats[..i + 1]) == Free(keys, seats[..i]) + if seats[i] in keys then {} else {seats[i]}
    ensures seats[i] !in Free(keys, seats[..i])
  {
    assert seats[..i + 1] == seats[..i] + [seats[i]];
  }

  lemma TakeNone(keys: map<Seat, Owner>, r: Ref)
    ensures Take(keys, {}, r) == keys
  {
  }

  lemma TakeNext(keys: map<Seat, Owner>, won: set<Seat>, s: Seat, r: Ref)
    ensures Take(keys, won + {s}, r) == Take(keys, won, r)[s := Held(r)]
    ensures s in Take(keys, won, r) <==> s in keys || s in won
  {
  }

  /** A conflict's held seats are the free prefix. */
  lemma PrefixIs(keys: map<Seat, Owner>, seats: seq<Seat>, n: nat)
    requires n <= |seats| && (forall i :: 0 <= i < n ==> seats[i] !in keys) && (n < |seats| ==> seats[n] in keys)
    ensures FreePrefix(keys, seats) == n
  {
  }

  /** The fault that ends the delivery: the first that is not a deadlock, or the last deadlock allowed. */
  function LastFault(faults: seq<Fault>, retries: nat): Fault
    requires |faults| >= retries >= 1
  {
    if faults[0] != Deadlock || retries == 1 then faults[0] else LastFault(faults[1..], retries - 1)
  }

  lemma {:induction false} LastFaultAt(faults: seq<Fault>, retries: nat, n: nat)
    requires |faults| >= retries >= 1 && n < retries && forall i :: 0 <= i < n ==> faults[i] == Deadlock
    ensures faults[n] != Deadlock || n == retries - 1 ==> LastFault(faults, retries) == faults[n]
    decreases n
  {
    if n > 0 {
      LastFaultAt(faults[1..], retries - 1, n - 1);
    }
  }

  /** The database does not give up on a committed reference. */
  predicate Clean(booked: bool, faults: seq<Fault>, retries: nat)
    requires |faults| >= retries >= 1
  {
    booked ==> LastFault(faults, retries) == NoFault
  }

  /** What a worker relies on when it has taken a message. */
  lemma TakenFacts(st: State, r: Ref)
    requires Inv(st) && At(st, r) && st.flows[r].pc.Taken?
    ensures r !in st.result && Distinct(st.flows[r].seats) && (r in st.rd.meta ==> st.rd.meta[r] == st.flows[r].seats)
  {
    assert FlowOk(st, r);
  }

  lemma BookedIsAt(st: State, r: Ref)
    requires Inv(st) && r in st.book
    ensures At(st, r)
  {
  }

  /** The refund's transaction touches the tables only. */
  lemma CancelFields(st: State, r: Ref)
    ensures var nu := DoRefundCancel(st, r);
      var seats := ActiveOf(st.active, r);
      && nu.cfg == st.cfg && nu.rd == st.rd && nu.result == st.result && nu.queued == st.queued && nu.flows == st.flows
      && nu.book == st.book[r := Cancelled] && nu.active == st.active - seats
      && r in nu.pend && nu.pend[r] == Refund(seats, Left(st.cfg, |nu.active|))
  {
  }

  lemma LawfulOnward(a: State, b: State)
    requires Inv(b) && Reaches(a, b)
    ensures Onward(a, b, true) && Onward(a, b, false)
  {
    ReachComes(a, b);
  }

  /** An attempt that meets a database error writes nothing. */
  lemma FaultCases(st: State, r: Ref, fault: Fault)
    requires At(st, r) && st.flows[r].pc.Taken? && fault != NoFault
    ensures var nu := DoTransact(st, r, fault); var attempt := st.flows[r].pc.attempt;
      nu == SetPc(st, r, if fault == Deadlock && attempt < st.cfg.retries then Taken(attempt + 1)
                         else Storing(Failure(DbError)))
    ensures GivesUp(st, r, fault) <==> fault != Deadlock || st.flows[r].pc.attempt >= st.cfg.retries
  {
  }

  /** Cancelling rows keeps them within the total. */
  lemma SmallerFits(active: map<Seat, Ref>, seats: set<Seat>, total: nat)
    requires |active| <= total
    ensures |active - seats| <= total
  {
    assert (active - seats).Keys == active.Keys - seats;
    assert |active.Keys - seats| <= |active.Keys|;
  }

  lemma SameClosing(a: State, b: State, r: Ref)
    requires a.flows == b.flows
    ensures Closing(a, r) <==> Closing(b, r)
  {
  }

  /** The seat keys after the closing pipeline. */
  function Closed(keys: map<Seat, Owner>, mine: set<Seat>, ok: bool): map<Seat, Owner> {
    if ok then Confirm(keys, mine) else keys - mine
  }

  lemma ClosedNone(keys: map<Seat, Owner>, ok: bool)
    ensures Closed(keys, {}, ok) == keys
  {
    assert keys - {} == keys;
    assert Confirm(keys, {}) == keys;
  }

  lemma ClosedNext(keys: map<Seat, Owner>, mine: set<Seat>, s: Seat, ok: bool)
    ensures Closed(keys, mine + {s}, ok) ==
      if ok then Closed(keys, mine, ok)[s := Confirmed] else Closed(keys, mine, ok) - {s}
  {
    assert Confirm(keys, mine + {s}) == Confirm(keys, mine)[s := Confirmed];
    assert keys - (mine + {s}) == (keys - mine) - {s};
  }

  lemma ClosedIs(rd: Redis, mine: set<Seat>, r: Ref, ok: bool)
    ensures Finish(rd, r, mine, ok) == Redis(rd.remain, Closed(rd.keys, mine, ok), rd.hold - mine, rd.meta - {r})
  {
  }

  /** The bookings once a delivery has ended: only a first success adds a row. */
  function BookAfter(book: map<Ref, Status>, r: Ref, outcome: Outcome): map<Ref, Status> {
    if outcome == Okay && r !in book then book[r := Paid] else book
  }

  /** The ACTIVE seats once a delivery has ended. */
  function ActiveAfter(active: map<Seat, Ref>, book: map<Ref, Status>, seats: seq<Seat>, r: Ref, outcome: Outcome)
    : map<Seat, Ref>
  {
    if outcome == Okay && r !in book then Sell(active, Elems(seats), r) else active
  }

  /** A recorded result changes nothing more. */
  lemma RecordedIsDone(st: State, r: Ref)
    requires Inv(st) && At(st, r) && r in st.result
    ensures BookAfter(st.book, r, st.result[r]) == st.book
    ensures ActiveAfter(st.active, st.book, st.flows[r].seats, r, st.result[r]) == st.active
  {
    assert FlowOk(st, r);
  }

  /** Redis once the worker has closed the hold. */
  function AfterClose(rd: Redis, seats: seq<Seat>, r: Ref, ok: bool): Redis {
    var mine := Mine(rd.keys, seats, r);
    if ok then Finish(rd, r, mine, true) else Credit(Finish(rd, r, mine, false), |mine|)
  }

  /** A hold without metadata is left alone. */
  function AfterFinalize(rd: Redis, seats: seq<Seat>, r: Ref, ok: bool): Redis {
    if r in rd.meta then AfterClose(rd, seats, r, ok) else rd
  }

  /** A message whose result is recorded leaves Redis as it is. */
  function AfterDelivery(rd: Redis, result: map<Ref, Outcome>, seats: seq<Seat>, r: Ref, outcome: Outcome): Redis {
    if r in result then rd else AfterFinalize(rd, seats, r, outcome.Okay?)
  }

  /** The commit request's answers. */
  datatype CommitAnswer = BadRequest | NoSeats | BadSeatKey | GateClosed | Reserved(code: CommitCode, r: Ref)

  /** The refund's answers. */
  datatype RefundAnswer = NotFound | AlreadyCancelled | Refunded

  /** How an attempt that ends its delivery ends it. */
  function Ending(cfg: Config, seats: seq<Seat>, fault: Fault): Outcome {
    if fault != NoFault then Failure(DbError)
    else if !InGrid(cfg, seats) then Failure(InvalidSeat)
    else Okay
  }

  lemma ElemsNext(seats: seq<Seat>, i: nat)
    requires Distinct(seats) && i < |seats|
    ensures Elems(seats[..i + 1]) == Elems(seats[..i]) + {seats[i]}
    ensures seats[i] !in Elems(seats[..i])
  {
    assert seats[..i + 1] == seats[..i] + [seats[i]];
  }

  lemma SellNext(active: map<Seat, Ref>, sold: set<Seat>, s: Seat, r: Ref)
    ensures Sell(active, sold + {s}, r) == Sell(active, sold, r)[s := r]
    ensures s in Sell(active, sold, r) <==> s in active || s in sold
  {
  }

  lemma PaidSeats(st: State, r: Ref)
    requires Inv(st) && At(st, r) && st.flows[r].pc.Taken? && r in st.book
    ensures ActiveOf(st.active, r) == Elems(st.flows[r].seats)
  {
    assert FlowOk(st, r);
    PaidExactly(st, r);
  }

  lemma LiveUnsold(st: State, r: Ref)
    requires Inv(st) && At(st, r) && st.flows[r].pc.Taken? && r !in st.book
    ensures forall s :: s in st.flows[r].seats ==> s !in st.active
  {
    assert FlowOk(st, r);
    forall s | s in st.flows[r].seats ensures s !in st.active { LiveSeatsUnsold(st, r, s); }
  }

  /** The booking request's answers once it is well formed and admitted. */
  datatype CommitCode = SoldOut | Refused | SendError | QueuedUp

  /** Which answer the request gets: the counter first, then every seat key, then the queue. */
  function Reservation(rd: Redis, seats: seq<Seat>, accepts: bool): CommitCode {
    if rd.remain < |seats| then SoldOut
    else if Free(rd.keys, seats) != Elems(seats) then Refused
    else if accepts then QueuedUp
    else SendError
  }

  /** What each answer leaves in Redis. */
  function AfterCommit(rd: Redis, seats: seq<Seat>, r: Ref, code: CommitCode): Redis
    requires code == QueuedUp ==> |seats| <= rd.remain
  {
    match code
    case SoldOut => rd
    case Refused =>
      if Protocol.AnyConfirmed(rd.keys, seats) then rd
      else rd.(remain := rd.remain + FreePrefix(rd.keys, seats), keys := Take(rd.keys, Leaked(rd.keys, seats), r))
    case SendError => rd.(meta := rd.meta[r := seats])
    case QueuedUp =>
      Redis(rd.remain - |seats|, Take(rd.keys, Elems(seats), r), rd.hold + Elems(seats), rd.meta[r := seats])
  }

  lemma SoldOutKeeps(rd: Redis, seats: seq<Seat>, r: Ref)
    ensures AfterCommit(rd, seats, r, SoldOut) == rd
  {
  }

  /** A seat without a key is not in the hold set. */
  lemma UnheldSeats(st: State, seats: seq<Seat>)
    requires Inv(st)
    ensures Free(st.rd.keys, seats) !! st.rd.hold
  {
    forall s | s in st.rd.hold ensures s in st.rd.keys {
      assert s in st.rd.hold <==> Listed(st.rd, s);
    }
  }

  /** Undoing a complete hold restores everything but the metadata. */
  lemma UndoneHold(rd: Redis, seats: seq<Seat>, r: Ref)
    requires Distinct(seats) && |seats| <= rd.remain
    requires Free(rd.keys, seats) == Elems(seats) && Free(rd.keys, seats) !! rd.hold
    ensures var h := AfterCommit(rd, seats, r, QueuedUp); var mine := Mine(h.keys, seats, r);
      Credit(Drop(h, mine), |mine|) == AfterCommit(rd, seats, r, SendError)
  {
    var h := AfterCommit(rd, seats, r, QueuedUp);
    var mine := Mine(h.keys, seats, r);
    assert forall s :: s in seats ==> s in Elems(seats);
    assert mine == Elems(seats);
    ElemsCard(seats);
    assert h.keys - mine == rd.keys by {
      assert forall s :: s in mine ==> s in Free(rd.keys, seats);
    }
    assert h.hold - mine == rd.hold;
  }

  lemma NxShape(st: State, r: Ref)
    requires At(st, r)
    ensures var seats := st.flows[r].seats; var p := FreePrefix(st.rd.keys, seats); var nu := DoHoldNx(st, r);
      nu == AfterNx(st, r, if p == |seats| then Won else Conflict(seats[..p]), nu.drift)
  {
  }

  /** The NX pipeline touches the seat keys only. */
  lemma NxFields(st: State, r: Ref)
    requires At(st, r)
    ensures var nu := DoHoldNx(st, r);
      && nu.cfg == st.cfg && nu.rd == SetNx(st.rd, st.flows[r].seats, r) && nu.active == st.active && nu.book == st.book
      && nu.result == st.result && nu.queued == st.queued && |nu.flows| == |st.flows|
  {
    hide SetNx, Free;
  }

  lemma PrefixDistinct(seats: seq<Seat>, n: nat)
    requires Distinct(seats) && n <= |seats|
    ensures Distinct(seats[..n])
  {
  }

  /** What try_hold_seats leaves in Redis, by its answer. */
  function AfterHold(rd: Redis, seats: seq<Seat>, r: Ref, code: HoldCode): Redis {
    match code
    case HeldAll => Redis(rd.remain, Take(rd.keys, Elems(seats), r), rd.hold + Elems(seats), rd.meta[r := seats])
    case ConfirmedSeat => rd
    case TakenSeat => rd.(remain := rd.remain + FreePrefix(rd.keys, seats),
      keys := Take(rd.keys, Leaked(rd.keys, seats), r))
  }

  /** The rolled-back hold: the prefix is gone, and nothing of it was in the hold set. */
  lemma RolledBack(rd: Redis, seats: seq<Seat>, r: Ref)
    requires Distinct(seats)
    requires rd.hold - Elems(seats[..FreePrefix(rd.keys, seats)]) == rd.hold
    ensures var held := seats[..FreePrefix(rd.keys, seats)];
      var nx := SetNx(rd, seats, r);
      var mine := Mine(nx.keys, held, r);
      Credit(Drop(nx, mine), |mine|) == AfterHold(rd, seats, r, TakenSeat)
  {
    PrefixMine(rd, seats, r);
    NxThenDrop(rd, seats, r);
    hide Take, Leaked, Free, Mine, Elems;
  }

  datatype HoldCode = HeldAll | ConfirmedSeat | TakenSeat

  /** A confirmed seat is a taken one. */
  lemma ConfirmedTaken(keys: map<Seat, Owner>, seats: seq<Seat>)
    requires Protocol.AnyConfirmed(keys, seats)
    ensures Free(keys, seats) != Elems(seats)
  {
    var s :| s in seats && s in keys && keys[s] == Confirmed;
    assert s in Elems(seats) && s !in Free(keys, seats);
  }

  lemma FreeAll(keys: map<Seat, Owner>, seats: seq<Seat>)
    ensures FreePrefix(keys, seats) == |seats| <==> Free(keys, seats) == Elems(seats)
  {
    if FreePrefix(keys, seats) == |seats| {
      AllFree(keys, seats);
    } else {
      var s := seats[FreePrefix(keys, seats)];
      assert s in Elems(seats) && s !in Free(keys, seats);
    }
  }

  /** The seats before the first refusal are not in the hold set. */
  lemma UnheldPrefix(st: State, seats: seq<Seat>)
    requires Inv(st)
    ensures st.rd.hold - Elems(seats[..FreePrefix(st.rd.keys, seats)]) == st.rd.hold
  {
    var p := FreePrefix(st.rd.keys, seats);
    forall s | s in seats[..p] ensures s !in st.rd.hold {
      var i :| 0 <= i < p && seats[i] == s;
      assert s in st.rd.hold <==> Listed(st.rd, s);
    }
  }

  lemma EmptyRelease(rd: Redis, r: Ref)
    ensures Mine(rd.keys, [], r) == {}
    ensures Credit(Drop(rd, {}), 0) == rd
  {
    assert rd.keys - {} == rd.keys;
    assert rd.hold - {} == rd.hold;
  }
}
