/** The answers of the booking service and what they leave in the stores, seat by seat: coordinates, keys, counts
    and rows, in terms of what the stores held before. */
module BookingAnswers {
  import opened SeatStore
  import opened SeatKeys
  import opened BookingProtocol
  import opened BookingInvariant
  import opened BookingEffects
  import opened BookingTheorems

  // ---- the worker's delivery -------------------------------------------------------------------

  /** No seat outside the hall is ever sold. */
  lemma SoldInHall(st: State, steps: seq<Step>, s: Seat)
    requires Init(st) && Runs(st, steps) && s in Exec(st, steps).active
    ensures s.row <= st.cfg.rows && s.col <= st.cfg.cols
  {
    InvInit(st);
    InvRun(st, steps);
    SameConfig(st, steps);
    var end := Exec(st, steps);
    assert ActiveOk(end, s);
    assert FlowOk(end, end.active[s]);
    hide Inv, Exec, Runs;
  }

  lemma ConfigStep(st: State, step: Step)
    requires Enabled(st, step)
    ensures Apply(st, step).cfg == st.cfg
  {
    if ApiStep(step) {
      ApiLeaves(st, step);
      hide Apply, Enabled;
    } else if step.Transact? {
      TransactLeaves(st, step.r, step.fault);
      assert Apply(st, step) == DoTransact(st, step.r, step.fault);
      hide DoTransact;
    } else if WorkerStep(step) {
      WorkerLeaves(st, step);
      hide Apply, Enabled;
    }
  }

  lemma {:induction false} SameConfig(st: State, steps: seq<Step>)
    requires Goes(st, steps)
    ensures Exec(st, steps).cfg == st.cfg
    decreases |steps|
  {
    hide Apply, Enabled;
    if steps != [] {
      ConfigStep(st, steps[0]);
      SameConfig(Apply(st, steps[0]), steps[1..]);
    }
  }

  /** The attempt that decides a delivery: the first that meets no deadlock, or the last one allowed. */
  lemma {:induction false} DecidingAttempt(faults: seq<Fault>, retries: nat) returns (k: nat)
    requires |faults| >= retries >= 1
    ensures k < retries && (forall i :: 0 <= i < k ==> faults[i] == Deadlock)
    ensures faults[k] != Deadlock || k == retries - 1
    decreases retries
  {
    if faults[0] == Deadlock && retries > 1 {
      var j := DecidingAttempt(faults[1..], retries - 1);
      k := j + 1;
      assert forall i :: 0 < i < k ==> faults[i] == faults[1..][i - 1];
    } else {
      k := 0;
    }
  }

  lemma EndingIs(cfg: Config, seats: seq<Seat>, fault: Fault)
    ensures Ending(cfg, seats, fault) == Failure(DbError) <==> fault != NoFault
    ensures Ending(cfg, seats, fault) == Failure(InvalidSeat) <==>
      fault == NoFault && exists s :: s in seats && (s.row > cfg.rows || s.col > cfg.cols)
    ensures Ending(cfg, seats, fault) == Okay <==>
      fault == NoFault && forall s :: s in seats ==> s.row <= cfg.rows && s.col <= cfg.cols
  {
  }

  /** One attempt with a healthy database, for any tables: out of the hall comes first; a reference that is not
      booked sells its seats unless one is ACTIVE; a booked one is OK if its ACTIVE seats are the requested ones, a
      mismatch if only some or others are, and does not return if none is. */
  lemma AttemptIs(st: State, r: Ref)
    requires At(st, r) && st.flows[r].pc.Taken?
    ensures var seats, nu := st.flows[r].seats, DoTransact(st, r, NoFault);
      var out := exists s :: s in seats && (s.row > st.cfg.rows || s.col > st.cfg.cols);
      var some := exists s :: s in st.active && st.active[s] == r;
      var same := forall s :: s in seats <==> s in st.active && st.active[s] == r;
      var pc := nu.flows[r].pc;
      && (out ==> pc == Storing(Failure(InvalidSeat)))
      && (!out && r in st.book && same ==> pc == Storing(Okay))
      && (!out && r in st.book && !same && some ==> pc == Storing(Failure(SeatMismatch)))
      && (!out && r in st.book && !same && !some ==> pc == Unreturned)
      && (!out && r !in st.book && (forall s :: s in seats ==> s !in st.active) ==> pc == Storing(Okay))
      && (!out && r !in st.book && (exists s :: s in seats && s in st.active) ==> pc == Unreturned)
      && (out || r in st.book || pc == Unreturned ==> nu.active == st.active && nu.book == st.book)
  {
    SameSeats(st, r);
    hide ActiveOf, Elems;
  }

  lemma SameSeats(st: State, r: Ref)
    requires At(st, r)
    ensures ActiveOf(st.active, r) == Elems(st.flows[r].seats) <==>
      forall s :: s in st.flows[r].seats <==> s in st.active && st.active[s] == r
    ensures ActiveOf(st.active, r) != {} <==> exists s :: s in st.active && st.active[s] == r
  {
    if ActiveOf(st.active, r) == Elems(st.flows[r].seats) {
      forall s ensures s in st.flows[r].seats <==> s in st.active && st.active[s] == r {
        assert s in ActiveOf(st.active, r) <==> s in Elems(st.flows[r].seats);
      }
    }
    if s :| s in st.active && st.active[s] == r { assert s in ActiveOf(st.active, r); }
  }

  /** The stored result: a failure does not replace an OK, unless it is INVALID_SEAT; what is stored ends the mark. */
  lemma StoredIs(st: State, r: Ref)
    requires At(st, r) && st.flows[r].pc.Storing?
    ensures var o, nu := st.flows[r].pc.outcome, DoStore(st, r);
      var kept := o != Okay && o != Failure(InvalidSeat) && r in st.result && st.result[r] == Okay;
      && nu.result == st.result[r := if kept then Okay else o]
      && (forall q :: q in nu.queued <==> q in st.queued && (q != r || kept))
      && nu.flows[r].pc == Finalising(o == Okay)
  {
    if r in st.result && st.result[r] == Okay { assert st.result[r := Okay] == st.result; }
  }

  /** How it ends: a database error as such, else by the seats' coordinates. */
  lemma EndingAt(cfg: Config, seats: seq<Seat>, faults: seq<Fault>, retries: nat, k: nat)
    requires |faults| >= retries >= 1 && k < retries && forall i :: 0 <= i < k ==> faults[i] == Deadlock
    requires faults[k] != Deadlock || k == retries - 1
    ensures Ending(cfg, seats, LastFault(faults, retries)) ==
      if faults[k] != NoFault then Failure(DbError)
      else if exists s :: s in seats && (s.row > cfg.rows || s.col > cfg.cols) then Failure(InvalidSeat)
      else Okay
  {
    LastFaultAt(faults, retries, k);
    EndingIs(cfg, seats, faults[k]);
    hide LastFault, Ending;
  }

  /** The rows after a delivery: a first success books the reference and sells its seats to it, and nothing else
      changes. */
  lemma RowsAre(book: map<Ref, Status>, active: map<Seat, Ref>, seats: seq<Seat>, r: Ref, outcome: Outcome)
    ensures var nu := BookAfter(book, r, outcome);
      && (r in nu <==> r in book || outcome == Okay) && (r in nu && r !in book ==> nu[r] == Paid)
      && (forall q :: q in book ==> q in nu && nu[q] == book[q]) && (forall q :: q in nu && q != r ==> q in book)
    ensures var sells := outcome == Okay && r !in book;
      var nu := ActiveAfter(active, book, seats, r, outcome);
      && (forall s :: s in nu <==> s in active || (sells && s in seats))
      && (forall s :: s in nu ==> nu[s] == if sells && s in seats then r else active[s])
  {
  }

  /** Redis after a delivery: with metadata, every seat of the request whose key is still its own is confirmed, or
      freed and credited; other keys stay. Without metadata nothing changes. */
  lemma ClosedHold(rd: Redis, seats: seq<Seat>, r: Ref, ok: bool)
    ensures r !in rd.meta ==> AfterFinalize(rd, seats, r, ok) == rd
    ensures r in rd.meta ==>
      var nu := AfterFinalize(rd, seats, r, ok);
      && nu.meta == rd.meta - {r}
      && (forall s :: s in seats && s in rd.keys && rd.keys[s] == Held(r) ==>
            s !in nu.hold && if ok then s in nu.keys && nu.keys[s] == Confirmed else s !in nu.keys)
      && (forall s :: !(s in seats && s in rd.keys && rd.keys[s] == Held(r)) ==>
            (s in nu.hold <==> s in rd.hold) && (s in nu.keys <==> s in rd.keys)
            && (s in nu.keys ==> nu.keys[s] == rd.keys[s]))
      && nu.remain == rd.remain + if ok then 0 else |set s | s in seats && s in rd.keys && rd.keys[s] == Held(r)|
  {
    assert Mine(rd.keys, seats, r) == set s | s in seats && s in rd.keys && rd.keys[s] == Held(r);
  }

  // ---- the commit ------------------------------------------------------------------------------

  /** The answer: the counter decides first, then the seat keys, then the queue. */
  lemma AnswerIs(rd: Redis, seats: seq<Seat>, accepts: bool)
    ensures var code := Reservation(rd, seats, accepts);
      && (code == SoldOut <==> rd.remain < |seats|)
      && (code == Refused <==> rd.remain >= |seats| && exists s :: s in seats && s in rd.keys)
      && (code == QueuedUp <==> rd.remain >= |seats| && (forall s :: s in seats ==> s !in rd.keys) && accepts)
      && (code == SendError <==> rd.remain >= |seats| && (forall s :: s in seats ==> s !in rd.keys) && !accepts)
  {
    assert Free(rd.keys, seats) == Elems(seats) <==> forall s :: s in seats ==> s !in rd.keys by {
      if Free(rd.keys, seats) == Elems(seats) {
        forall s | s in seats ensures s !in rd.keys { assert s in Elems(seats) && s in Free(rd.keys, seats); }
      }
    }
  }

  /** A request that is queued has paid, and every one of its seats has its key, its hold mark and its metadata. */
  lemma QueuedLeaves(rd: Redis, seats: seq<Seat>, r: Ref)
    requires |seats| <= rd.remain
    ensures var nu := AfterCommit(rd, seats, r, QueuedUp);
      && nu.remain == rd.remain - |seats| && nu.meta == rd.meta[r := seats]
      && (forall s :: s in nu.keys <==> s in rd.keys || s in seats)
      && (forall s :: s in nu.keys ==> nu.keys[s] == if s in seats then Held(r) else rd.keys[s])
      && (forall s :: s in nu.hold <==> s in rd.hold || s in seats)
  {
  }

  /** Sold out leaves nothing, a request the queue did not take its metadata, and a confirmed seat nothing. */
  lemma UnplacedLeaves(rd: Redis, seats: seq<Seat>, r: Ref)
    ensures AfterCommit(rd, seats, r, SoldOut) == rd
    ensures AfterCommit(rd, seats, r, SendError) == Redis(rd.remain, rd.keys, rd.hold, rd.meta[r := seats])
    ensures (exists s :: s in seats && s in rd.keys && rd.keys[s] == Confirmed) ==>
      AfterCommit(rd, seats, r, Refused) == rd
  {
  }

  /** A request that meets a held seat first at position `p` leaves the free seats behind it locked, and the
      counter too high by the seats before it. */
  lemma RefusedLeaves(rd: Redis, seats: seq<Seat>, r: Ref, p: nat)
    requires p < |seats| && seats[p] in rd.keys && (forall i :: 0 <= i < p ==> seats[i] !in rd.keys) && Distinct(seats)
    requires forall s :: s in seats && s in rd.keys ==> rd.keys[s] != Confirmed
    ensures var nu := AfterCommit(rd, seats, r, Refused);
      && nu.remain == rd.remain + p && nu.hold == rd.hold && nu.meta == rd.meta
      && (forall s :: s in nu.keys <==> s in rd.keys || exists i :: p < i < |seats| && seats[i] == s)
      && (forall s :: s in nu.keys ==> nu.keys[s] == if s in rd.keys then rd.keys[s] else Held(r))
  {
    PrefixIs(rd.keys, seats, p);
    var nu := AfterCommit(rd, seats, r, Refused);
    assert forall i :: 0 <= i < p ==> seats[..p][i] == seats[i];
    forall s ensures s in Leaked(rd.keys, seats) <==> s !in rd.keys && exists i :: p < i < |seats| && seats[i] == s {
      if s in Leaked(rd.keys, seats) {
        var i :| 0 <= i < |seats| && seats[i] == s;
      }
    }
    hide Leaked, Distinct, FreePrefix;
  }

  // ---- the poll and the refund -----------------------------------------------------------------

  /** The poll: the stored result, else processing while the mark stands, else whether the booking was made. */
  lemma PollIs(st: State, r: Ref)
    ensures var a := Poll(st, r);
      && (a.Final? <==> r in st.result) && (a.Final? ==> a.outcome == st.result[r])
      && (a == Processing <==> r !in st.result && r in st.queued)
      && (a == Recovered <==> r !in st.result && r !in st.queued && r in st.book)
      && (a == Answer.Unknown <==> r !in st.result && r !in st.queued && r !in st.book)
  {
  }
}
