/** The theater's answers and rows in terms of its tables and of the messages' texts, and who may cancel what. */
module TheaterAnswers {
  import opened SeatStore
  import opened SeatKeys
  import opened Text
  import opened Theater

  /** The row id of a seat that the message names, in the hall of its schedule. */
  ghost predicate WantsRow(db: Db, m: Message, id: nat)
    requires m.schedule in db.schedules
  {
    exists s :: Names(m.keys, s) && (db.schedules[m.schedule].hall, s) in db.hallSeats
      && db.hallSeats[(db.schedules[m.schedule].hall, s)] == id
  }

  /** The ids, if the hall has every seat: each of its seat, in order. */
  lemma {:induction false} SeatIdsAre(db: Db, hall: nat, seats: seq<Seat>)
    ensures SeatIds(db, hall, seats).Some? <==> forall i :: 0 <= i < |seats| ==> (hall, seats[i]) in db.hallSeats
    ensures SeatIds(db, hall, seats).Some? ==>
      forall i :: 0 <= i < |seats| ==> SeatIds(db, hall, seats).value[i] == db.hallSeats[(hall, seats[i])]
  {
    if seats != [] { SeatIdsAre(db, hall, seats[..|seats| - 1]); }
  }

  /** The rows a message asks for are the rows of the seats it names. */
  lemma RowsOfAre(db: Db, m: Message, r: Row)
    requires m.schedule in db.schedules && SeatIds(db, db.schedules[m.schedule].hall, ParseAll(m.keys)).Some?
    ensures r in RowsOf(db, m) <==> r.0 == m.schedule && WantsRow(db, m, r.1)
  {
    var hall, seats := db.schedules[m.schedule].hall, ParseAll(m.keys);
    SeatIdsAre(db, hall, seats);
    forall s ensures s in seats <==> Names(m.keys, s) { ParseAllNames(m.keys, s); }
    hide ParseSeat, ParseAll, SeatIds, Names;
    if r.0 == m.schedule && WantsRow(db, m, r.1) {
      var s :| Names(m.keys, s) && (hall, s) in db.hallSeats && db.hallSeats[(hall, s)] == r.1;
      var i :| 0 <= i < |seats| && seats[i] == s;
      assert (m.schedule, SeatIds(db, hall, seats).value[i]) in RowsOf(db, m);
    }
  }

  /** The hall lacks a seat that the message names. */
  ghost predicate Lacks(db: Db, m: Message)
    requires m.schedule in db.schedules
  {
    exists s :: Names(m.keys, s) && (db.schedules[m.schedule].hall, s) !in db.hallSeats
  }

  /** A row that the message asks for is ACTIVE, or it asks for one twice. */
  ghost predicate Clashes(db: Db, m: Message)
    requires m.schedule in db.schedules
  {
    || (exists id: nat :: WantsRow(db, m, id) && (m.schedule, id) in db.active)
    || AsksTwice(db, db.schedules[m.schedule].hall, ParseAll(m.keys))
  }

  ghost predicate AsksTwice(db: Db, hall: nat, seats: seq<Seat>) {
    exists i, j ::
      && 0 <= i < j < |seats| && (hall, seats[i]) in db.hallSeats && (hall, seats[j]) in db.hallSeats
      && db.hallSeats[(hall, seats[i])] == db.hallSeats[(hall, seats[j])]
  }

  /** The verdict: the schedule first, then the hall, then the count, then the rows. */
  lemma VerdictIs(db: Db, m: Message, fault: bool)
    ensures Verdict(db, m, fault) ==
      if fault then Error
      else if m.schedule !in db.schedules then NotFound
      else if Lacks(db, m) then InvalidSeat
      else if |ParseAll(m.keys)| == 0 || db.schedules[m.schedule].remain < |ParseAll(m.keys)| then SoldOut
      else if Clashes(db, m) then DuplicateSeat
      else Okay
  {
    if m.schedule in db.schedules {
      LacksIff(db, m);
      if !Lacks(db, m) { ClashesIff(db, m); }
      hide ParseAll, SeatIds, Lacks, Clashes, Rows, NoRepeat;
    }
  }

  lemma LacksIff(db: Db, m: Message)
    requires m.schedule in db.schedules
    ensures Lacks(db, m) <==> SeatIds(db, db.schedules[m.schedule].hall, ParseAll(m.keys)).None?
  {
    var hall, seats := db.schedules[m.schedule].hall, ParseAll(m.keys);
    forall s ensures s in seats <==> Names(m.keys, s) { ParseAllNames(m.keys, s); }
    SeatIdsAre(db, hall, seats);
    hide ParseAll, SeatIds, Names;
    if i :| 0 <= i < |seats| && (hall, seats[i]) !in db.hallSeats { assert Names(m.keys, seats[i]); }
  }

  lemma ClashesIff(db: Db, m: Message)
    requires m.schedule in db.schedules && SeatIds(db, db.schedules[m.schedule].hall, ParseAll(m.keys)).Some?
    ensures var ids := SeatIds(db, db.schedules[m.schedule].hall, ParseAll(m.keys)).value;
      Clashes(db, m) <==> !NoRepeat(ids) || Rows(m.schedule, ids) * db.active.Keys != {}
  {
    TwiceIff(db, db.schedules[m.schedule].hall, ParseAll(m.keys));
    MeetsIff(db, m);
    hide ParseAll, SeatIds, WantsRow, Rows, AsksTwice, NoRepeat;
  }

  lemma TwiceIff(db: Db, hall: nat, seats: seq<Seat>)
    requires SeatIds(db, hall, seats).Some?
    ensures AsksTwice(db, hall, seats) <==> !NoRepeat(SeatIds(db, hall, seats).value)
  {
    SeatIdsAre(db, hall, seats);
    hide SeatIds;
  }

  lemma MeetsIff(db: Db, m: Message)
    requires m.schedule in db.schedules && SeatIds(db, db.schedules[m.schedule].hall, ParseAll(m.keys)).Some?
    ensures var ids := SeatIds(db, db.schedules[m.schedule].hall, ParseAll(m.keys)).value;
      (exists id: nat :: WantsRow(db, m, id) && (m.schedule, id) in db.active) <==>
        Rows(m.schedule, ids) * db.active.Keys != {}
  {
    var rows := Rows(m.schedule, SeatIds(db, db.schedules[m.schedule].hall, ParseAll(m.keys)).value);
    assert rows == RowsOf(db, m);
    hide ParseAll, SeatIds, WantsRow, RowsOf, Rows;
    if id: nat :| WantsRow(db, m, id) && (m.schedule, id) in db.active {
      RowsOfAre(db, m, (m.schedule, id));
      assert (m.schedule, id) in rows * db.active.Keys;
    }
    if r :| r in rows * db.active.Keys {
      RowsOfAre(db, m, r);
      assert WantsRow(db, m, r.1) && (m.schedule, r.1) == r;
    }
  }

  /** What the refund answers, by the tables. */
  lemma RefundVerdictIs(db: Db, user: int, b: nat)
    ensures RefundVerdict(db, user, b) == NoBooking <==> b >= |db.bookings| || db.bookings[b].user != user
    ensures RefundVerdict(db, user, b) == AlreadyCancelled <==>
      b < |db.bookings| && db.bookings[b].user == user && db.bookings[b].cancelled
    ensures RefundVerdict(db, user, b) == Failed <==>
      && b < |db.bookings| && db.bookings[b].user == user && !db.bookings[b].cancelled && db.bookings[b].reg > 0
      && db.bookings[b].schedule in db.schedules
      && db.schedules[db.bookings[b].schedule].remain + db.bookings[b].reg
         > db.schedules[db.bookings[b].schedule].total
    ensures RefundVerdict(db, user, b) != Refunded ==> Refund(db, user, b) == db
  {
  }

  /** A refund cancels its booking and frees its rows, and gives its places back to its schedule. */
  lemma RefundIs(db: Db, user: int, b: nat)
    requires RefundVerdict(db, user, b) == Refunded
    ensures var nu := Refund(db, user, b);
      && |nu.bookings| == |db.bookings| && nu.bookings[b] == db.bookings[b].(cancelled := true)
      && (forall q :: 0 <= q < |db.bookings| && q != b ==> nu.bookings[q] == db.bookings[q])
      && (forall r :: r in nu.active <==> r in db.active && db.active[r] != b)
      && (forall r :: r in nu.active ==> nu.active[r] == db.active[r])
      && (forall id :: id in nu.schedules <==> id in db.schedules)
      && forall id :: id in nu.schedules ==>
        var s := db.schedules[id];
        nu.schedules[id] == if id == db.bookings[b].schedule then s.(remain := s.remain + db.bookings[b].reg) else s
  {
  }

  /** The recount, for any tables: what is left of each schedule's total beside its ACTIVE rows, but not below zero,
      and CLOSED exactly when those rows reach the total. */
  lemma RecountIs(db: Db, id: nat)
    requires id in db.schedules
    ensures var nu := Recount(db); var taken := |set r | r in db.active && r.0 == id|; var s := db.schedules[id];
      && nu.schedules.Keys == db.schedules.Keys && nu == db.(schedules := nu.schedules)
      && nu.schedules[id].hall == s.hall && nu.schedules[id].total == s.total
      && (taken <= s.total ==> nu.schedules[id].remain + taken == s.total)
      && (taken > s.total ==> nu.schedules[id].remain == 0)
      && (nu.schedules[id].status == Closed <==> taken >= s.total)
  {
  }

  /** Only the owner's refund cancels a booking. */
  lemma CancelStep(c: Cinema, step: Step, b: nat)
    requires b < |c.db.bookings|
    ensures b < |Apply(c, step).db.bookings|
    ensures Apply(c, step).db.bookings[b].user == c.db.bookings[b].user
    ensures Apply(c, step).db.bookings[b].cancelled <==>
      c.db.bookings[b].cancelled
      || (step == RefundBooking(c.db.bookings[b].user, b) && RefundVerdict(c.db, c.db.bookings[b].user, b) == Refunded)
  {
    hide Verdict, Sold, RowsOf, SeatsOf, Less;
    if step.Deliver? && step.id < |c.msgs| && step.id !in c.result && Verdict(c.db, c.msgs[step.id], step.fault).Okay? {
      FaultyIsError(c.db, c.msgs[step.id], step.fault);
    }
  }

  lemma {:induction false} BookingStays(c: Cinema, steps: seq<Step>, b: nat)
    requires b < |c.db.bookings|
    ensures b < |Exec(c, steps).db.bookings| && Exec(c, steps).db.bookings[b].user == c.db.bookings[b].user
  {
    if steps != [] {
      BookingStays(c, steps[..|steps| - 1], b);
      CancelStep(Exec(c, steps[..|steps| - 1]), steps[|steps| - 1], b);
      hide Apply;
    }
  }

  /** Over every run: a booking that was live and is cancelled at the end was refunded in between, by its owner. */
  lemma {:induction false} OwnerCancels(c: Cinema, steps: seq<Step>, b: nat)
    requires b < |c.db.bookings| && !c.db.bookings[b].cancelled
    requires b < |Exec(c, steps).db.bookings| && Exec(c, steps).db.bookings[b].cancelled
    ensures RefundBooking(c.db.bookings[b].user, b) in steps
  {
    hide Apply;
    if steps != [] {
      var before, last := steps[..|steps| - 1], steps[|steps| - 1];
      BookingStays(c, before, b);
      CancelStep(Exec(c, before), last, b);
      if Exec(c, before).db.bookings[b].cancelled {
        OwnerCancels(c, before, b);
      }
    }
  }

  /** Every booking is its message's: its user, its schedule, and as many seats as the message names. */
  ghost predicate Written(c: Cinema) {
    forall b :: 0 <= b < |c.db.bookings| ==> WrittenFor(c, b)
  }

  ghost predicate WrittenFor(c: Cinema, b: nat)
    requires b < |c.db.bookings|
  {
    var k := c.db.bookings[b];
    && k.msg < |c.msgs| && k.user == c.msgs[k.msg].user && k.schedule == c.msgs[k.msg].schedule
    && k.reg == |ParseAll(c.msgs[k.msg].keys)|
  }

  lemma WrittenStep(c: Cinema, step: Step)
    requires Written(c)
    ensures Written(Apply(c, step))
  {
    hide Verdict, Sold, RowsOf, SeatsOf, Less, ParseAll;
    var nu := Apply(c, step);
    if step.Deliver? && step.id < |c.msgs| && step.id !in c.result && Verdict(c.db, c.msgs[step.id], step.fault).Okay? {
      FaultyIsError(c.db, c.msgs[step.id], step.fault);
    }
    forall b | 0 <= b < |nu.db.bookings| ensures WrittenFor(nu, b) {
      if b < |c.db.bookings| { assert WrittenFor(c, b); }
    }
  }

  /** In every reachable state a live booking's ACTIVE rows are those of the seats its message names, and user,
      schedule and count are the message's. */
  lemma {:induction false} BookingsAreTheirMessages(c: Cinema, steps: seq<Step>)
    requires Fresh(c)
    ensures Written(Exec(c, steps))
  {
    if steps != [] {
      BookingsAreTheirMessages(c, steps[..|steps| - 1]);
      WrittenStep(Exec(c, steps[..|steps| - 1]), steps[|steps| - 1]);
      hide Apply, Written;
    }
  }

  lemma LiveRowsAre(c: Cinema, steps: seq<Step>, b: nat, r: Row)
    requires Fresh(c) && b < |Exec(c, steps).db.bookings| && !Exec(c, steps).db.bookings[b].cancelled
    ensures var end := Exec(c, steps); var k := end.db.bookings[b];
      && k.msg < |end.msgs| && end.msgs[k.msg].schedule in end.db.schedules
      && ((r in end.db.active && end.db.active[r] == b) <==>
          r.0 == end.msgs[k.msg].schedule && WantsRow(end.db, end.msgs[k.msg], r.1))
  {
    var end := Exec(c, steps);
    ServedRun(c, steps);
    assert Served(end, b) && BookingOk(end.db, b);
    var m := end.msgs[end.db.bookings[b].msg];
    hide Exec, ParseAll, SeatIds, WantsRow, Rows;
    assert r in SeatsOf(end.db.active, b) <==> r in RowsOf(end.db, m);
    var q :| q in SeatsOf(end.db.active, b);
    assert q in RowsOf(end.db, m);
    RowsOfAre(end.db, m, r);
  }
}
