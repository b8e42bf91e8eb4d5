/** The theater procedures over the tables they update. */
module TheaterService {
  import opened SeatStore
  import opened SeatKeys
  import opened Text
  import opened Theater

  class Tables {
    const hallSeats: map<(nat, Seat), nat>
    var schedules: map<nat, Schedule>
    var bookings: seq<Booking>
    var active: map<Row, nat>
    var result: map<nat, Outcome>

    function View(): Db
      reads this
    {
      Db(hallSeats, schedules, bookings, active)
    }

    constructor (hallSeats: map<(nat, Seat), nat>, schedules: map<nat, Schedule>)
      ensures View() == Db(hallSeats, schedules, [], map[]) && result == map[]
    {
      this.hallSeats, this.schedules := hallSeats, schedules;
      bookings, active, result := [], map[], map[];
    }

    /** The worker's list of the keys that parse. */
    static method ParseKeys(keys: seq<string>) returns (seats: seq<Seat>)
      ensures seats == ParseAll(keys)
    {
      seats := [];
      hide ParseSeat;
      for i := 0 to |keys|
        invariant ParseAll(keys) == seats + ParseAll(keys[i..])
      {
        var p := ParseSeat(keys[i]);
        assert keys[i..][1..] == keys[i + 1..];
        if p.Some? {
          seats := seats + [p.value];
        }
      }
    }

    /** The loop of seat id lookups; None when the hall lacks a seat. */
    method LookUp(hall: nat, seats: seq<Seat>) returns (ids: Option<seq<nat>>)
      ensures ids == SeatIds(View(), hall, seats)
    {
      var found: seq<nat> := [];
      for i := 0 to |seats|
        invariant SeatIds(View(), hall, seats[..i]) == Some(found)
      {
        assert seats[..i + 1][..i] == seats[..i];
        if (hall, seats[i]) !in hallSeats {
          MissingStays(View(), hall, seats, i + 1);
          return None;
        }
        found := found + [hallSeats[(hall, seats[i])]];
      }
      assert seats[..|seats|] == seats;
      return Some(found);
    }

    /** The loop of seat INSERTs under the unique index. */
    method InsertSeats(b: nat, schedule: nat, ids: seq<nat>) returns (duplicate: bool, rows: map<Row, nat>)
      ensures duplicate <==> !NoRepeat(ids) || Rows(schedule, ids) * active.Keys != {}
      ensures !duplicate ==> rows == Sold(active, Rows(schedule, ids), b)
    {
      rows := active;
      assert Rows(schedule, ids[..0]) == {};
      SoldNone(active, b);
      hide Sold;
      for i := 0 to |ids|
        invariant NoRepeat(ids[..i]) && Rows(schedule, ids[..i]) !! active.Keys
        invariant rows == Sold(active, Rows(schedule, ids[..i]), b)
      {
        RowsNext(schedule, ids, i);
        SoldNext(active, Rows(schedule, ids[..i]), (schedule, ids[i]), b);
        if (schedule, ids[i]) in rows {
          Taken(active, schedule, ids, i);
          return true, rows;
        }
        rows := rows[(schedule, ids[i]) := b];
      }
      assert ids[..|ids|] == ids;
      assert Rows(schedule, ids) * active.Keys == {};
      return false, rows;
    }

    /** process_theater_booking: the transaction and the stored result; `fault` is any other exception. */
    method ProcessTheaterBooking(id: nat, m: Message, fault: bool) returns (outcome: Outcome)
      modifies this`schedules, this`bookings, this`active, this`result
      ensures outcome == Verdict(old(View()), m, fault) && View() == Book(old(View()), id, m, fault)
      ensures result == old(result)[id := outcome]
    {
      outcome := Transact(id, m, fault);
      result := result[id := outcome];
    }

    /** The transaction alone: what a worker that dies before storing its result leaves. */
    method Transact(id: nat, m: Message, fault: bool) returns (outcome: Outcome)
      modifies this`schedules, this`bookings, this`active
      ensures outcome == Verdict(old(View()), m, fault) && View() == Book(old(View()), id, m, fault)
    {
      hide ParseAll, SeatIds, Sold, Rows, NoRepeat;
      if fault {
        return Error;
      }
      var seats := ParseKeys(m.keys);
      if m.schedule !in schedules {
        return NotFound;
      }
      var s := schedules[m.schedule];
      var ids := LookUp(s.hall, seats);
      if ids.None? {
        return InvalidSeat;
      }
      var count := |seats|;
      if count == 0 || s.remain < count {
        return SoldOut;
      }
      var duplicate, rows := InsertSeats(|bookings|, m.schedule, ids.value);
      if duplicate {
        return DuplicateSeat;
      }
      s := s.(remain := s.remain - count);
      if s.remain <= 0 {
        s := s.(status := Closed);
      }
      schedules := schedules[m.schedule := s];
      bookings := bookings + [Booking(id, m.user, m.schedule, count, false)];
      active := rows;
      outcome := Okay;
    }

    /** _handle_one_sqs_message for a theater message. */
    method HandleMessage(id: nat, msgs: seq<Message>, fault: bool)
      requires id < |msgs|
      modifies this`schedules, this`bookings, this`active, this`result
      ensures Cinema(View(), msgs, result) == Apply(old(Cinema(View(), msgs, result)), Deliver(id, fault, false))
    {
      hide Verdict, Book;
      if id in result {
        return;
      }
      var outcome := ProcessTheaterBooking(id, msgs[id], fault);
    }

    /** _refund_movie_booking. */
    method RefundMovieBooking(user: int, b: nat) returns (answer: RefundAnswer)
      modifies this`schedules, this`bookings, this`active
      ensures answer == RefundVerdict(old(View()), user, b) && View() == Refund(old(View()), user, b)
      ensures answer == NoBooking <==> b >= |old(bookings)| || old(bookings)[b].user != user
      ensures answer == AlreadyCancelled <==>
        b < |old(bookings)| && old(bookings)[b].user == user && old(bookings)[b].cancelled
      ensures answer == Failed ==>
        var k := old(bookings)[b];
        k.schedule in old(schedules) && old(schedules)[k.schedule].remain + k.reg > old(schedules)[k.schedule].total
      ensures answer != Refunded ==> bookings == old(bookings) && active == old(active) && schedules == old(schedules)
      ensures answer == Refunded ==>
        && bookings == old(bookings)[b := old(bookings)[b].(cancelled := true)]
        && forall r :: r in active <==> r in old(active) && old(active)[r] != b
    {
      if b >= |bookings| || bookings[b].user != user {
        return NoBooking;
      }
      var k := bookings[b];
      if k.cancelled {
        return AlreadyCancelled;
      }
      var rows := set r | r in active && active[r] == b;
      assert rows == SeatsOf(active, b);
      hide SeatsOf;
      var counts := schedules;
      if k.reg > 0 && k.schedule in schedules {
        var s := schedules[k.schedule];
        if s.remain + k.reg > s.total {
          return Failed;
        }
        counts := schedules[k.schedule := s.(remain := s.remain + k.reg)];
      } else if k.schedule in schedules {
        assert schedules == GiveBack(schedules, k.schedule, k.reg);
      }
      bookings, active, schedules := bookings[b := k.(cancelled := true)], active - rows, counts;
      answer := Refunded;
    }

    /** The recount UPDATE, row by row. */
    method RecountSchedules()
      modifies this`schedules
      ensures View() == Recount(old(View()))
    {
      ghost var before := View();
      var left := schedules.Keys;
      var done: map<nat, Schedule> := map[];
      hide RecountOne, Seated;
      while left != {}
        invariant View() == before
        invariant left <= schedules.Keys && done.Keys == schedules.Keys - left
        invariant forall id :: id in done ==> done[id] == RecountOne(schedules[id], |Seated(active, id)|)
      {
        var id :| id in left;
        var reserved := CountSeated(id);
        var s := RecountRow(schedules[id], reserved);
        done, left := done[id := s], left - {id};
      }
      RecountIs(before, done);
      schedules := done;
    }

    method CountSeated(schedule: nat) returns (n: nat)
      ensures n == |Seated(active, schedule)|
    {
      n := |set r | r in active && r.0 == schedule|;
      assert Seated(active, schedule) == set r | r in active && r.0 == schedule;
    }

    /** One row of the UPDATE: skipped when its WHERE clause fails. */
    static method RecountRow(s: Schedule, reserved: nat) returns (nu: Schedule)
      ensures nu == RecountOne(s, reserved)
    {
      var left := if s.total - reserved > 0 then s.total - reserved else 0;
      var status := if s.total - reserved <= 0 then Closed else Open;
      nu := s;
      if reserved != 0 || s.remain != left || s.status != status {
        nu := s.(remain := left, status := status);
      }
    }
  }

  lemma RecountIs(db: Db, done: map<nat, Schedule>)
    requires done.Keys == db.schedules.Keys
    requires forall id :: id in done ==> done[id] == RecountOne(db.schedules[id], |Seated(db.active, id)|)
    ensures Recount(db) == db.(schedules := done)
  {
    hide RecountOne, Seated;
    var after := Recount(db).schedules;
    assert after.Keys == done.Keys;
    assert after == done;
  }

  lemma {:induction false} MissingStays(db: Db, hall: nat, seats: seq<Seat>, n: nat)
    requires n <= |seats| && SeatIds(db, hall, seats[..n]).None?
    ensures SeatIds(db, hall, seats).None?
    decreases |seats| - n
  {
    if n == |seats| {
      assert seats[..n] == seats;
    } else {
      assert seats[..n + 1][..n] == seats[..n];
      MissingStays(db, hall, seats, n + 1);
    }
  }

  lemma SoldNone(active: map<Row, nat>, b: nat)
    ensures Sold(active, {}, b) == active
  {
  }

  lemma SoldNext(active: map<Row, nat>, rows: set<Row>, r: Row, b: nat)
    ensures Sold(active, rows + {r}, b) == Sold(active, rows, b)[r := b]
    ensures r in Sold(active, rows, b) <==> r in active || r in rows
  {
  }

  lemma RowsNext(schedule: nat, ids: seq<nat>, i: nat)
    requires i < |ids|
    ensures Rows(schedule, ids[..i + 1]) == Rows(schedule, ids[..i]) + {(schedule, ids[i])}
    ensures (schedule, ids[i]) in Rows(schedule, ids[..i]) <==> ids[i] in ids[..i]
  {
    if ids[i] in ids[..i] {
      var j :| 0 <= j < i && ids[..i][j] == ids[i];
      assert (schedule, ids[..i][j]) in Rows(schedule, ids[..i]);
    }
  }

  lemma Taken(active: map<Row, nat>, schedule: nat, ids: seq<nat>, i: nat)
    requires i < |ids| && ((schedule, ids[i]) in active || ids[i] in ids[..i])
    ensures !NoRepeat(ids) || Rows(schedule, ids) * active.Keys != {}
  {
    assert (schedule, ids[i]) in Rows(schedule, ids);
    if (schedule, ids[i]) in active {
      assert (schedule, ids[i]) in Rows(schedule, ids) * active.Keys;
    } else {
      var j :| 0 <= j < i && ids[..i][j] == ids[i];
      assert ids[j] == ids[i];
    }
  }
}
