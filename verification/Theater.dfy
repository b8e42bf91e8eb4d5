/** The theater's bookings, refunds and recount as transactions on its tables, and their at-least-once delivery. */
module Theater {
  import opened SeatStore
  import opened SeatKeys
  import opened Text

  datatype Status = Open | Closed
  datatype Schedule = Schedule(hall: nat, total: nat, remain: nat, status: Status)

  /** `msg`, the message that made the booking, is history only: the table has no reference column. */
  datatype Booking = Booking(msg: nat, user: int, schedule: nat, reg: nat, cancelled: bool)

  /** A seat of a schedule, by seat id. */
  type Row = (nat, nat)

  /** `active` is the unique index of ACTIVE seat rows, each with its booking; booking ids are positions. */
  datatype Db = Db(
    hallSeats: map<(nat, Seat), nat>,
    schedules: map<nat, Schedule>,
    bookings: seq<Booking>,
    active: map<Row, nat>)

  datatype Message = Message(user: int, schedule: nat, keys: seq<string>)
  datatype Outcome = Okay | NotFound | InvalidSeat | SoldOut | DuplicateSeat | Error
  datatype RefundAnswer = Refunded | NoBooking | AlreadyCancelled | Failed

  // ---- the booking transaction -----------------------------------------------------------------

  /** The ids of the seats, or None if the hall lacks one. */
  function SeatIds(db: Db, hall: nat, seats: seq<Seat>): (ids: Option<seq<nat>>)
    ensures ids.Some? ==> |ids.value| == |seats|
  {
    if seats == [] then Some([])
    else
      var before := SeatIds(db, hall, seats[..|seats| - 1]);
      var key := (hall, seats[|seats| - 1]);
      if before.None? || key !in db.hallSeats then None else Some(before.value + [db.hallSeats[key]])
  }

  predicate NoRepeat(ids: seq<nat>) {
    forall i, j :: 0 <= i < j < |ids| ==> ids[i] != ids[j]
  }

  function Rows(schedule: nat, ids: seq<nat>): set<Row> {
    set i | 0 <= i < |ids| :: (schedule, ids[i])
  }

  /** How the transaction ends; a zero count matches no row in the conditional UPDATE's changed-row count. */
  function Verdict(db: Db, m: Message, fault: bool): Outcome {
    var seats := ParseAll(m.keys);
    if fault then Error
    else if m.schedule !in db.schedules then NotFound
    else
      var s := db.schedules[m.schedule];
      var ids := SeatIds(db, s.hall, seats);
      if ids.None? then InvalidSeat
      else if |seats| == 0 || s.remain < |seats| then SoldOut
      else if !NoRepeat(ids.value) || Rows(m.schedule, ids.value) * db.active.Keys != {} then DuplicateSeat
      else Okay
  }

  /** The ACTIVE index once booking `b` has the rows. */
  function Sold(active: map<Row, nat>, rows: set<Row>, b: nat): map<Row, nat> {
    active + map r | r in rows :: b
  }

  function Less(s: Schedule, n: nat): Schedule
    requires n <= s.remain
  {
    s.(remain := s.remain - n, status := if s.remain - n <= 0 then Closed else s.status)
  }

  /** The rows of a message's booking. */
  function RowsOf(db: Db, m: Message): set<Row>
    requires m.schedule in db.schedules
  {
    var ids := SeatIds(db, db.schedules[m.schedule].hall, ParseAll(m.keys));
    if ids.None? then {} else Rows(m.schedule, ids.value)
  }

  /** What a successful transaction commits. */
  function Booked(db: Db, id: nat, m: Message): Db
    requires Verdict(db, m, false).Okay?
  {
    var n := |ParseAll(m.keys)|;
    db.(schedules := db.schedules[m.schedule := Less(db.schedules[m.schedule], n)],
        bookings := db.bookings + [Booking(id, m.user, m.schedule, n, false)],
        active := Sold(db.active, RowsOf(db, m), |db.bookings|))
  }

  function Book(db: Db, id: nat, m: Message, fault: bool): Db {
    if Verdict(db, m, fault).Okay? then Booked(db, id, m) else db
  }

  // ---- refund and recount ----------------------------------------------------------------------

  function SeatsOf(active: map<Row, nat>, b: nat): set<Row> {
    set r | r in active && active[r] == b
  }

  /** The table's CHECK rejects a count above the total. */
  function RefundVerdict(db: Db, user: int, b: nat): RefundAnswer {
    if b >= |db.bookings| || db.bookings[b].user != user then NoBooking
    else if db.bookings[b].cancelled then AlreadyCancelled
    else
      var k := db.bookings[b];
      if k.reg > 0 && k.schedule in db.schedules
         && db.schedules[k.schedule].remain + k.reg > db.schedules[k.schedule].total then Failed
      else Refunded
  }

  function GiveBack(schedules: map<nat, Schedule>, id: nat, n: nat): map<nat, Schedule>
    requires id in schedules
  {
    schedules[id := schedules[id].(remain := schedules[id].remain + n)]
  }

  /** The refund's transaction; it leaves the schedule's status as it is. */
  function Refund(db: Db, user: int, b: nat): Db {
    if !RefundVerdict(db, user, b).Refunded? then db
    else
      var k := db.bookings[b];
      db.(bookings := db.bookings[b := k.(cancelled := true)],
          active := db.active - SeatsOf(db.active, b),
          schedules := if k.schedule in db.schedules then GiveBack(db.schedules, k.schedule, k.reg) else db.schedules)
  }

  function Seated(active: map<Row, nat>, schedule: nat): set<Row> {
    set r | r in active && r.0 == schedule
  }

  function RecountOne(s: Schedule, reserved: nat): Schedule {
    var left := if reserved <= s.total then s.total - reserved else 0;
    var status := if s.total <= reserved then Closed else Open;
    if reserved != 0 || s.remain != left || s.status != status then s.(remain := left, status := status) else s
  }

  /** The recount UPDATE over all schedules. */
  function Recount(db: Db): Db {
    db.(schedules := map id | id in db.schedules :: RecountOne(db.schedules[id], |Seated(db.active, id)|))
  }

  // ---- runs ------------------------------------------------------------------------------------

  datatype Cinema = Cinema(db: Db, msgs: seq<Message>, result: map<nat, Outcome>)

  datatype Step =
    | Send(m: Message)
    | Deliver(id: nat, fault: bool, dies: bool)   // a worker that dies after its commit stores no result
    | RefundBooking(user: int, b: nat)
    | RecountAll

  function Apply(c: Cinema, step: Step): Cinema {
    match step
    case Send(m) => c.(msgs := c.msgs + [m])
    case Deliver(id, fault, dies) =>
      if id >= |c.msgs| || id in c.result then c
      else
        var nu := c.(db := Book(c.db, id, c.msgs[id], fault));
        if dies then nu else nu.(result := c.result[id := Verdict(c.db, c.msgs[id], fault)])
    case RefundBooking(user, b) => c.(db := Refund(c.db, user, b))
    case RecountAll => c.(db := Recount(c.db))
  }

  function Exec(c: Cinema, steps: seq<Step>): Cinema {
    if steps == [] then c else Apply(Exec(c, steps[..|steps| - 1]), steps[|steps| - 1])
  }

  // ---- the invariant ---------------------------------------------------------------------------

  /** The remaining count and the ACTIVE seats of every schedule add up to its total. */
  ghost predicate Balanced(db: Db) {
    forall id :: id in db.schedules ==> db.schedules[id].remain + |Seated(db.active, id)| == db.schedules[id].total
  }

  ghost predicate BookingOk(db: Db, b: nat)
    requires b < |db.bookings|
  {
    var k := db.bookings[b];
    && k.reg > 0 && k.schedule in db.schedules
    && |SeatsOf(db.active, b)| == (if k.cancelled then 0 else k.reg)
    && (forall r :: r in SeatsOf(db.active, b) ==> r.0 == k.schedule)
  }

  ghost predicate DbOk(db: Db) {
    && Balanced(db)
    && (forall b :: 0 <= b < |db.bookings| ==> BookingOk(db, b))
    && (forall r :: r in db.active ==> db.active[r] < |db.bookings|)
  }

  /** No booking yet, and every count at its total. */
  predicate Fresh(c: Cinema) {
    && c.db.bookings == [] && c.db.active == map[] && c.result == map[] && c.msgs == []
    && forall id :: id in c.db.schedules ==> c.db.schedules[id].remain == c.db.schedules[id].total
  }

  lemma {:induction false} RowsCard(schedule: nat, ids: seq<nat>)
    requires NoRepeat(ids)
    ensures |Rows(schedule, ids)| == |ids|
  {
    if ids != [] {
      var n := |ids| - 1;
      RowsCard(schedule, ids[..n]);
      assert Rows(schedule, ids) == Rows(schedule, ids[..n]) + {(schedule, ids[n])};
    }
  }

  /** Selling free rows adds them to the schedule and to the booking, and to no other. */
  lemma SoldCounts(active: map<Row, nat>, rows: set<Row>, b: nat, schedule: nat)
    requires rows !! active.Keys && (forall r :: r in rows ==> r.0 == schedule)
    requires forall r :: r in active ==> active[r] != b
    ensures var nu := Sold(active, rows, b);
      && |Seated(nu, schedule)| == |Seated(active, schedule)| + |rows| && SeatsOf(nu, b) == rows
      && (forall id :: id != schedule ==> Seated(nu, id) == Seated(active, id))
      && (forall q :: q != b ==> SeatsOf(nu, q) == SeatsOf(active, q))
  {
    var nu := Sold(active, rows, b);
    SoldMembers(active, rows, b);
    hide Sold;
    assert Seated(nu, schedule) == Seated(active, schedule) + rows;
    forall id | id != schedule ensures Seated(nu, id) == Seated(active, id) {}
    forall q | q != b ensures SeatsOf(nu, q) == SeatsOf(active, q) {}
  }

  lemma SoldMembers(active: map<Row, nat>, rows: set<Row>, b: nat)
    requires rows !! active.Keys
    ensures var nu := Sold(active, rows, b);
      && (forall r :: r in nu <==> r in active || r in rows)
      && (forall r :: r in rows ==> nu[r] == b) && (forall r :: r in active ==> nu[r] == active[r])
  {
  }

  /** Cancelling a booking takes its seats from its schedule, and from no other. */
  lemma CancelCounts(active: map<Row, nat>, b: nat, schedule: nat)
    requires forall r :: r in SeatsOf(active, b) ==> r.0 == schedule
    ensures var nu := active - SeatsOf(active, b);
      && |Seated(nu, schedule)| + |SeatsOf(active, b)| == |Seated(active, schedule)| && SeatsOf(nu, b) == {}
      && (forall id :: id != schedule ==> Seated(nu, id) == Seated(active, id))
      && (forall q :: q != b ==> SeatsOf(nu, q) == SeatsOf(active, q))
  {
    var gone := SeatsOf(active, b);
    var nu := active - gone;
    assert Seated(active, schedule) == Seated(nu, schedule) + gone;
    forall id | id != schedule ensures Seated(nu, id) == Seated(active, id) {}
    forall q | q != b ensures SeatsOf(nu, q) == SeatsOf(active, q) {}
  }

  /** The rows a successful transaction sells: free, of its schedule, as many as requested. */
  lemma RowsAreFree(db: Db, m: Message)
    requires Verdict(db, m, false).Okay?
    ensures RowsOf(db, m) !! db.active.Keys && (forall r :: r in RowsOf(db, m) ==> r.0 == m.schedule)
    ensures |RowsOf(db, m)| == |ParseAll(m.keys)| && 0 < |ParseAll(m.keys)| <= db.schedules[m.schedule].remain
  {
    var ids := SeatIds(db, db.schedules[m.schedule].hall, ParseAll(m.keys)).value;
    RowsCard(m.schedule, ids);
    var rows := RowsOf(db, m);
    assert rows == Rows(m.schedule, ids);
    hide SeatIds, ParseAll, NoRepeat, RowsOf;
    assert forall r :: r in rows * db.active.Keys <==> r in rows && r in db.active;
  }

  lemma BookCounts(db: Db, id: nat, m: Message)
    requires DbOk(db) && Verdict(db, m, false).Okay?
    ensures var nu, b := Booked(db, id, m), |db.bookings|;
      && |Seated(nu.active, m.schedule)| == |Seated(db.active, m.schedule)| + |ParseAll(m.keys)|
      && SeatsOf(nu.active, b) == RowsOf(db, m)
      && (forall s :: s != m.schedule ==> Seated(nu.active, s) == Seated(db.active, s))
      && (forall q :: q != b ==> SeatsOf(nu.active, q) == SeatsOf(db.active, q))
  {
    RowsAreFree(db, m);
    hide RowsOf, ParseAll, Verdict;
    SoldCounts(db.active, RowsOf(db, m), |db.bookings|, m.schedule);
  }

  lemma BookKeeps(db: Db, id: nat, m: Message)
    requires DbOk(db) && Verdict(db, m, false).Okay?
    ensures DbOk(Booked(db, id, m))
  {
    BookBalances(db, id, m);
    BookBookings(db, id, m);
    hide Verdict, ParseAll, RowsOf, Seated, SeatsOf, Sold, Balanced, BookingOk;
    SoldOwners(db.active, RowsOf(db, m), |db.bookings|);
  }

  lemma BookBalances(db: Db, id: nat, m: Message)
    requires DbOk(db) && Verdict(db, m, false).Okay?
    ensures Balanced(Booked(db, id, m))
  {
    RowsAreFree(db, m);
    BookCounts(db, id, m);
    hide Verdict, ParseAll, RowsOf, Seated, SeatsOf, Sold, BookingOk;
  }

  lemma BookBookings(db: Db, id: nat, m: Message)
    requires DbOk(db) && Verdict(db, m, false).Okay?
    ensures forall b :: 0 <= b < |Booked(db, id, m).bookings| ==> BookingOk(Booked(db, id, m), b)
  {
    var nu := Booked(db, id, m);
    BookNew(db, id, m);
    BookCounts(db, id, m);
    hide Verdict, ParseAll, RowsOf, Seated, SeatsOf, Sold, Balanced, Less;
    forall q | 0 <= q < |db.bookings| ensures BookingOk(nu, q) { assert BookingOk(db, q); }
  }

  lemma BookNew(db: Db, id: nat, m: Message)
    requires DbOk(db) && Verdict(db, m, false).Okay?
    ensures BookingOk(Booked(db, id, m), |db.bookings|)
  {
    RowsAreFree(db, m);
    BookCounts(db, id, m);
    hide Verdict, ParseAll, RowsOf, Seated, SeatsOf, Sold, Balanced, DbOk, Less;
  }

  lemma SoldOwners(active: map<Row, nat>, rows: set<Row>, b: nat)
    requires forall r :: r in active ==> active[r] < b
    ensures forall r :: r in Sold(active, rows, b) ==> Sold(active, rows, b)[r] < b + 1
  {
  }

  lemma RefundKeeps(db: Db, user: int, b: nat)
    requires DbOk(db)
    ensures DbOk(Refund(db, user, b))
  {
    if RefundVerdict(db, user, b).Refunded? {
      var nu, k := Refund(db, user, b), db.bookings[b];
      assert BookingOk(db, b);
      CancelCounts(db.active, b, k.schedule);
      hide Seated, SeatsOf;
      forall q | 0 <= q < |nu.bookings| ensures BookingOk(nu, q) { assert BookingOk(db, q); }
    }
  }

  /** The recount changes no remaining count, and corrects the status. */
  lemma RecountKeepsRemain(db: Db, id: nat)
    requires Balanced(db) && id in db.schedules
    ensures var s := Recount(db).schedules[id];
      s == db.schedules[id].(status := if db.schedules[id].remain == 0 then Closed else Open)
  {
    hide Seated;
  }

  lemma RecountKeeps(db: Db)
    requires DbOk(db)
    ensures DbOk(Recount(db))
  {
    forall id | id in db.schedules ensures Recount(db).schedules[id].remain == db.schedules[id].remain {
      RecountKeepsRemain(db, id);
    }
    hide Seated, SeatsOf;
    forall q | 0 <= q < |db.bookings| ensures BookingOk(Recount(db), q) { assert BookingOk(db, q); }
  }

  lemma DbStep(c: Cinema, step: Step)
    requires DbOk(c.db)
    ensures DbOk(Apply(c, step).db)
  {
    match step
    case Send(_) =>
    case Deliver(id, fault, _) =>
      if id < |c.msgs| && Verdict(c.db, c.msgs[id], fault).Okay? { BookKeeps(c.db, id, c.msgs[id]); }
    case RefundBooking(user, b) => RefundKeeps(c.db, user, b);
    case RecountAll => RecountKeeps(c.db);
  }

  /** Over bookings, crashes, redeliveries, refunds and recounts: every count balances, and every booking that
      is not cancelled has exactly as many ACTIVE seats as it registered. */
  lemma {:induction false} Conservation(c: Cinema, steps: seq<Step>)
    requires Fresh(c)
    ensures DbOk(Exec(c, steps).db)
  {
    if steps == [] {
      forall id | id in c.db.schedules ensures Seated(c.db.active, id) == {} {}
    } else {
      Conservation(c, steps[..|steps| - 1]);
      DbStep(Exec(c, steps[..|steps| - 1]), steps[|steps| - 1]);
    }
  }

  /** So no refund trips the table's CHECK. */
  lemma RefundNeverFails(c: Cinema, steps: seq<Step>, user: int, b: nat)
    requires Fresh(c)
    ensures !RefundVerdict(Exec(c, steps).db, user, b).Failed?
  {
    var db := Exec(c, steps).db;
    Conservation(c, steps);
    if b < |db.bookings| && !db.bookings[b].cancelled {
      assert BookingOk(db, b);
      CancelCounts(db.active, b, db.bookings[b].schedule);
    }
  }

  /** A refund right after its booking puts every count and every ACTIVE row back as it was. */
  lemma RefundUndoesBooking(db: Db, id: nat, m: Message)
    requires DbOk(db) && Verdict(db, m, false).Okay?
    ensures var b := |db.bookings|; var end := Refund(Booked(db, id, m), m.user, b);
      && end.active == db.active
      && end.bookings == db.bookings + [Booking(id, m.user, m.schedule, |ParseAll(m.keys)|, true)]
      && forall s :: s in db.schedules ==> s in end.schedules && end.schedules[s].remain == db.schedules[s].remain
  {
    var b, mid := |db.bookings|, Booked(db, id, m);
    JustBooked(db, id, m);
    UnsoldAgain(db.active, RowsOf(db, m), b);
    hide Less, Seated, SeatsOf, Sold, RowsOf, ParseAll, Verdict, DbOk, BookingOk;
    assert mid.bookings[b := mid.bookings[b].(cancelled := true)]
        == db.bookings + [Booking(id, m.user, m.schedule, |ParseAll(m.keys)|, true)];
  }

  lemma JustBooked(db: Db, id: nat, m: Message)
    requires DbOk(db) && Verdict(db, m, false).Okay?
    ensures var b, mid := |db.bookings|, Booked(db, id, m);
      && RefundVerdict(mid, m.user, b).Refunded? && SeatsOf(mid.active, b) == RowsOf(db, m)
      && RowsOf(db, m) !! db.active.Keys
      && m.schedule in mid.schedules
      && mid.schedules[m.schedule].remain + |ParseAll(m.keys)| == db.schedules[m.schedule].remain
  {
    var b, mid := |db.bookings|, Booked(db, id, m);
    BookKeeps(db, id, m);
    BookCounts(db, id, m);
    RowsAreFree(db, m);
    hide Seated, SeatsOf, Sold, RowsOf, ParseAll, Verdict, BookingOk;
    assert mid.schedules[m.schedule].remain + |ParseAll(m.keys)| <= mid.schedules[m.schedule].total;
  }

  lemma UnsoldAgain(active: map<Row, nat>, rows: set<Row>, b: nat)
    requires rows !! active.Keys
    ensures Sold(active, rows, b) - rows == active
  {
  }

  /** The schedule is closed exactly when nothing is left. */
  predicate StatusRight(db: Db, id: nat)
    requires id in db.schedules
  {
    db.schedules[id].status == Closed <==> db.schedules[id].remain == 0
  }

  /** A successful refund of a booking of a closed schedule. */
  predicate RefundsClosed(c: Cinema, step: Step, id: nat) {
    && step.RefundBooking? && RefundVerdict(c.db, step.user, step.b).Refunded?
    && c.db.bookings[step.b].schedule == id && id in c.db.schedules && c.db.schedules[id].status == Closed
  }

  /** Every step keeps a right status right, except such a refund, and that one never does. */
  lemma StatusIff(c: Cinema, step: Step, id: nat)
    requires DbOk(c.db) && id in c.db.schedules && StatusRight(c.db, id)
    ensures id in Apply(c, step).db.schedules
    ensures StatusRight(Apply(c, step).db, id) <==> !RefundsClosed(c, step, id)
  {
    hide RowsOf, Sold, SeatsOf, ParseAll, SeatIds, Seated;
    match step
    case Send(_) =>
    case Deliver(i, fault, _) =>
      if i < |c.msgs| && Verdict(c.db, c.msgs[i], fault).Okay? {
        FaultyIsError(c.db, c.msgs[i], fault);
        RowsAreFree(c.db, c.msgs[i]);
      }
    case RefundBooking(user, b) => if RefundVerdict(c.db, user, b).Refunded? { assert BookingOk(c.db, b); }
    case RecountAll => RecountKeepsRemain(c.db, id);
  }

  lemma ExecNext(c: Cinema, steps: seq<Step>, n: nat)
    requires n < |steps|
    ensures Exec(c, steps[..n + 1]) == Apply(Exec(c, steps[..n]), steps[n])
  {
    assert steps[..n + 1][..n] == steps[..n];
  }

  lemma StatusNext(c: Cinema, steps: seq<Step>, id: nat, n: nat)
    requires Fresh(c) && n < |steps| && id in Exec(c, steps[..n]).db.schedules
    requires StatusRight(Exec(c, steps[..n]).db, id)
    ensures id in Exec(c, steps[..n + 1]).db.schedules
    ensures StatusRight(Exec(c, steps[..n + 1]).db, id) <==> !RefundsClosed(Exec(c, steps[..n]), steps[n], id)
  {
    hide Exec, DbOk, StatusRight, RefundsClosed, Apply;
    ExecNext(c, steps, n);
    Conservation(c, steps[..n]);
    StatusIff(Exec(c, steps[..n]), steps[n], id);
  }

  lemma {:induction false} SchedulesStay(c: Cinema, steps: seq<Step>, id: nat)
    requires id in c.db.schedules
    ensures id in Exec(c, steps).db.schedules
  {
    if steps != [] {
      SchedulesStay(c, steps[..|steps| - 1], id);
      KeepsSchedule(Exec(c, steps[..|steps| - 1]), steps[|steps| - 1], id);
      hide Apply;
    }
  }

  lemma {:induction false} StatusUpTo(c: Cinema, steps: seq<Step>, id: nat, n: nat)
    requires Fresh(c) && id in c.db.schedules && StatusRight(c.db, id) && n <= |steps|
    requires forall i :: 0 <= i < n ==> !RefundsClosed(Exec(c, steps[..i]), steps[i], id)
    ensures id in Exec(c, steps[..n]).db.schedules && StatusRight(Exec(c, steps[..n]).db, id)
    decreases n
  {
    if n > 0 {
      hide Exec, StatusRight, RefundsClosed, Fresh;
      StatusUpTo(c, steps, id, n - 1);
      StatusNext(c, steps, id, n - 1);
    }
  }

  /** So the status is right all along a run if and only if no booking of a closed schedule is refunded in it. */
  lemma StatusRunIff(c: Cinema, steps: seq<Step>, id: nat)
    requires Fresh(c) && id in c.db.schedules && StatusRight(c.db, id)
    ensures forall n :: 0 <= n <= |steps| ==> id in Exec(c, steps[..n]).db.schedules
    ensures (forall n :: 0 <= n <= |steps| ==> StatusRight(Exec(c, steps[..n]).db, id)) <==>
      (forall n :: 0 <= n < |steps| ==> !RefundsClosed(Exec(c, steps[..n]), steps[n], id))
  {
    hide Exec, StatusRight, RefundsClosed, Fresh;
    forall n | 0 <= n <= |steps| ensures id in Exec(c, steps[..n]).db.schedules { SchedulesStay(c, steps[..n], id); }
    if forall n :: 0 <= n < |steps| ==> !RefundsClosed(Exec(c, steps[..n]), steps[n], id) {
      forall n | 0 <= n <= |steps| ensures StatusRight(Exec(c, steps[..n]).db, id) { StatusUpTo(c, steps, id, n); }
    }
    if forall n :: 0 <= n <= |steps| ==> StatusRight(Exec(c, steps[..n]).db, id) {
      forall n | 0 <= n < |steps| ensures !RefundsClosed(Exec(c, steps[..n]), steps[n], id) {
        StatusNext(c, steps, id, n);
      }
    }
  }

  lemma KeepsSchedule(c: Cinema, step: Step, id: nat)
    requires id in c.db.schedules
    ensures id in Apply(c, step).db.schedules
  {
  }

  /** A refund of a booking of a closed schedule frees places and leaves it closed; the recount opens it. */
  lemma RefundStaysClosed(db: Db, user: int, b: nat)
    requires DbOk(db) && RefundVerdict(db, user, b).Refunded?
    requires db.bookings[b].schedule in db.schedules && db.schedules[db.bookings[b].schedule].status == Closed
    ensures var id := db.bookings[b].schedule;
      var s := Refund(db, user, b).schedules[id];
      && s.remain == db.schedules[id].remain + db.bookings[b].reg > 0 && s.status == Closed
      && Recount(Refund(db, user, b)).schedules[id].status == Open
  {
    assert BookingOk(db, b);
    RefundKeeps(db, user, b);
    RecountKeepsRemain(Refund(db, user, b), db.bookings[b].schedule);
  }

  /** And closed it stays, whatever is booked and refunded, until a recount. */
  lemma {:induction false} ClosedUntilRecount(c: Cinema, steps: seq<Step>, id: nat)
    requires id in c.db.schedules && c.db.schedules[id].status == Closed && RecountAll !in steps
    ensures id in Exec(c, steps).db.schedules && Exec(c, steps).db.schedules[id].status == Closed
  {
    if steps != [] {
      var last := steps[|steps| - 1];
      assert last in steps;
      ClosedUntilRecount(c, steps[..|steps| - 1], id);
      ClosedStep(Exec(c, steps[..|steps| - 1]), last, id);
    }
  }

  lemma ClosedStep(c: Cinema, step: Step, id: nat)
    requires id in c.db.schedules && c.db.schedules[id].status == Closed && !step.RecountAll?
    ensures id in Apply(c, step).db.schedules && Apply(c, step).db.schedules[id].status == Closed
  {
    hide RowsOf, Sold, SeatsOf, ParseAll, SeatIds;
    if step.Deliver? && step.id < |c.msgs| && Verdict(c.db, c.msgs[step.id], step.fault).Okay? {
      FaultyIsError(c.db, c.msgs[step.id], step.fault);
    }
  }

  // ---- delivery --------------------------------------------------------------------------------

  /** A live booking has the rows of its message, and its message was sent. */
  ghost predicate Served(c: Cinema, b: nat)
    requires b < |c.db.bookings|
  {
    var k := c.db.bookings[b];
    && k.msg < |c.msgs| && c.msgs[k.msg].schedule in c.db.schedules
    && (!k.cancelled ==> SeatsOf(c.db.active, b) == RowsOf(c.db, c.msgs[k.msg]))
  }

  ghost predicate AllServed(c: Cinema) {
    forall b :: 0 <= b < |c.db.bookings| ==> Served(c, b)
  }

  lemma ServedStep(c: Cinema, step: Step)
    requires DbOk(c.db) && AllServed(c)
    ensures AllServed(Apply(c, step))
  {
    match step
    case Send(_) =>
      hide RowsOf, SeatsOf;
      forall b | 0 <= b < |c.db.bookings| ensures Served(Apply(c, step), b) { assert Served(c, b); }
    case Deliver(id, fault, _) =>
      if id < |c.msgs| && id !in c.result && Verdict(c.db, c.msgs[id], fault).Okay? {
        BookServes(c, step, id);
      } else {
        hide Verdict, RowsOf, SeatsOf;
        forall b | 0 <= b < |c.db.bookings| ensures Served(Apply(c, step), b) { assert Served(c, b); }
      }
    case RefundBooking(user, b) =>
      if RefundVerdict(c.db, user, b).Refunded? {
        RefundServes(c, user, b);
      } else {
        hide RefundVerdict, RowsOf, SeatsOf;
        forall b | 0 <= b < |c.db.bookings| ensures Served(Apply(c, step), b) { assert Served(c, b); }
      }
    case RecountAll =>
      forall b | 0 <= b < |c.db.bookings| ensures Served(Apply(c, step), b) {
        assert Served(c, b);
        SameRows(c.db, Recount(c.db), c.msgs[c.db.bookings[b].msg]);
      }
  }

  /** The rows of a message depend on the halls only. */
  lemma SameRows(db: Db, nu: Db, m: Message)
    requires m.schedule in db.schedules && m.schedule in nu.schedules && nu.hallSeats == db.hallSeats
    requires nu.schedules[m.schedule].hall == db.schedules[m.schedule].hall
    ensures RowsOf(nu, m) == RowsOf(db, m)
  {
    SameIds(db, nu, db.schedules[m.schedule].hall, ParseAll(m.keys));
  }

  lemma {:induction false} SameIds(db: Db, nu: Db, hall: nat, seats: seq<Seat>)
    requires nu.hallSeats == db.hallSeats
    ensures SeatIds(nu, hall, seats) == SeatIds(db, hall, seats)
  {
    if seats != [] { SameIds(db, nu, hall, seats[..|seats| - 1]); }
  }

  lemma BookServes(c: Cinema, step: Step, id: nat)
    requires DbOk(c.db) && AllServed(c) && step.Deliver? && step.id == id
    requires id < |c.msgs| && id !in c.result && Verdict(c.db, c.msgs[id], step.fault).Okay?
    ensures AllServed(Apply(c, step))
  {
    var nu, m, b := Apply(c, step), c.msgs[id], |c.db.bookings|;
    BookCounts(c.db, id, m);
    assert nu.db == Booked(c.db, id, m);
    hide Verdict, SeatsOf, Sold, RowsOf;
    forall q | 0 <= q < |nu.db.bookings| ensures Served(nu, q) {
      if q < b { assert Served(c, q); }
      SameRows(c.db, nu.db, c.msgs[nu.db.bookings[q].msg]);
    }
  }

  lemma RefundServes(c: Cinema, user: int, b: nat)
    requires DbOk(c.db) && AllServed(c) && RefundVerdict(c.db, user, b).Refunded?
    ensures AllServed(Apply(c, RefundBooking(user, b)))
  {
    var nu := Apply(c, RefundBooking(user, b));
    assert BookingOk(c.db, b);
    CancelCounts(c.db.active, b, c.db.bookings[b].schedule);
    hide SeatsOf, RowsOf;
    forall q | 0 <= q < |nu.db.bookings| ensures Served(nu, q) {
      assert Served(c, q);
      SameRows(c.db, nu.db, c.msgs[nu.db.bookings[q].msg]);
    }
  }

  lemma {:induction false} ServedRun(c: Cinema, steps: seq<Step>)
    requires Fresh(c)
    ensures DbOk(Exec(c, steps).db) && AllServed(Exec(c, steps))
  {
    Conservation(c, steps);
    if steps != [] {
      ServedRun(c, steps[..|steps| - 1]);
      ServedStep(Exec(c, steps[..|steps| - 1]), steps[|steps| - 1]);
    }
  }

  /** However often a message is delivered, it never has two live bookings, and a live booking has exactly
      the rows of the seats the message names. */
  lemma OneLiveBooking(c: Cinema, steps: seq<Step>, a: nat, b: nat)
    requires Fresh(c)
    requires var db := Exec(c, steps).db;
      a < |db.bookings| && b < |db.bookings| && db.bookings[a].msg == db.bookings[b].msg
        && !db.bookings[a].cancelled && !db.bookings[b].cancelled
    ensures a == b
    ensures var end := Exec(c, steps);
      && end.db.bookings[a].msg < |end.msgs|
      && end.msgs[end.db.bookings[a].msg].schedule in end.db.schedules
      && SeatsOf(end.db.active, a) == RowsOf(end.db, end.msgs[end.db.bookings[a].msg])
  {
    var end := Exec(c, steps);
    ServedRun(c, steps);
    assert Served(end, a) && Served(end, b) && BookingOk(end.db, a);
    hide RowsOf, Exec;
    var r :| r in SeatsOf(end.db.active, a);
    assert r in SeatsOf(end.db.active, b);
  }

  /** The result of a message is OK exactly when the message made a booking. */
  ghost predicate Truthful(c: Cinema) {
    && (forall b :: 0 <= b < |c.db.bookings| ==>
          c.db.bookings[b].msg in c.result && c.result[c.db.bookings[b].msg] == Okay)
    && (forall id :: id in c.result && c.result[id] == Okay ==> HasBooking(c.db, id))
  }

  predicate HasBooking(db: Db, id: nat) {
    exists b :: 0 <= b < |db.bookings| && db.bookings[b].msg == id
  }

  /** A worker dies between a commit and its result. */
  predicate Loses(c: Cinema, step: Step) {
    step.Deliver? && step.dies && step.id < |c.msgs| && step.id !in c.result
    && Verdict(c.db, c.msgs[step.id], step.fault).Okay?
  }

  /** Every step keeps the answers true, except such a death, and that one never does. */
  lemma TruthIff(c: Cinema, step: Step)
    requires Truthful(c)
    ensures Truthful(Apply(c, step)) <==> !Loses(c, step)
  {
    if Loses(c, step) {
      FaultyIsError(c.db, c.msgs[step.id], step.fault);
      assert Apply(c, step).db.bookings[|c.db.bookings|].msg == step.id;
    } else {
      TruthStep(c, step);
    }
    hide Verdict, Sold, SeatsOf, RowsOf, Less, HasBooking;
  }

  lemma TruthStep(c: Cinema, step: Step)
    requires Truthful(c) && !Loses(c, step)
    ensures Truthful(Apply(c, step))
  {
    var nu := Apply(c, step);
    hide Verdict, Sold, SeatsOf, RowsOf, Less;
    if step.Deliver? && step.id < |c.msgs| && step.id !in c.result && Verdict(c.db, c.msgs[step.id], step.fault).Okay? {
      assert Verdict(c.db, c.msgs[step.id], false).Okay? by { FaultyIsError(c.db, c.msgs[step.id], step.fault); }
      assert nu.db.bookings[|c.db.bookings|].msg == step.id;
    }
    forall id | id in nu.result && nu.result[id] == Okay ensures HasBooking(nu.db, id) {
      if id in c.result {
        var b :| 0 <= b < |c.db.bookings| && c.db.bookings[b].msg == id;
        assert nu.db.bookings[b].msg == id;
      }
    }
  }

  lemma FaultyIsError(db: Db, m: Message, fault: bool)
    requires Verdict(db, m, fault).Okay?
    ensures Verdict(db, m, false).Okay?
  {
  }

  lemma TruthNext(c: Cinema, steps: seq<Step>, n: nat)
    requires n < |steps| && Truthful(Exec(c, steps[..n]))
    ensures Truthful(Exec(c, steps[..n + 1])) <==> !Loses(Exec(c, steps[..n]), steps[n])
  {
    hide Exec, Truthful, Loses, Apply;
    ExecNext(c, steps, n);
    TruthIff(Exec(c, steps[..n]), steps[n]);
  }

  lemma {:induction false} TruthUpTo(c: Cinema, steps: seq<Step>, n: nat)
    requires Fresh(c) && n <= |steps| && forall i :: 0 <= i < n ==> !Loses(Exec(c, steps[..i]), steps[i])
    ensures Truthful(Exec(c, steps[..n]))
    decreases n
  {
    if n > 0 {
      hide Exec, Truthful, Loses, Fresh;
      TruthUpTo(c, steps, n - 1);
      TruthNext(c, steps, n - 1);
    }
  }

  /** The answers are the truth all along a run if and only if no worker dies in it between a commit and its
      result; deaths after a refused transaction do no harm. */
  lemma AnswersAreTrue(c: Cinema, steps: seq<Step>)
    requires Fresh(c)
    ensures (forall n :: 0 <= n <= |steps| ==> Truthful(Exec(c, steps[..n]))) <==>
      (forall n :: 0 <= n < |steps| ==> !Loses(Exec(c, steps[..n]), steps[n]))
  {
    hide Exec, Truthful, Loses, Fresh;
    if forall n :: 0 <= n < |steps| ==> !Loses(Exec(c, steps[..n]), steps[n]) {
      forall n | 0 <= n <= |steps| ensures Truthful(Exec(c, steps[..n])) { TruthUpTo(c, steps, n); }
    }
    if forall n :: 0 <= n <= |steps| ==> Truthful(Exec(c, steps[..n])) {
      forall n | 0 <= n < |steps| ensures !Loses(Exec(c, steps[..n]), steps[n]) { TruthNext(c, steps, n); }
    }
  }

  /** A booking of the message that is not cancelled. */
  predicate HasLive(db: Db, id: nat) {
    exists b :: 0 <= b < |db.bookings| && db.bookings[b].msg == id && !db.bookings[b].cancelled
  }

  /** While a live booking of a message stands, every delivery of the message is refused on account of it,
      whatever else was booked, refunded or recounted since: as sold out exactly when the count does not cover
      the message again, otherwise as a duplicate. */
  lemma LiveDenies(c: Cinema, steps: seq<Step>, id: nat, fault: bool)
    requires Fresh(c) && id < |Exec(c, steps).msgs| && HasLive(Exec(c, steps).db, id)
    ensures var end := Exec(c, steps); var m := end.msgs[id];
      && m.schedule in end.db.schedules
      && Verdict(end.db, m, fault) ==
           if fault then Error
           else if end.db.schedules[m.schedule].remain < |ParseAll(m.keys)| then SoldOut
           else DuplicateSeat
  {
    var end := Exec(c, steps);
    ServedRun(c, steps);
    var b :| 0 <= b < |end.db.bookings| && end.db.bookings[b].msg == id && !end.db.bookings[b].cancelled;
    assert Served(end, b) && BookingOk(end.db, b);
    hide RowsOf, Exec, ParseAll;
    var r :| r in SeatsOf(end.db.active, b);
    SoldAgain(end.db, end.msgs[id], r);
    hide Verdict, SeatsOf, Served, BookingOk, AllServed, DbOk;
  }

  /** In particular when the redelivery comes at once, as sold out exactly when the count would not have covered
      the request twice. */
  lemma RedeliveryDenies(c: Cinema, id: nat)
    requires DbOk(c.db) && id < |c.msgs| && id !in c.result && Verdict(c.db, c.msgs[id], false).Okay?
    ensures var end := Apply(Apply(c, Deliver(id, false, true)), Deliver(id, false, false));
      && end.db == Booked(c.db, id, c.msgs[id]) && id in end.result
      && end.result[id] == if c.db.schedules[c.msgs[id].schedule].remain < 2 * |ParseAll(c.msgs[id].keys)|
                           then SoldOut else DuplicateSeat
  {
    hide ParseAll, RowsOf, DbOk, Balanced, BookingOk, SeatIds;
    var m, mid := c.msgs[id], Apply(c, Deliver(id, false, true));
    RowsAreFree(c.db, m);
    SameRows(c.db, mid.db, m);
    var r :| r in RowsOf(c.db, m);
    SoldAgain(mid.db, m, r);
  }

  /** A stored answer says whether the message has a live booking if and only if none stood before: a redelivery
      after a lost answer denies the booking that its own first delivery made, until that one is refunded. */
  lemma AnswerIff(c: Cinema, steps: seq<Step>, id: nat, fault: bool)
    requires Fresh(c) && id < |Exec(c, steps).msgs| && id !in Exec(c, steps).result
    ensures var was := Exec(c, steps); var nu := Apply(was, Deliver(id, fault, false));
      && id in nu.result
      && ((nu.result[id] == Okay <==> HasLive(nu.db, id)) <==> !HasLive(was.db, id))
  {
    var was := Exec(c, steps);
    if HasLive(was.db, id) {
      LiveDenies(c, steps, id, fault);
    } else if Verdict(was.db, was.msgs[id], fault).Okay? {
      FaultyIsError(was.db, was.msgs[id], fault);
      var nu := Booked(was.db, id, was.msgs[id]);
      assert nu.bookings[|was.db.bookings|].msg == id && !nu.bookings[|was.db.bookings|].cancelled;
    }
    hide Exec, Verdict, Sold, Less, RowsOf;
  }

  /** Rows that are already ACTIVE cannot be sold. */
  lemma SoldAgain(db: Db, m: Message, r: Row)
    requires m.schedule in db.schedules && r in RowsOf(db, m) && r in db.active
    ensures Verdict(db, m, false) ==
      if db.schedules[m.schedule].remain < |ParseAll(m.keys)| then SoldOut else DuplicateSeat
  {
    hide ParseAll, SeatIds;
    assert r in RowsOf(db, m) * db.active.Keys;
  }
}
