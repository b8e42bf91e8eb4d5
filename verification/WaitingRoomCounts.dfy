/** The numbers of the waiting room counted in calls and in people: the requests per second are the calls of enter
    in the window, the backlog and the position are the tickets that wait. */
module WaitingRoomCounts {
  import opened Gate
  import opened Text
  import opened WaitingRoom
  import opened WaitingRoomTheorems

  // ---- requests per second ---------------------------------------------------------------------

  /** The calls of enter for a room in the seconds after `lo` and up to `hi`, by position in the run. */
  function Entered(calls: seq<Call>, room: Room, lo: int, hi: int): set<nat> {
    set i | 0 <= i < |calls| && calls[i].Enter? && calls[i].room == room && lo < calls[i].now / 1000 <= hi
  }

  lemma EnteredNext(calls: seq<Call>, room: Room, lo: int, hi: int)
    requires calls != []
    ensures var n := |calls| - 1; var last := calls[n];
      |Entered(calls, room, lo, hi)| == |Entered(calls[..n], room, lo, hi)| +
        if last.Enter? && last.room == room && lo < last.now / 1000 <= hi then 1 else 0
  {
    var n := |calls| - 1;
    var before, all := Entered(calls[..n], room, lo, hi), Entered(calls, room, lo, hi);
    if calls[n].Enter? && calls[n].room == room && lo < calls[n].now / 1000 <= hi {
      assert all == before + {n};
    } else {
      assert all == before;
    }
  }

  /** Every second's bucket holds the calls of enter in that second. */
  lemma {:induction false} BucketsCount(h: Hall, calls: seq<Call>, room: Room, sec: int)
    requires h.hits == map[]
    ensures Count(Exec(h, calls).hits, (room, sec)) == |Entered(calls, room, sec - 1, sec)|
  {
    if calls == [] {
      assert Entered(calls, room, sec - 1, sec) == {};
    } else {
      var before, last := calls[..|calls| - 1], calls[|calls| - 1];
      BucketsCount(h, before, room, sec);
      EnteredNext(calls, room, sec - 1, sec);
      BucketStep(Exec(h, before), last, room, sec);
      hide Apply, Entered;
    }
  }

  lemma BucketStep(h: Hall, call: Call, room: Room, sec: int)
    ensures Count(Apply(h, call).hits, (room, sec)) == Count(h.hits, (room, sec)) +
      if call.Enter? && call.room == room && call.now / 1000 == sec then 1 else 0
  {
    hide Advance, RateOf, ControlOf, StandingOf, Changed;
  }

  lemma EnteredSplit(calls: seq<Call>, room: Room, lo: int, mid: int, hi: int)
    requires lo <= mid <= hi
    ensures |Entered(calls, room, lo, hi)| == |Entered(calls, room, lo, mid)| + |Entered(calls, room, mid, hi)|
  {
    var a, b := Entered(calls, room, lo, mid), Entered(calls, room, mid, hi);
    assert Entered(calls, room, lo, hi) == a + b && a !! b;
  }

  lemma {:induction false} RecentCounts(h: Hall, calls: seq<Call>, room: Room, sec: int, w: nat)
    requires h.hits == map[]
    ensures Recent(Exec(h, calls).hits, room, sec, w) == |Entered(calls, room, sec - w, sec)|
  {
    if w == 0 {
      assert Entered(calls, room, sec, sec) == {};
    } else {
      RecentCounts(h, calls, room, sec, w - 1);
      BucketsCount(h, calls, room, sec - (w - 1));
      EnteredSplit(calls, room, sec - w, sec - (w - 1), sec);
      hide Exec, Entered, Count;
    }
  }

  /** After any calls, the requests per second times the window are exactly the calls of enter for the room in the
      window's seconds, the current one included. */
  lemma RpsCounts(h: Hall, calls: seq<Call>, room: Room, now: int)
    requires h.hits == map[]
    ensures var end := Exec(h, calls);
      var w := if end.knobs.window < 1 then 1 else end.knobs.window;
      var sec := now / 1000;
      Rps(end, room, now) * w as real == |Entered(calls, room, sec - w, sec)| as real
  {
    hide Exec, Entered, Recent, Rps;
    var end := Exec(h, calls);
    var w: nat := if end.knobs.window < 1 then 1 else end.knobs.window;
    RecentCounts(h, calls, room, now / 1000, w);
    RpsIs(end, room, now, w);
  }

  lemma RpsIs(h: Hall, room: Room, now: int, w: nat)
    requires w == if h.knobs.window < 1 then 1 else h.knobs.window
    ensures Rps(h, room, now) * w as real == Recent(h.hits, room, now / 1000, w) as real
  {
    Ratio(Recent(h.hits, room, now / 1000, w), w);
    hide Recent;
  }

  lemma Ratio(n: nat, w: nat)
    requires w >= 1
    ensures n as real / w as real * w as real == n as real
  {
  }

  // ---- people ----------------------------------------------------------------------------------

  /** The tickets of a room with places after `lo` and up to `hi`. */
  function Waiting(tickets: seq<Ticket>, room: Room, lo: int, hi: int): set<nat> {
    set i | 0 <= i < |tickets| && tickets[i].room == room && lo < tickets[i].place <= hi
  }

  /** Every place that was given out is somebody's. */
  ghost predicate NoGaps(h: Hall) {
    forall room, p :: 1 <= p <= Count(h.enq, room) ==> Holder(h, room, p)
  }

  predicate Holder(h: Hall, room: Room, p: nat) {
    exists i :: 0 <= i < |h.tickets| && h.tickets[i].room == room && h.tickets[i].place == p
  }

  lemma HolderStays(h: Hall, call: Call, room: Room, p: nat)
    requires Holder(h, room, p)
    ensures Holder(Apply(h, call), room, p)
  {
    Grows(h, call, room);
    var i :| 0 <= i < |h.tickets| && h.tickets[i].room == room && h.tickets[i].place == p;
    assert Apply(h, call).tickets[i] == h.tickets[i];
    hide Apply;
  }

  lemma NoGapsStep(h: Hall, call: Call)
    requires NoGaps(h)
    ensures NoGaps(Apply(h, call))
  {
    var nu := Apply(h, call);
    forall room, p | 1 <= p <= Count(nu.enq, room) ensures Holder(nu, room, p) {
      EnqStep(h, call, room);
      if p <= Count(h.enq, room) {
        HolderStays(h, call, room, p);
      } else {
        assert nu.tickets[|h.tickets|] == Ticket(room, call.user, p);
      }
      hide Apply;
    }
  }

  lemma EnqStep(h: Hall, call: Call, room: Room)
    ensures var before, after := Count(h.enq, room), Count(Apply(h, call).enq, room);
      if call.Enter? && call.room == room then
        after == before + 1 && Apply(h, call).tickets == h.tickets + [Ticket(room, call.user, after)]
      else after == before
  {
    hide Advance, RateOf, ControlOf, StandingOf, Changed;
  }

  lemma {:induction false} NoGapsRun(h: Hall, calls: seq<Call>)
    requires Empty(h)
    ensures NoGaps(Exec(h, calls))
  {
    hide Apply;
    if calls != [] {
      NoGapsRun(h, calls[..|calls| - 1]);
      NoGapsStep(Exec(h, calls[..|calls| - 1]), calls[|calls| - 1]);
    }
  }

  /** There is one ticket for each place. */
  lemma {:induction false} WaitingCard(h: Hall, room: Room, lo: nat, hi: nat)
    requires TicketsOk(h) && NoGaps(h) && lo <= hi <= Count(h.enq, room)
    ensures |Waiting(h.tickets, room, lo, hi)| == hi - lo
    decreases hi
  {
    if lo == hi {
      assert Waiting(h.tickets, room, lo, hi) == {};
    } else {
      WaitingCard(h, room, lo, hi - 1);
      assert Holder(h, room, hi);
      var i :| 0 <= i < |h.tickets| && h.tickets[i].room == room && h.tickets[i].place == hi;
      OneHolder(h, room, i, hi, lo);
      hide Waiting, TicketsOk, NoGaps, Holder;
    }
  }

  lemma OneHolder(h: Hall, room: Room, i: nat, hi: nat, lo: nat)
    requires TicketsOk(h) && i < |h.tickets| && h.tickets[i].room == room && h.tickets[i].place == hi && lo < hi
    ensures |Waiting(h.tickets, room, lo, hi)| == |Waiting(h.tickets, room, lo, hi - 1)| + 1
  {
    var less := Waiting(h.tickets, room, lo, hi - 1);
    assert Waiting(h.tickets, room, lo, hi) == less + {i};
    assert i !in less;
  }

  /** The backlog is the number of tickets of the room that the gate has not reached. */
  lemma BacklogCounts(h: Hall, calls: seq<Call>, room: Room)
    requires Empty(h)
    ensures var end := Exec(h, calls);
      Backlog(end, room) == |Waiting(end.tickets, room, GateOf(end, room).done, Count(end.enq, room))|
    ensures var end := Exec(h, calls);
      forall i ::
        0 <= i < |end.tickets| && end.tickets[i].room == room && end.tickets[i].place > GateOf(end, room).done ==>
          i in Waiting(end.tickets, room, GateOf(end, room).done, Count(end.enq, room))
  {
    var end := Exec(h, calls);
    HallRun(h, calls);
    NoGapsRun(h, calls);
    if GateOf(end, room).done <= Count(end.enq, room) {
      WaitingCard(end, room, GateOf(end, room).done, Count(end.enq, room));
    } else {
      assert Waiting(end.tickets, room, GateOf(end, room).done, Count(end.enq, room)) == {};
    }
    hide Exec, GateOf, NoGaps;
  }

  function StandingIn(a: Answer): Standing
    requires !a.UnknownOrExpired?
  {
    match a
    case Admitted(_, s) => s
    case Processing(s) => s
  }

  /** What a status answer says: the count after the advance; how many tickets of the room wait in front, which are
      those the gate has not reached with an earlier place; the position right behind them; and the whole seconds
      those take at the rate in force. */
  lemma StandingCounts(h: Hall, calls: seq<Call>, i: nat, now: int)
    requires Empty(h) && i < |Exec(h, calls).tickets|
    ensures var end := Exec(h, calls);
      var t, nu := end.tickets[i], Apply(end, Status(i, now));
      var done, s := GateOf(nu, t.room).done, StandingIn(Ask(end, i, now));
      && s.done == done
      && s.ahead == |Waiting(end.tickets, t.room, done, t.place - 1)|
      && s.position == (if t.place <= done then 0 else s.ahead + 1)
      && (ControlOf(end, t.room).enabled ==> s.rate == RateOf(nu, t.room, now))
      && (!ControlOf(end, t.room).enabled ==> s.rate == 0)
      && (s.eta.Some? <==> s.rate > 0 && s.ahead > 0)
      && (s.eta.Some? ==> (s.eta.value - 1) * s.rate < s.ahead <= s.eta.value * s.rate)
  {
    hide Exec, Apply, Ask, NoGaps, HallOk, Waiting, GateOf, RateOf, ControlOf, Empty;
    HallRun(h, calls);
    NoGapsRun(h, calls);
    HallTickets(Exec(h, calls));
    StandingAt(Exec(h, calls), i, now);
  }

  lemma HallTickets(h: Hall)
    requires HallOk(h)
    ensures TicketsOk(h)
  {
  }

  lemma StandingAt(h: Hall, i: nat, now: int)
    requires TicketsOk(h) && NoGaps(h) && i < |h.tickets|
    ensures !Ask(h, i, now).UnknownOrExpired?
    ensures var t, nu := h.tickets[i], Apply(h, Status(i, now));
      var done, s := GateOf(nu, t.room).done, StandingIn(Ask(h, i, now));
      && s.done == done
      && s.ahead == |Waiting(h.tickets, t.room, done, t.place - 1)|
      && s.position == (if t.place <= done then 0 else s.ahead + 1)
      && (ControlOf(h, t.room).enabled ==> s.rate == RateOf(nu, t.room, now))
      && (!ControlOf(h, t.room).enabled ==> s.rate == 0)
      && (s.eta.Some? <==> s.rate > 0 && s.ahead > 0)
      && (s.eta.Some? ==> (s.eta.value - 1) * s.rate < s.ahead <= s.eta.value * s.rate)
  {
    var t, nu := h.tickets[i], Apply(h, Status(i, now));
    StandingIs(h, i, now);
    hide Apply, Ask, NoGaps, GateOf, RateOf, ControlOf;
    var done := GateOf(nu, t.room).done;
    InFront(h, t.room, done, t.place);
    var s := StandingIn(Ask(h, i, now));
    if s.eta.Some? { Ceiling(s.ahead, s.rate); }
  }

  lemma InFront(h: Hall, room: Room, done: nat, place: nat)
    requires TicketsOk(h) && NoGaps(h) && 1 <= place <= Count(h.enq, room)
    ensures |Waiting(h.tickets, room, done, place - 1)| == if done < place then place - 1 - done else 0
  {
    if done < place {
      WaitingCard(h, room, done, place - 1);
    } else {
      assert Waiting(h.tickets, room, done, place - 1) == {};
    }
  }

  lemma StandingIs(h: Hall, i: nat, now: int)
    requires i < |h.tickets| && h.tickets[i].place >= 1
    ensures !Ask(h, i, now).UnknownOrExpired?
    ensures var t, nu := h.tickets[i], Apply(h, Status(i, now));
      var done, s := GateOf(nu, t.room).done, StandingIn(Ask(h, i, now));
      && s.done == done
      && s.position == (if t.place <= done then 0 else t.place - done)
      && s.ahead == (if s.position == 0 then 0 else s.position - 1)
      && s.rate == (if ControlOf(h, t.room).enabled then RateOf(nu, t.room, now) else 0)
      && s.eta == if s.rate > 0 && s.ahead > 0 then Some((s.ahead + s.rate - 1) / s.rate) else None
  {
    StatusSees(h, i, now);
    hide Advance, RateOf, ControlOf;
  }

  /** A new permit changes neither the control nor the rate. */
  lemma StatusSees(h: Hall, i: nat, now: int)
    requires i < |h.tickets|
    ensures var room := h.tickets[i].room; var a, nu := AdvanceDone(h, room, now), Apply(h, Status(i, now));
      && GateOf(nu, room) == GateOf(a, room) && ControlOf(a, room) == ControlOf(h, room)
      && RateOf(nu, room, now) == RateOf(a, room, now)
  {
    hide Advance, StandingOf, LoadRate;
  }

  lemma Ceiling(n: nat, rate: nat)
    requires rate >= 1 && n >= 1
    ensures ((n + rate - 1) / rate - 1) * rate < n <= (n + rate - 1) / rate * rate
  {
    var q, m := (n + rate - 1) / rate, n + rate - 1;
    assert q * rate <= m < q * rate + rate;
    assert (q - 1) * rate == q * rate - rate;
  }

  // ---- permits ---------------------------------------------------------------------------------

  /** A permit is good for its ticket's user and room, for nobody else and nowhere else, whatever comes after. */
  lemma PermitIsItsTicket(h: Hall, i: nat, now: int, calls: seq<Call>, room: Room, user: nat)
    requires Ask(h, i, now).Admitted?
    ensures i < |h.tickets|
    ensures Verify(Exec(Apply(h, Status(i, now)), calls), Ask(h, i, now).token, room, user) <==>
      h.tickets[i].room == room && h.tickets[i].user == user
  {
    var nu := Apply(h, Status(i, now));
    GrowsRun(nu, calls, room);
    NewPermit(h, i, now);
    assert nu.permits[|h.permits|] == Permit(h.tickets[i].room, h.tickets[i].user, i);
    hide Exec, PermitOk;
    assert Exec(nu, calls).permits[|h.permits|] == nu.permits[|h.permits|];
  }

  /** A token that was never issued is good for nobody. */
  lemma NoSuchPermit(h: Hall, token: nat, room: Room, user: nat)
    requires token >= |h.permits|
    ensures !Verify(h, token, room, user)
  {
  }

  /** The commit's gate lets through exactly the holders of a good permit, and those whose queue reference is a
      ticket of their own for this room that the gate reaches now. */
  lemma PassesIff(h: Hall, token: Option<nat>, ticket: Option<nat>, room: Room, user: nat, now: int)
    requires TicketsOk(h)
    ensures Passes(h, token, ticket, room, user, now) <==>
      || (token.Some? && token.value < |h.permits|
          && h.permits[token.value].room == room && h.permits[token.value].user == user)
      || (ticket.Some? && ticket.value < |h.tickets|
          && h.tickets[ticket.value].room == room && h.tickets[ticket.value].user == user
          && h.tickets[ticket.value].place <= GateOf(Apply(h, Status(ticket.value, now)), room).done + 1)
  {
    if ticket.Some? && ticket.value < |h.tickets| {
      AskIff(h, ticket.value, now);
      if Ask(h, ticket.value, now).Admitted? { PermitIsItsTicket(h, ticket.value, now, [], room, user); }
    }
    hide Ask, AdvanceDone;
  }
}
