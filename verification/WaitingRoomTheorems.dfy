/** What the waiting room guarantees over every sequence of calls: nobody jumps the queue, nobody waits longer
    than the lowest rate implies, polls cost nothing, and a constant-rate ETA is exact. */
module WaitingRoomTheorems {
  import opened Gate
  import opened Text
  import opened WaitingRoom

  // ---- the queue's order -----------------------------------------------------------------------

  ghost predicate TicketsOk(h: Hall) {
    && (forall i :: 0 <= i < |h.tickets| ==> 1 <= h.tickets[i].place <= Count(h.enq, h.tickets[i].room))
    && (forall i, j :: 0 <= i < j < |h.tickets| && h.tickets[i].room == h.tickets[j].room ==>
          h.tickets[i].place < h.tickets[j].place)
  }

  /** The permit's ticket is its user's, for its room, and its turn had come. */
  ghost predicate PermitOk(h: Hall, p: Permit) {
    && p.ticket < |h.tickets|
    && h.tickets[p.ticket].room == p.room && h.tickets[p.ticket].user == p.user
    && h.tickets[p.ticket].place <= GateOf(h, p.room).done + 1
  }

  ghost predicate HallOk(h: Hall) {
    TicketsOk(h) && forall i :: 0 <= i < |h.permits| ==> PermitOk(h, h.permits[i])
  }

  /** Nobody has come yet. */
  predicate Empty(h: Hall) {
    h.enq == map[] && h.tickets == [] && h.permits == []
  }

  lemma AdvanceGrows(g: Gate, rate: nat, now: int)
    ensures Advance(g, rate, now).done >= g.done
    ensures g.clock > 0 ==> Advance(g, rate, now).clock >= g.clock
  {
  }

  /** No call takes an admission back, and tickets and permits are only added. */
  lemma Grows(h: Hall, call: Call, room: Room)
    ensures GateOf(Apply(h, call), room).done >= GateOf(h, room).done
    ensures h.tickets <= Apply(h, call).tickets && h.permits <= Apply(h, call).permits
    ensures Apply(h, call).knobs == h.knobs
  {
    hide Advance, RateOf, ControlOf;
    if call.Status? && call.ticket < |h.tickets| {
      var r := h.tickets[call.ticket].room;
      AdvanceGrows(GateOf(h, r), RateOf(h, r, call.now), call.now);
    }
    if call.Metrics? { AdvanceGrows(GateOf(h, call.room), RateOf(h, call.room, call.now), call.now); }
  }

  lemma {:induction false} GrowsRun(h: Hall, calls: seq<Call>, room: Room)
    ensures GateOf(Exec(h, calls), room).done >= GateOf(h, room).done
    ensures h.tickets <= Exec(h, calls).tickets && h.permits <= Exec(h, calls).permits
  {
    hide Apply;
    if calls != [] {
      GrowsRun(h, calls[..|calls| - 1], room);
      Grows(Exec(h, calls[..|calls| - 1]), calls[|calls| - 1], room);
    }
  }

  lemma KeepsPermits(h: Hall, call: Call)
    requires HallOk(h)
    ensures forall i :: 0 <= i < |h.permits| ==> PermitOk(Apply(h, call), h.permits[i])
  {
    forall i | 0 <= i < |h.permits| ensures PermitOk(Apply(h, call), h.permits[i]) {
      assert PermitOk(h, h.permits[i]);
      Grows(h, call, h.permits[i].room);
    }
  }

  lemma KeepsTickets(h: Hall, call: Call)
    requires TicketsOk(h)
    ensures TicketsOk(Apply(h, call))
  {
    hide Advance, RateOf, ControlOf, StandingOf, Changed;
    if call.Enter? { EnterTickets(h, call.room, call.user, call.now); }
  }

  lemma EnterTickets(h: Hall, room: Room, user: nat, now: int)
    requires TicketsOk(h)
    ensures TicketsOk(DoEnter(h, room, user, now))
  {
  }

  /** The permit of a status call is for the ticket asked about, whose turn has come. */
  lemma NewPermit(h: Hall, ticket: nat, now: int)
    requires Ask(h, ticket, now).Admitted?
    ensures var nu := DoStatus(h, ticket, now);
      |nu.permits| == |h.permits| + 1 && Ask(h, ticket, now).token == |h.permits|
        && PermitOk(nu, nu.permits[|h.permits|])
  {
    hide Advance, RateOf, ControlOf;
  }

  lemma HallStep(h: Hall, call: Call)
    requires HallOk(h)
    ensures HallOk(Apply(h, call))
  {
    KeepsPermits(h, call);
    KeepsTickets(h, call);
    if call.Status? && Ask(h, call.ticket, call.now).Admitted? { NewPermit(h, call.ticket, call.now); }
    hide Ask, TicketsOk, PermitOk, Changed, AdvanceDone, ControlOf;
  }

  lemma {:induction false} HallRun(h: Hall, calls: seq<Call>)
    requires Empty(h)
    ensures HallOk(Exec(h, calls))
  {
    hide Apply;
    if calls != [] {
      HallRun(h, calls[..|calls| - 1]);
      HallStep(Exec(h, calls[..|calls| - 1]), calls[|calls| - 1]);
    }
  }

  /** The holder of ticket `i` of this room is this user, and the gate has reached the ticket. */
  predicate TurnOf(h: Hall, i: nat, room: Room, user: nat) {
    i < |h.tickets| && h.tickets[i].room == room && h.tickets[i].user == user
    && h.tickets[i].place <= GateOf(h, room).done + 1
  }

  lemma PassIsTurn(h: Hall, token: Option<nat>, ticket: Option<nat>, room: Room, user: nat, now: int)
    requires HallOk(h) && Passes(h, token, ticket, room, user, now)
    ensures exists i: nat :: TurnOf(AfterGate(h, token, ticket, room, user, now), i, room, user)
  {
    hide Ask, TicketsOk, AdvanceDone;
    if token.Some? && Verify(h, token.value, room, user) {
      assert PermitOk(h, h.permits[token.value]);
      assert AfterGate(h, token, ticket, room, user, now) == h;
      assert TurnOf(h, h.permits[token.value].ticket, room, user);
    } else {
      var nu := DoStatus(h, ticket.value, now);
      NewPermit(h, ticket.value, now);
      assert AfterGate(h, token, ticket, room, user, now) == nu;
      hide DoStatus;
      assert TurnOf(nu, nu.permits[|h.permits|].ticket, room, user);
    }
  }

  /** A commit that passes the gate, by a permit or by the queue-reference fallback, is by a user who holds
      a ticket of that show whose turn has come. */
  lemma NoQueueJumping(h: Hall, calls: seq<Call>, token: Option<nat>, ticket: Option<nat>, room: Room, user: nat,
      now: int)
    requires Empty(h) && Passes(Exec(h, calls), token, ticket, room, user, now)
    ensures exists i: nat :: TurnOf(AfterGate(Exec(h, calls), token, ticket, room, user, now), i, room, user)
  {
    HallRun(h, calls);
    PassIsTurn(Exec(h, calls), token, ticket, room, user, now);
  }

  /** Every other ticket of the room stands before the last one. */
  predicate LastInLine(tickets: seq<Ticket>, room: Room, place: nat) {
    forall i :: 0 <= i < |tickets| - 1 && tickets[i].room == room ==> tickets[i].place < place
  }

  lemma EntersLast(h: Hall, room: Room, user: nat, now: int)
    requires HallOk(h)
    ensures var nu := Apply(h, Enter(room, user, now));
      |nu.tickets| > 0 && LastInLine(nu.tickets, room, nu.tickets[|nu.tickets| - 1].place)
  {
  }

  /** A status call that admits finds the ticket's turn come. */
  lemma StatusTurn(h: Hall, ticket: nat, now: int)
    ensures Ask(h, ticket, now).Admitted? ==> var nu := Apply(h, Status(ticket, now));
      ticket < |nu.tickets| && TurnOf(nu, ticket, nu.tickets[ticket].room, nu.tickets[ticket].user)
  {
    hide Advance, RateOf, ControlOf;
  }

  /** When the turn of a ticket has come, its next poll says so. */
  lemma TurnIsAdmitted(h: Hall, i: nat, now: int)
    requires i < |h.tickets| && 1 <= h.tickets[i].place <= GateOf(h, h.tickets[i].room).done + 1
    ensures Ask(h, i, now).Admitted?
  {
    var room := h.tickets[i].room;
    AdvanceGrows(GateOf(h, room), RateOf(h, room, now), now);
  }

  /** Once a ticket has a permit, every earlier ticket of the room is admitted at its next poll,
      after whatever calls, a pause of the gate included. */
  lemma EarlierTicketsAdmitted(h: Hall, calls: seq<Call>, more: seq<Call>, token: nat, i: nat, now: int)
    requires Empty(h) && token < |Exec(h, calls).permits|
    requires i <= Exec(h, calls).permits[token].ticket < |Exec(h, calls).tickets|
    requires Exec(h, calls).tickets[i].room == Exec(h, calls).permits[token].room
    ensures Ask(Exec(Exec(h, calls), more), i, now).Admitted?
  {
    hide Exec, Ask;
    var end := Exec(h, calls);
    HallRun(h, calls);
    var p := end.permits[token];
    assert PermitOk(end, p);
    GrowsRun(end, more, p.room);
    assert end.tickets[i].place <= end.tickets[p.ticket].place;
    TurnIsAdmitted(Exec(end, more), i, now);
  }

  // ---- the gate over runs ----------------------------------------------------------------------

  predicate LeavesControl(calls: seq<Call>, room: Room) {
    forall i :: 0 <= i < |calls| ==> !(calls[i].SetControl? && calls[i].room == room)
  }

  /** The gate is enabled and its rate, whatever the load, lies between `lo` and `hi`. */
  predicate Rated(h: Hall, room: Room, lo: nat, hi: nat) {
    var c := ControlOf(h, room);
    c.enabled &&
    if c.mode == Manual then lo <= Max(1, if c.rate == 0 then h.knobs.admitRate else c.rate) <= hi
    else lo <= Lowest(h.knobs) && Highest(h.knobs) <= hi
  }

  /** The call polls the room's gate, at the time it carries. */
  predicate Polling(h: Hall, call: Call, room: Room) {
    (call.Metrics? && call.room == room)
    || (call.Status? && call.ticket < |h.tickets| && h.tickets[call.ticket].room == room)
  }

  function PollTimes(h: Hall, calls: seq<Call>, room: Room): seq<int> {
    if calls == [] then []
    else
      var before, last := calls[..|calls| - 1], calls[|calls| - 1];
      PollTimes(h, before, room) + if Polling(Exec(h, before), last, room) then [last.now] else []
  }

  lemma ControlStays(h: Hall, call: Call, room: Room)
    requires !(call.SetControl? && call.room == room)
    ensures ControlOf(Apply(h, call), room) == ControlOf(h, room) && Apply(h, call).knobs == h.knobs
  {
    hide RateOf, Advance, StandingOf, Changed;
  }

  /** A call advances a room's gate when it polls it, and leaves it alone otherwise. */
  lemma GateStep(h: Hall, call: Call, room: Room)
    requires ControlOf(h, room).enabled
    ensures !Polling(h, call, room) ==> GateOf(Apply(h, call), room) == GateOf(h, room)
    ensures Polling(h, call, room) ==>
      GateOf(Apply(h, call), room) == Advance(GateOf(h, room), RateOf(h, room, call.now), call.now)
  {
    hide Advance, RateOf, StandingOf, Changed, ControlOf;
  }

  lemma RateIn(h: Hall, room: Room, lo: nat, hi: nat, now: int)
    requires Rated(h, room, lo, hi)
    ensures lo <= RateOf(h, room, now) <= hi
  {
    hide AutoRate;
  }

  /** Over the calls the gate paid, within the rates, exactly the whole seconds up to its latest poll. */
  ghost predicate GateAfter(h: Hall, calls: seq<Call>, room: Room, lo: nat, hi: nat) {
    var g0, g := GateOf(h, room), GateOf(Exec(h, calls), room);
    && Rated(Exec(h, calls), room, lo, hi) && Paid(g0, g, lo, hi)
    && Ticks(g0, g) == Whole(g0.clock, Latest(g0.clock, PollTimes(h, calls, room)))
  }

  lemma {:induction false} GateRun(h: Hall, calls: seq<Call>, room: Room, lo: nat, hi: nat)
    requires GateOf(h, room).clock > 0 && Rated(h, room, lo, hi) && LeavesControl(calls, room)
    ensures GateAfter(h, calls, room, lo, hi)
  {
    hide Apply, Advance, RateOf, Polling, Paid, Whole, Ticks, ControlOf, GateOf;
    if calls == [] {
      PaidSelf(GateOf(h, room), lo, hi);
    } else {
      var before, last := calls[..|calls| - 1], calls[|calls| - 1];
      GateRun(h, before, room, lo, hi);
      GateRunStep(h, calls, room, lo, hi);
    }
  }

  lemma GateRunStep(h: Hall, calls: seq<Call>, room: Room, lo: nat, hi: nat)
    requires calls != [] && !(calls[|calls| - 1].SetControl? && calls[|calls| - 1].room == room)
    requires GateAfter(h, calls[..|calls| - 1], room, lo, hi)
    ensures GateAfter(h, calls, room, lo, hi)
  {
    var before, last := calls[..|calls| - 1], calls[|calls| - 1];
    var mid := Exec(h, before);
    assert Exec(h, calls) == Apply(mid, last);
    ControlStays(mid, last, room);
    GateStep(mid, last, room);
    if Polling(mid, last, room) {
      RateIn(mid, room, lo, hi, last.now);
      LatestOfPolls(h, calls, room);
      PaidAdvance(GateOf(h, room), GateOf(mid, room), lo, hi, RateOf(mid, room, last.now), last.now);
    } else {
      assert PollTimes(h, calls, room) == PollTimes(h, before, room);
    }
    hide Apply, Exec, Advance, RateOf, Polling, Paid, Whole, Ticks, ControlOf, GateOf, Latest, PollTimes;
  }

  lemma LatestOfPolls(h: Hall, calls: seq<Call>, room: Room)
    requires calls != [] && Polling(Exec(h, calls[..|calls| - 1]), calls[|calls| - 1], room)
    ensures var from := GateOf(h, room).clock; var t := calls[|calls| - 1].now;
      var rest := Latest(from, PollTimes(h, calls[..|calls| - 1], room));
      Whole(from, Latest(from, PollTimes(h, calls, room))) ==
        if Whole(from, rest) < Whole(from, t) then Whole(from, t) else Whole(from, rest)
  {
    var times := PollTimes(h, calls, room);
    assert times[..|times| - 1] == PollTimes(h, calls[..|calls| - 1], room);
  }

  /** At a constant rate, manual or AUTO, a room's gate depends only on the latest time it was polled at, over any
      calls. */
  lemma PollsCostNothing(h: Hall, calls: seq<Call>, room: Room, rate: nat)
    requires rate >= 1 && GateOf(h, room).clock > 0 && Rated(h, room, rate, rate) && LeavesControl(calls, room)
    ensures var g := GateOf(h, room);
      GateOf(Exec(h, calls), room) == Advance(g, rate, Latest(g.clock, PollTimes(h, calls, room)))
  {
    var g := GateOf(h, room);
    var latest := Latest(g.clock, PollTimes(h, calls, room));
    GateRun(h, calls, room, rate, rate);
    PaidSelf(g, rate, rate);
    PaidAdvance(g, g, rate, rate, rate, latest);
    SamePaid(g, GateOf(Exec(h, calls), room), Advance(g, rate, latest), rate);
  }

  lemma AskIff(h: Hall, i: nat, now: int)
    requires i < |h.tickets| && h.tickets[i].place >= 1
    ensures Ask(h, i, now).Admitted?
      <==> h.tickets[i].place <= GateOf(Apply(h, Status(i, now)), h.tickets[i].room).done + 1
  {
    hide Advance, RateOf, ControlOf;
  }

  /** A ticket's poll after some calls: what the gate has paid by then, and when it admits. */
  lemma PollAfter(h: Hall, calls: seq<Call>, i: nat, now: int, lo: nat, hi: nat)
    requires i < |h.tickets| && h.tickets[i].place >= 1 && LeavesControl(calls, h.tickets[i].room)
    requires GateOf(h, h.tickets[i].room).clock > 0 && Rated(h, h.tickets[i].room, lo, hi)
    ensures var room := h.tickets[i].room;
      var g0, g := GateOf(h, room), GateOf(Apply(Exec(h, calls), Status(i, now)), room);
      && Paid(g0, g, lo, hi)
      && Ticks(g0, g) == Whole(g0.clock, Latest(g0.clock, PollTimes(h, calls, room) + [now]))
      && (Ask(Exec(h, calls), i, now).Admitted? <==> h.tickets[i].place <= g.done + 1)
  {
    var room, poll := h.tickets[i].room, Status(i, now);
    var all := calls + [poll];
    assert all[..|calls|] == calls;
    GrowsRun(h, calls, room);
    GateRun(h, all, room, lo, hi);
    AskIff(Exec(h, calls), i, now);
    hide Ask, Apply, ControlOf, GateOf, Paid, Ticks, Whole, Latest, LeavesControl;
    assert Exec(h, all) == Apply(Exec(h, calls), poll);
    assert PollTimes(h, all, room) == PollTimes(h, calls, room) + [now];
  }

  /** In AUTO mode, whatever the traffic and the monitor say, a ticket is admitted at its first poll at or after
      the clock plus the seconds that the lowest rate needs to reach it. */
  lemma BoundedWait(h: Hall, calls: seq<Call>, i: nat, now: int)
    requires i < |h.tickets| && h.tickets[i].place >= 1 && LeavesControl(calls, h.tickets[i].room)
    requires var room := h.tickets[i].room;
      && GateOf(h, room).clock > 0 && ControlOf(h, room).enabled && ControlOf(h, room).mode == Auto
      && now >= GateOf(h, room).clock + 1000 * WaitFor(GateOf(h, room), h.tickets[i].place, Lowest(h.knobs))
    ensures Ask(Exec(h, calls), i, now).Admitted?
  {
    var room, lo := h.tickets[i].room, Lowest(h.knobs);
    PollAfter(h, calls, i, now, lo, Highest(h.knobs));
    var g0, g := GateOf(h, room), GateOf(Apply(Exec(h, calls), Status(i, now)), room);
    var times := PollTimes(h, calls, room) + [now];
    assert times[|times| - 1] <= Latest(g0.clock, times);
    WholeMonotone(g0.clock, now, Latest(g0.clock, times));
    hide Exec, Apply, GateOf, PollTimes, Latest, Ask, ControlOf;
    WaitSuffices(g0, h.tickets[i].place, lo, Ticks(g0, g));
  }

  // ---- the ETA ---------------------------------------------------------------------------------

  /** At a constant rate, a ticket that is told to wait k seconds is admitted by a later poll if and only if some
      poll of the room, that one included, comes k seconds or more after the clock. */
  lemma EtaExact(h: Hall, i: nat, t: int, calls: seq<Call>, later: int, rate: nat)
    requires i < |h.tickets| && Ask(h, i, t).Processing? && Ask(h, i, t).standing.eta.Some?
    requires rate >= 1 && Rated(h, h.tickets[i].room, rate, rate)
    requires LeavesControl(calls, h.tickets[i].room) && GateOf(DoStatus(h, i, t), h.tickets[i].room).clock > 0
    ensures var told, room := DoStatus(h, i, t), h.tickets[i].room; var c := GateOf(told, room).clock;
      Ask(Exec(told, calls), i, later).Admitted? <==>
      Latest(c, PollTimes(told, calls, room) + [later]) >= c + 1000 * Ask(h, i, t).standing.eta.value
  {
    hide Exec, PollTimes, Latest, LeavesControl, Ask, StandingOf, Advance, RateOf, DoStatus, ControlOf, Rated, Paid,
      Ticks, Whole, GateOf, Apply;
    var room, told := h.tickets[i].room, DoStatus(h, i, t);
    EtaIs(h, i, t, rate);
    PollAfter(told, calls, i, later, rate, rate);
    var g0, g := GateOf(told, room), GateOf(Apply(Exec(told, calls), Status(i, later)), room);
    ReachedIff(g0, g, rate, h.tickets[i].place, Latest(g0.clock, PollTimes(told, calls, room) + [later]));
  }

  /** What the ticket was told, in terms of the gate it left. */
  lemma EtaIs(h: Hall, i: nat, t: int, rate: nat)
    requires i < |h.tickets| && Ask(h, i, t).Processing? && Ask(h, i, t).standing.eta.Some?
    requires rate >= 1 && Rated(h, h.tickets[i].room, rate, rate)
    ensures var room := h.tickets[i].room; var told := DoStatus(h, i, t); var g := GateOf(told, room);
      && told.tickets == h.tickets && Rated(told, room, rate, rate)
      && h.tickets[i].place > g.done + 1
      && g == Advance(GateOf(h, room), rate, t)
      && Ask(h, i, t).standing.eta.value == (h.tickets[i].place - g.done - 1 + rate - 1) / rate
  {
    var room := h.tickets[i].room;
    ControlStays(h, Status(i, t), room);
    ControlStays(h, Metrics(room, t), room);
    GateStep(h, Status(i, t), room);
    RateIn(h, room, rate, rate, t);
    RateIn(AdvanceDone(h, room, t), room, rate, rate, t);
    hide Advance, RateOf, ControlOf;
  }

  /** So the client can rely on it: k seconds after the answer it is admitted, and never as long as no poll
      of the room has come k - 1 seconds after the answer. */
  lemma EtaKept(h: Hall, i: nat, t: int, calls: seq<Call>, later: int, rate: nat)
    requires i < |h.tickets| && Ask(h, i, t).Processing? && Ask(h, i, t).standing.eta.Some?
    requires rate >= 1 && Rated(h, h.tickets[i].room, rate, rate)
    requires LeavesControl(calls, h.tickets[i].room) && t > 0 && GateOf(h, h.tickets[i].room).clock <= t
    ensures var told, k := DoStatus(h, i, t), Ask(h, i, t).standing.eta.value;
      && (later >= t + 1000 * k ==> Ask(Exec(told, calls), i, later).Admitted?)
      && ((forall p :: p in PollTimes(told, calls, h.tickets[i].room) + [later] ==> p < t + 1000 * (k - 1)) ==>
            !Ask(Exec(told, calls), i, later).Admitted?)
  {
    hide Exec, Rated, ControlOf, RateOf, Advance, PollTimes, Ask, StandingOf, DoStatus, GateOf, LeavesControl;
    var room, told := h.tickets[i].room, DoStatus(h, i, t);
    EtaIs(h, i, t, rate);
    ClockNear(GateOf(h, room), rate, t);
    EtaExact(h, i, t, calls, later, rate);
    var times := PollTimes(told, calls, room) + [later];
    assert later in times;
    assert forall p :: p in times ==> p == later || p in PollTimes(told, calls, room);
  }

  lemma ClockNear(g: Gate, rate: nat, t: int)
    requires rate >= 1 && g.clock <= t && t > 0
    ensures t - 1000 < Advance(g, rate, t).clock <= t && Advance(g, rate, t).clock > 0
  {
    if g.clock > 0 && Whole(g.clock, t) > 0 { Scale(1, rate, Whole(g.clock, t)); }
  }

  // ---- pausing ---------------------------------------------------------------------------------

  lemma PausedStep(h: Hall, call: Call, room: Room)
    requires !ControlOf(h, room).enabled
    ensures GateOf(Apply(h, call), room) == GateOf(h, room)
  {
    hide Advance, RateOf, StandingOf, Changed, ControlOf;
  }

  /** A disabled gate stands still, clock included: the first poll after it is enabled again pays the pause. */
  lemma {:induction false} PauseStandsStill(h: Hall, calls: seq<Call>, room: Room)
    requires !ControlOf(h, room).enabled && LeavesControl(calls, room)
    ensures GateOf(Exec(h, calls), room) == GateOf(h, room) && !ControlOf(Exec(h, calls), room).enabled
  {
    hide Apply, ControlOf, GateOf;
    if calls != [] {
      var before, last := calls[..|calls| - 1], calls[|calls| - 1];
      PauseStandsStill(h, before, room);
      PausedStep(Exec(h, before), last, room);
      ControlStays(Exec(h, before), last, room);
    }
  }

  // ---- the AUTO rate ---------------------------------------------------------------------------

  /** Neither the requests nor the backlog are worth a waiting room. */
  predicate Quiet(k: Knobs, rps: real, backlog: nat) {
    rps <= Max(1, k.bypassRps) as real && backlog <= k.bypassBacklog
  }

  predicate Congested(k: Knobs, rps: real, backlog: nat) {
    rps >= Max(1, k.queueRps) as real || backlog >= k.queueBacklog
  }

  /** The limits: the configured ones, but at least 1, and the upper one at least the lower one. */
  lemma LimitsAre(k: Knobs)
    ensures Lowest(k) >= 1 && Lowest(k) >= k.autoMin && (Lowest(k) == 1 || Lowest(k) == k.autoMin)
    ensures Highest(k) >= Lowest(k) && Highest(k) >= k.autoMax
    ensures Highest(k) == Lowest(k) || Highest(k) == k.autoMax
  {
  }

  /** On a room that is not congested, or short of 200 requests a second, the rate drains the backlog in the drain
      time, up to rounding and to the limits on either side. */
  lemma LoadRateDrains(k: Knobs, rps: real, backlog: nat)
    requires backlog > 0 && !Quiet(k, rps, backlog) && (rps < 200.0 || !Congested(k, rps, backlog))
    ensures var rate := LoadRate(k, rps, backlog); var drain := Max(10, k.drain);
      && (rate < Highest(k) ==> backlog < (rate + 1) * drain)
      && (rate > Lowest(k) ==> rate * drain <= backlog)
  {
    Quotient(backlog, Max(10, k.drain), LoadRate(k, rps, backlog));
  }

  lemma Quotient(backlog: nat, drain: nat, n: nat)
    requires drain >= 1
    ensures backlog / drain <= n ==> backlog < (n + 1) * drain
    ensures n <= backlog / drain ==> n * drain <= backlog
  {
    var q := backlog / drain;
    assert q * drain <= backlog < (q + 1) * drain;
    if q <= n { Scale(q + 1, n + 1, drain); }
    if n <= q { Scale(n, q, drain); }
  }

  lemma Halved(backlog: nat, drain: nat, n: nat)
    requires drain >= 1
    ensures backlog / drain / 2 <= n ==> backlog < 2 * (n + 1) * drain
    ensures n <= backlog / drain / 2 ==> 2 * n * drain <= backlog
  {
    Quotient(backlog, drain, 2 * n + 1);
    Quotient(backlog, drain, 2 * n);
  }

  /** Between 200 and 500 requests a second on a congested room, twice the time is taken. */
  lemma LoadRateThrottles(k: Knobs, rps: real, backlog: nat)
    requires 200.0 <= rps < 500.0 && backlog > 0 && !Quiet(k, rps, backlog) && Congested(k, rps, backlog)
    ensures var rate := LoadRate(k, rps, backlog); var drain := Max(10, k.drain);
      && (rate < Highest(k) ==> backlog < 2 * (rate + 1) * drain)
      && (rate > Lowest(k) ==> 2 * rate * drain <= backlog)
  {
    Halved(backlog, Max(10, k.drain), LoadRate(k, rps, backlog));
  }

  /** A quiet room runs at the highest rate, a storm of requests on a congested one at the lowest, and otherwise a
      room without a backlog at the highest, or at half of it. */
  lemma LoadRateExtremes(k: Knobs, rps: real, backlog: nat)
    ensures Quiet(k, rps, backlog) ==> LoadRate(k, rps, backlog) == Highest(k)
    ensures !Quiet(k, rps, backlog) && Congested(k, rps, backlog) && rps >= 500.0 ==>
      LoadRate(k, rps, backlog) == Lowest(k)
    ensures backlog == 0 && !(Congested(k, rps, backlog) && rps >= 200.0) ==> LoadRate(k, rps, backlog) == Highest(k)
    ensures backlog == 0 && !Quiet(k, rps, backlog) && Congested(k, rps, backlog) && 200.0 <= rps < 500.0 ==>
      LoadRate(k, rps, backlog) == Max(Lowest(k), Highest(k) / 2)
  {
  }

  /** A monitor's positive suggestion is taken, up to the limits; without one the load decides. */
  lemma RateExtremes(h: Hall, room: Room, now: int)
    ensures var k, rate := h.knobs, AutoRate(h, room, now);
      if room in h.observed && h.observed[room] > 0 then
        && (Lowest(k) <= h.observed[room] <= Highest(k) ==> rate == h.observed[room])
        && (h.observed[room] < Lowest(k) ==> rate == Lowest(k))
        && (h.observed[room] > Highest(k) ==> rate == Highest(k))
      else rate == LoadRate(k, Rps(h, room, now), Backlog(h, room))
  {
    hide Rps, Backlog, LoadRate;
  }

  /** The last suggestion for a room is the one in force there, and other rooms keep theirs. */
  lemma SuggestionTaken(h: Hall, room: Room, suggested: int, now: int)
    ensures var nu := Apply(h, Observe(room, suggested));
      && (1 <= suggested && Lowest(h.knobs) <= suggested <= Highest(h.knobs) ==> AutoRate(nu, room, now) == suggested)
      && forall other :: other != room ==> AutoRate(nu, other, now) == AutoRate(h, other, now)
  {
    var nu := Apply(h, Observe(room, suggested));
    forall other ensures Rps(nu, other, now) == Rps(h, other, now) && Backlog(nu, other) == Backlog(h, other) {}
    hide Rps, Backlog, LoadRate;
  }

  /** The first poll of a gate starts its clock and admits nobody. */
  lemma FirstPoll(h: Hall, room: Room, now: int)
    requires ControlOf(h, room).enabled && (room in h.gates ==> h.gates[room].clock <= 0)
    ensures var nu := AdvanceDone(h, room, now);
      room in nu.gates && nu.gates[room].clock == now
      && nu.gates[room].done == if room in h.gates then h.gates[room].done else 0
  {
    hide RateOf, ControlOf;
  }

  /** The control in force: AUTO and enabled until someone sets it, and a rate of at least 1, which is the setting
      where none is stored. A manual rate is that rate. */
  lemma ControlIs(h: Hall, room: Room, now: int)
    ensures room !in h.control ==> ControlOf(h, room).mode == Auto && ControlOf(h, room).enabled
    ensures room in h.control ==>
      var c, stored := ControlOf(h, room), h.control[room];
      && c.mode == stored.mode && c.enabled == stored.enabled && c.rate >= 1
      && (stored.rate >= 1 ==> c.rate == stored.rate) && (stored.rate < 0 ==> c.rate == 1)
      && (stored.rate == 0 && h.knobs.admitRate >= 1 ==> c.rate == h.knobs.admitRate)
      && (stored.rate == 0 && h.knobs.admitRate < 1 ==> c.rate == 1)
    ensures RateOf(h, room, now) ==
      if ControlOf(h, room).mode == Manual then ControlOf(h, room).rate else AutoRate(h, room, now)
  {
    hide AutoRate;
  }
}
