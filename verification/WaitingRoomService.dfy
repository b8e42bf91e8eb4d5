/** The waiting room's procedures over the keys they update. Each does what the specification says, and keeps
    the room's order: tickets in line, and permits only for tickets whose turn had come. */
module WaitingRoomService {
  import opened Gate
  import opened Text
  import opened WaitingRoom
  import opened WaitingRoomTheorems
  import Spec = WaitingRoom

  datatype EnterAnswer = BadRequest | Queued(ref: nat, place: nat)

  class Lobby {
    const knobs: Knobs
    var enq: map<Room, nat>
    var gates: map<Room, Gate>
    var control: map<Room, Control>
    var observed: map<Room, int>
    var hits: map<(Room, int), nat>
    var tickets: seq<Ticket>
    var permits: seq<Permit>

    function View(): Hall
      reads this
    {
      Hall(knobs, enq, gates, control, observed, hits, tickets, permits)
    }

    ghost predicate Valid()
      reads this
    {
      HallOk(View())
    }

    constructor (knobs: Knobs)
      ensures Valid() && View() == Hall(knobs, map[], map[], map[], map[], map[], [], [])
    {
      this.knobs := knobs;
      enq, gates, control, observed, hits, tickets, permits := map[], map[], map[], map[], map[], [], [];
    }

    /** _control_snapshot. */
    method ControlSnapshot(room: Room) returns (c: Control)
      ensures c == ControlOf(View(), room)
    {
      if room !in control {
        return Control(Auto, true, knobs.admitRate);
      }
      c := control[room];
      var rate := if c.rate == 0 then knobs.admitRate else c.rate;
      c := c.(rate := if rate < 1 then 1 else rate);
    }

    /** _rps_estimate: the buckets of the last seconds, summed. */
    method RpsEstimate(room: Room, now: int) returns (rps: real)
      ensures rps == Rps(View(), room, now)
    {
      var w: nat := if knobs.window < 1 then 1 else knobs.window;
      var sum: nat := 0;
      for i := 0 to w
        invariant sum == Recent(hits, room, now / 1000, i)
      {
        var bucket := (room, now / 1000 - i);
        if bucket in hits {
          sum := sum + hits[bucket];
        }
      }
      rps := sum as real / w as real;
    }

    /** _auto_effective_rate. */
    method AutoEffectiveRate(room: Room, now: int) returns (rate: nat)
      ensures rate == AutoRate(View(), room, now)
      ensures Lowest(knobs) <= rate <= Highest(knobs)
    {
      var mn: nat := Max(1, knobs.autoMin);
      var mx: nat := Max(mn, knobs.autoMax);
      if room in observed {
        var r := observed[room];
        if r > 0 {
          return Max(mn, Min(mx, r));
        }
      }
      var rps := RpsEstimate(room, now);
      var entered := if room in enq then enq[room] else 0;
      var done := if room in gates then gates[room].done else 0;
      rate := LoadRate(knobs, rps, Max(0, entered - done));
    }

    /** The rate in force on an enabled gate. */
    method EffectiveRate(c: Control, room: Room, now: int) returns (rate: nat)
      requires c == ControlOf(View(), room)
      ensures rate == RateOf(View(), room, now) && rate >= 1
    {
      if c.mode == Manual {
        rate := Max(1, if c.rate == 0 then knobs.admitRate else c.rate);
      } else {
        rate := AutoEffectiveRate(room, now);
      }
    }

    /** _advance_done: the count, after the whole seconds since the clock were paid. */
    method AdvanceDone(room: Room, now: int) returns (done: nat)
      modifies this`gates
      ensures View() == Spec.AdvanceDone(old(View()), room, now)
      ensures done == GateOf(View(), room).done
    {
      var c := ControlSnapshot(room);
      if !c.enabled {
        return if room in gates then gates[room].done else 0;
      }
      var rate := EffectiveRate(c, room, now);
      var clock := if room in gates then gates[room].clock else 0;
      done := if room in gates then gates[room].done else 0;
      hide RateOf, ControlOf;
      if clock <= 0 {
        gates := gates[room := Gate(done, now)];
        return;
      }
      var elapsed := Max(0, now - clock);
      var inc := (elapsed / 1000) * rate;
      if inc <= 0 {
        assert gates == gates[room := gates[room]];
        return;
      }
      done := done + inc;
      gates := gates[room := Gate(done, clock + (elapsed / 1000) * 1000)];
    }

    /** The next place, the second's bucket and the ticket. */
    method Issue(room: Room, user: nat, now: int)
      modifies this`enq, this`hits, this`tickets
      ensures View() == Apply(old(View()), Enter(room, user, now))
    {
      var place: nat := (if room in enq then enq[room] else 0) + 1;
      enq := enq[room := place];
      var bucket := (room, now / 1000);
      hits := hits[bucket := (if bucket in hits then hits[bucket] else 0) + 1];
      tickets := tickets + [Ticket(room, user, place)];
    }

    /** enter: a ticket behind every other of its room. */
    method EnterRoom(kind: Kind, entity: int, user: int, now: int) returns (answer: EnterAnswer)
      requires Valid()
      modifies this`enq, this`hits, this`tickets
      ensures Valid()
      ensures answer == BadRequest <==> entity <= 0 || user <= 0
      ensures answer == BadRequest ==> View() == old(View())
      ensures answer.Queued? ==>
        && View() == Apply(old(View()), Enter(Room(kind, entity), user, now))
        && |tickets| > 0 && answer.ref == |tickets| - 1 && tickets[answer.ref].place == answer.place
        && LastInLine(tickets, Room(kind, entity), answer.place)
    {
      if entity <= 0 || user <= 0 {
        return BadRequest;
      }
      var room := Room(kind, entity);
      EntersLast(View(), room, user, now);
      HallStep(View(), Enter(room, user, now));
      hide HallOk, LastInLine, DoEnter;
      Issue(room, user, now);
      answer := Queued(|tickets| - 1, tickets[|tickets| - 1].place);
    }

    /** status: the gate advances, the position and the ETA follow, and a permit when it is the ticket's turn. */
    method StatusOf(ticket: nat, now: int) returns (answer: Answer)
      requires Valid()
      modifies this`gates, this`permits
      ensures Valid()
      ensures answer.Admitted? ==>
        ticket < |tickets| && TurnOf(View(), ticket, tickets[ticket].room, tickets[ticket].user)
      ensures answer == Ask(old(View()), ticket, now)
      ensures View() == Apply(old(View()), Status(ticket, now))
    {
      hide RateOf, ControlOf, Spec.AdvanceDone, HallOk, TurnOf;
      HallStep(View(), Status(ticket, now));
      StatusTurn(View(), ticket, now);
      if ticket >= |tickets| {
        return UnknownOrExpired;
      }
      var t := tickets[ticket];
      var done := AdvanceDone(t.room, now);
      var position: nat := if t.place > 0 then Max(0, t.place - done) else 0;
      var ahead: nat := if position > 0 then Max(0, position - 1) else 0;
      var rate := ShownRate(t.room, now);
      var eta: Option<nat> := if rate > 0 && ahead > 0 then Some((ahead + rate - 1) / rate) else None;
      var standing := Standing(done, position, ahead, rate, eta);
      if position <= 1 && t.place > 0 {
        answer := Admitted(|permits|, standing);
        permits := permits + [Permit(t.room, t.user, ticket)];
      } else {
        answer := Processing(standing);
      }
    }

    /** The rate a status answer shows. */
    method ShownRate(room: Room, now: int) returns (rate: nat)
      ensures rate == if ControlOf(View(), room).enabled then RateOf(View(), room, now) else 0
    {
      var c := ControlSnapshot(room);
      if c.enabled {
        rate := EffectiveRate(c, room, now);
      } else {
        rate := 0;
      }
    }

    /** set_control_full. */
    method SetControlFull(room: Room, mode: Option<Mode>, enabled: Option<bool>, rate: Option<int>)
      requires Valid()
      modifies this`control
      ensures Valid()
      ensures var c := ControlOf(View(), room);
        && c.mode == (if mode.Some? then mode.value else old(ControlOf(View(), room).mode))
        && c.enabled == (if enabled.Some? then enabled.value else old(ControlOf(View(), room).enabled))
        && (rate.Some? ==> c.rate == Max(1, rate.value))
        && (rate.None? && old(ControlOf(View(), room)).rate >= 1 ==> c.rate == old(ControlOf(View(), room)).rate)
      ensures forall other :: other != room ==> ControlOf(View(), other) == ControlOf(old(View()), other)
      ensures View() == Apply(old(View()), SetControl(room, mode, enabled, rate))
    {
      hide HallOk;
      HallStep(View(), SetControl(room, mode, enabled, rate));
      var next := ControlSnapshot(room);
      if mode.Some? {
        next := next.(mode := mode.value);
      }
      if enabled.Some? {
        next := next.(enabled := enabled.value);
      }
      if rate.Some? {
        next := next.(rate := Max(1, rate.value));
      }
      control := control[room := next];
    }

    /** verify_permit. */
    method VerifyPermit(token: nat, room: Room, user: nat) returns (valid: bool)
      requires Valid()
      ensures valid ==> exists i: nat :: TurnOf(View(), i, room, user)
      ensures valid == Verify(View(), token, room, user)
    {
      if token >= |permits| {
        return false;
      }
      valid := permits[token].room == room && permits[token].user == user;
      if valid {
        assert PermitOk(View(), permits[token]);
        assert TurnOf(View(), permits[token].ticket, room, user);
      }
    }

    /** The booking commit's gate: the permit, else a fresh one by way of the queue reference. */
    method CommitGate(token: Option<nat>, ticket: Option<nat>, room: Room, user: nat, now: int) returns (passes: bool)
      requires Valid()
      modifies this`gates, this`permits
      ensures Valid()
      ensures passes ==> exists i: nat :: TurnOf(View(), i, room, user)
      ensures passes == Passes(old(View()), token, ticket, room, user, now)
      ensures View() == AfterGate(old(View()), token, ticket, room, user, now)
    {
      hide Ask, DoStatus, HallOk, TurnOf;
      if token.Some? {
        passes := VerifyPermit(token.value, room, user);
        if passes {
          return;
        }
      }
      if ticket.None? {
        return false;
      }
      var answer := StatusOf(ticket.value, now);
      if !answer.Admitted? {
        return false;
      }
      passes := VerifyPermit(answer.token, room, user);
    }
  }
}
