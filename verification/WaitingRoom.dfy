/** The waiting room: tickets, control, the AUTO rate, the gate and the permits, and what holds over any
    sequence of its calls. Each call is one action here; `GateRace` splits the gate's polls. */
module WaitingRoom {
  import opened Gate
  import opened Text

  datatype Kind = Concert | Theater
  datatype Room = Room(kind: Kind, id: nat)
  datatype Mode = Auto | Manual

  /** The stored control value; `rate` is whatever an operator's tool wrote. */
  datatype Control = Control(mode: Mode, enabled: bool, rate: int)

  /** The service's settings, unconstrained. */
  datatype Knobs = Knobs(admitRate: int, autoMin: int, autoMax: int, drain: int, window: int,
                         bypassRps: int, bypassBacklog: int, queueRps: int, queueBacklog: int)

  datatype Ticket = Ticket(room: Room, user: nat, place: nat)

  /** A permit; `ticket`, the ticket it was issued for, is history only. */
  datatype Permit = Permit(room: Room, user: nat, ticket: nat)

  /** The n-th queue reference and the n-th permit token are n: a UUID is fresh.
      `observed` is the rate an external monitor suggests, `hits` the calls of enter in each second. */
  datatype Hall = Hall(
    knobs: Knobs,
    enq: map<Room, nat>,
    gates: map<Room, Gate>,
    control: map<Room, Control>,
    observed: map<Room, int>,
    hits: map<(Room, int), nat>,
    tickets: seq<Ticket>,
    permits: seq<Permit>)

  function Max(a: int, b: int): int {
    if a < b then b else a
  }

  function Min(a: int, b: int): int {
    if a < b then a else b
  }

  /** A missing counter reads as zero. */
  function Count<K>(m: map<K, nat>, k: K): nat {
    if k in m then m[k] else 0
  }

  function GateOf(h: Hall, room: Room): Gate {
    if room in h.gates then h.gates[room] else Gate(0, 0)
  }

  /** _control_snapshot. */
  function ControlOf(h: Hall, room: Room): Control {
    if room !in h.control then Control(Auto, true, h.knobs.admitRate)
    else
      var c := h.control[room];
      c.(rate := Max(1, if c.rate == 0 then h.knobs.admitRate else c.rate))
  }

  /** The calls of enter in the last `w` seconds. */
  function Recent(hits: map<(Room, int), nat>, room: Room, sec: int, w: nat): nat {
    if w == 0 then 0 else Recent(hits, room, sec, w - 1) + Count(hits, (room, sec - (w - 1)))
  }

  function Rps(h: Hall, room: Room, now: int): real {
    var w := Max(1, h.knobs.window);
    Recent(h.hits, room, now / 1000, w) as real / w as real
  }

  function Lowest(k: Knobs): nat {
    Max(1, k.autoMin)
  }

  function Highest(k: Knobs): nat {
    Max(Lowest(k), k.autoMax)
  }

  function Backlog(h: Hall, room: Room): nat {
    Max(0, Count(h.enq, room) - GateOf(h, room).done)
  }

  /** The rate the service chooses by itself from the load it sees. */
  function LoadRate(k: Knobs, rps: real, backlog: nat): (rate: nat)
    ensures Lowest(k) <= rate <= Highest(k)
  {
    var mn, mx := Lowest(k), Highest(k);
    if rps <= Max(1, k.bypassRps) as real && backlog <= k.bypassBacklog then mx
    else
      var congested := rps >= Max(1, k.queueRps) as real || backlog >= k.queueBacklog;
      if congested && rps >= 500.0 then mn
      else
        var byBacklog: nat := if backlog > 0 then backlog / Max(10, k.drain) else mx;
        if congested && rps >= 200.0 then Max(mn, Min(mx, Max(mn, byBacklog / 2)))
        else Max(mn, Min(mx, Max(mn, byBacklog)))
  }

  /** _auto_effective_rate: a monitor's suggestion first, then the observed load. */
  function AutoRate(h: Hall, room: Room, now: int): (rate: nat)
    ensures Lowest(h.knobs) <= rate <= Highest(h.knobs)
  {
    if room in h.observed && h.observed[room] > 0 then
      Max(Lowest(h.knobs), Min(Highest(h.knobs), h.observed[room]))
    else LoadRate(h.knobs, Rps(h, room, now), Backlog(h, room))
  }

  /** The rate in force on an enabled gate. */
  function RateOf(h: Hall, room: Room, now: int): (rate: nat)
    ensures rate >= 1
  {
    var c := ControlOf(h, room);
    if c.mode == Manual then Max(1, if c.rate == 0 then h.knobs.admitRate else c.rate) else AutoRate(h, room, now)
  }

  /** _advance_done. */
  function AdvanceDone(h: Hall, room: Room, now: int): Hall {
    if !ControlOf(h, room).enabled then h
    else h.(gates := h.gates[room := Advance(GateOf(h, room), RateOf(h, room, now), now)])
  }

  // ---- the calls -------------------------------------------------------------------------------

  /** The part of the answer that tells the client where it stands. */
  datatype Standing = Standing(done: nat, position: nat, ahead: nat, rate: nat, eta: Option<nat>)

  datatype Answer =
    | UnknownOrExpired
    | Admitted(token: nat, standing: Standing)
    | Processing(standing: Standing)

  /** Where a ticket stands once the gate has advanced. */
  function StandingOf(h: Hall, room: Room, place: nat, now: int): Standing {
    var done := GateOf(h, room).done;
    var position := if place > 0 then Max(0, place - done) else 0;
    var ahead := if position > 0 then Max(0, position - 1) else 0;
    var rate := if ControlOf(h, room).enabled then RateOf(h, room, now) else 0;
    Standing(done, position, ahead, rate, if rate > 0 && ahead > 0 then Some((ahead + rate - 1) / rate) else None)
  }

  /** The answer of `status`. */
  function Ask(h: Hall, ticket: nat, now: int): Answer {
    if ticket >= |h.tickets| then UnknownOrExpired
    else
      var t := h.tickets[ticket];
      var s := StandingOf(AdvanceDone(h, t.room, now), t.room, t.place, now);
      if s.position <= 1 && t.place > 0 then Admitted(|h.permits|, s) else Processing(s)
  }

  datatype Call =
    | Enter(room: Room, user: nat, now: int)
    | Status(ticket: nat, now: int)
    | Metrics(room: Room, now: int)
    | SetControl(room: Room, mode: Option<Mode>, enabled: Option<bool>, rate: Option<int>)
    | Observe(room: Room, suggested: int)

  function DoEnter(h: Hall, room: Room, user: nat, now: int): Hall {
    var place := Count(h.enq, room) + 1;
    var second := (room, now / 1000);
    h.(enq := h.enq[room := place], hits := h.hits[second := Count(h.hits, second) + 1],
       tickets := h.tickets + [Ticket(room, user, place)])
  }

  function DoStatus(h: Hall, ticket: nat, now: int): Hall {
    if ticket >= |h.tickets| then h
    else
      var t := h.tickets[ticket];
      var nu := AdvanceDone(h, t.room, now);
      if Ask(h, ticket, now).Admitted? then nu.(permits := nu.permits + [Permit(t.room, t.user, ticket)]) else nu
  }

  /** set_control_full: what is not given stays. */
  function Changed(c: Control, mode: Option<Mode>, enabled: Option<bool>, rate: Option<int>): Control {
    Control(if mode.Some? then mode.value else c.mode,
            if enabled.Some? then enabled.value else c.enabled,
            if rate.Some? then Max(1, rate.value) else c.rate)
  }

  function Apply(h: Hall, call: Call): Hall {
    match call
    case Enter(room, user, now) => DoEnter(h, room, user, now)
    case Status(ticket, now) => DoStatus(h, ticket, now)
    case Metrics(room, now) => AdvanceDone(h, room, now)
    case SetControl(room, mode, enabled, rate) =>
      h.(control := h.control[room := Changed(ControlOf(h, room), mode, enabled, rate)])
    case Observe(room, suggested) => h.(observed := h.observed[room := suggested])
  }

  function Exec(h: Hall, calls: seq<Call>): Hall {
    if calls == [] then h else Apply(Exec(h, calls[..|calls| - 1]), calls[|calls| - 1])
  }

  /** verify_permit: the token was issued to this user for this room. */
  function Verify(h: Hall, token: nat, room: Room, user: nat): bool {
    token < |h.permits| && h.permits[token].room == room && h.permits[token].user == user
  }

  /** The gate of the booking commit: a valid permit, or a queue reference that is admitted on the spot
      and whose new permit verifies. */
  function Passes(h: Hall, token: Option<nat>, ticket: Option<nat>, room: Room, user: nat, now: int): bool {
    (token.Some? && Verify(h, token.value, room, user))
    || (ticket.Some? && var a := Ask(h, ticket.value, now);
        a.Admitted? && Verify(DoStatus(h, ticket.value, now), a.token, room, user))
  }

  /** What the gate of the commit leaves: the fallback is a status call. */
  function AfterGate(h: Hall, token: Option<nat>, ticket: Option<nat>, room: Room, user: nat, now: int): Hall {
    if (token.Some? && Verify(h, token.value, room, user)) || ticket.None? then h else DoStatus(h, ticket.value, now)
  }
}
