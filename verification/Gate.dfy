/** The waiting-room gate of one room: a count of admitted places and the clock up to which it was paid out.

    Whole seconds are paid at the rate in force; the clock moves by exactly the seconds paid, so the fraction
    of a second that is left over is paid by a later poll. */
module Gate {

  /** `clock` is in milliseconds; a clock that is not positive was never initialised. */
  datatype Gate = Gate(done: nat, clock: int)

  /** The whole seconds from `from` to `now`, none when `now` is not later. */
  function Whole(from: int, now: int): nat {
    if now <= from then 0 else (now - from) / 1000
  }

  /** _advance_done at a given rate: initialise the clock, or pay the whole seconds since it. */
  function Advance(g: Gate, rate: nat, now: int): Gate {
    if g.clock <= 0 then g.(clock := now)
    else
      var inc := Whole(g.clock, now) * rate;
      if inc <= 0 then g else Gate(g.done + inc, g.clock + Whole(g.clock, now) * 1000)
  }

  /** `g` was reached from `g0` by paying whole seconds at rates between `lo` and `hi`. */
  ghost predicate Paid(g0: Gate, g: Gate, lo: nat, hi: nat) {
    && g0.clock > 0 && g0.clock <= g.clock && (g.clock - g0.clock) % 1000 == 0
    && g0.done + lo * Ticks(g0, g) <= g.done <= g0.done + hi * Ticks(g0, g)
  }

  function Ticks(g0: Gate, g: Gate): nat
    requires g0.clock <= g.clock
  {
    (g.clock - g0.clock) / 1000
  }

  lemma Distribute(r: nat, a: nat, b: nat)
    ensures r * (a + b) == r * a + r * b
  {
  }

  lemma Scale(a: nat, b: nat, n: nat)
    requires a <= b
    ensures a * n <= b * n && n * a <= n * b
  {
  }

  /** Paying at a rate in the range keeps the range, and the clock reaches the last whole second. */
  lemma PaidAdvance(g0: Gate, g: Gate, lo: nat, hi: nat, rate: nat, now: int)
    requires Paid(g0, g, lo, hi) && 1 <= rate && lo <= rate <= hi
    ensures var nu := Advance(g, rate, now);
      && Paid(g0, nu, lo, hi)
      && Ticks(g0, nu) == if Ticks(g0, g) < Whole(g0.clock, now) then Whole(g0.clock, now) else Ticks(g0, g)
  {
    var k, n := Whole(g.clock, now), Ticks(g0, g);
    Scale(lo, rate, k);
    Scale(rate, hi, k);
    Distribute(lo, n, k);
    Distribute(hi, n, k);
    if k > 0 {
      Scale(1, rate, k);
      assert Advance(g, rate, now) == Gate(g.done + k * rate, g.clock + k * 1000);
      assert g.clock - g0.clock == n * 1000;
      assert Whole(g0.clock, now) == n + k;
    } else {
      assert Advance(g, rate, now) == g;
      assert Whole(g0.clock, now) <= n;
    }
  }

  /** Nothing is paid at first. */
  lemma PaidSelf(g: Gate, lo: nat, hi: nat)
    requires g.clock > 0
    ensures Paid(g, g, lo, hi) && Ticks(g, g) == 0 == Whole(g.clock, g.clock)
  {
  }

  /** At a constant rate the seconds paid determine the gate. */
  lemma SamePaid(g0: Gate, a: Gate, b: Gate, rate: nat)
    requires Paid(g0, a, rate, rate) && Paid(g0, b, rate, rate) && Ticks(g0, a) == Ticks(g0, b)
    ensures a == b
  {
  }

  /** The latest of the poll times, or the clock itself. */
  function Latest(from: int, times: seq<int>): (t: int)
    ensures from <= t
    ensures t == from || t in times
    ensures forall i :: 0 <= i < |times| ==> times[i] <= t
  {
    if times == [] then from
    else
      var rest := Latest(from, times[..|times| - 1]);
      if times[|times| - 1] <= rest then rest else times[|times| - 1]
  }

  /** Polls at the given times, one after the other; the times need not be in order. */
  function Polls(g: Gate, rate: nat, times: seq<int>): Gate {
    if times == [] then g else Advance(Polls(g, rate, times[..|times| - 1]), rate, times[|times| - 1])
  }

  lemma {:induction false} PollsPaid(g: Gate, rate: nat, times: seq<int>)
    requires g.clock > 0 && rate >= 1
    ensures Paid(g, Polls(g, rate, times), rate, rate)
    ensures Ticks(g, Polls(g, rate, times)) == Whole(g.clock, Latest(g.clock, times))
  {
    if times != [] {
      var before := times[..|times| - 1];
      PollsPaid(g, rate, before);
      PaidAdvance(g, Polls(g, rate, before), rate, rate, rate, times[|times| - 1]);
      WholeMonotone(g.clock, Latest(g.clock, before), times[|times| - 1]);
    }
  }

  lemma WholeMonotone(from: int, a: int, b: int)
    ensures a <= b ==> Whole(from, a) <= Whole(from, b)
    ensures b <= a ==> Whole(from, b) <= Whole(from, a)
  {
  }

  /** At a constant rate the gate does not depend on when it was polled: any list of polls, in any order,
      leaves what one poll at the latest time leaves, and no fraction of a second is lost or paid twice. */
  lemma PollScheduleIndependent(g: Gate, rate: nat, times: seq<int>)
    requires g.clock > 0 && rate >= 1
    ensures Polls(g, rate, times).done == g.done + rate * Whole(g.clock, Latest(g.clock, times))
    ensures Polls(g, rate, times) == Advance(g, rate, Latest(g.clock, times))
  {
    PollsPaid(g, rate, times);
    PaidSelf(g, rate, rate);
    PaidAdvance(g, g, rate, rate, rate, Latest(g.clock, times));
    SamePaid(g, Polls(g, rate, times), Advance(g, rate, Latest(g.clock, times)), rate);
  }

  /** Seconds that admit ticket `place` at `lo` places a second. */
  function WaitFor(g: Gate, place: nat, lo: nat): nat
    requires lo >= 1
  {
    if place <= g.done + 1 then 0 else (place - 1 - g.done + lo - 1) / lo
  }

  lemma WaitSuffices(g: Gate, place: nat, lo: nat, n: nat)
    requires lo >= 1 && WaitFor(g, place, lo) <= n
    ensures place <= g.done + lo * n + 1
  {
    if place > g.done + 1 {
      var a := place - 1 - g.done;
      var q := (a + lo - 1) / lo;
      assert lo * q + (a + lo - 1) % lo == a + lo - 1;
      Scale(q, n, lo);
    }
  }

  lemma CeilIff(ahead: nat, rate: nat, n: nat)
    requires rate >= 1
    ensures (ahead + rate - 1) / rate <= n <==> ahead <= rate * n
  {
    var q := (ahead + rate - 1) / rate;
    assert rate * q <= ahead + rate - 1 < rate * q + rate;
    if q <= n { Scale(q, n, rate); } else { Scale(n, q - 1, rate); Distribute(rate, q - 1, 1); }
  }

  /** At a constant rate, a ticket behind the next one is reached after exactly the seconds it was told. */
  lemma ReachedIff(g0: Gate, g: Gate, rate: nat, place: nat, latest: int)
    requires rate >= 1 && Paid(g0, g, rate, rate) && place > g0.done + 1
    requires g0.clock <= latest && Ticks(g0, g) == Whole(g0.clock, latest)
    ensures place <= g.done + 1 <==> latest >= g0.clock + 1000 * ((place - g0.done - 1 + rate - 1) / rate)
  {
    CeilIff(place - g0.done - 1, rate, Ticks(g0, g));
  }
}
