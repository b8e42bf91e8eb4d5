/** The Redis keys that carry one show's seats, and the atomic commands the services send.

    Every function below is one Redis round trip that cannot be split: a single command, a Lua script,
    or a MULTI/EXEC pipeline. `BookingProtocol` interleaves them; `BookingService` runs them in loops. */
module SeatStore {

  type Pos = n: nat | n > 0 witness 1

  /** A seat position. The parsers of both services let only positive coordinates through. */
  datatype Seat = Seat(row: Pos, col: Pos)

  /** A booking reference. The n-th request gets reference n, which is fresh, as a random UUID is. */
  type Ref = nat

  /** The value of a seat key: the reference that holds it, or the string CONFIRMED. */
  datatype Owner = Held(ref: Ref) | Confirmed

  /** `remain` is the counter, `keys` the seat keys, `hold` the hold set, `meta` the hold metadata. */
  datatype Redis = Redis(remain: nat, keys: map<Seat, Owner>, hold: set<Seat>, meta: map<Ref, seq<Seat>>)

  function Elems(seats: seq<Seat>): set<Seat> {
    set s | s in seats
  }

  ghost predicate Distinct(seats: seq<Seat>) {
    forall i, j :: 0 <= i < j < |seats| ==> seats[i] != seats[j]
  }

  /** The requested seats whose key is absent. */
  function Free(keys: map<Seat, Owner>, seats: seq<Seat>): set<Seat> {
    set s | s in seats && s !in keys
  }

  /** The requested seats whose key is `r`. */
  function Mine(keys: map<Seat, Owner>, seats: seq<Seat>, r: Ref): set<Seat> {
    set s | s in seats && s in keys && keys[s] == Held(r)
  }

  /** How many requested seats precede the first one that is taken. */
  function FreePrefix(keys: map<Seat, Owner>, seats: seq<Seat>): (n: nat)
    ensures n <= |seats|
    ensures forall i :: 0 <= i < n ==> seats[i] !in keys
    ensures n < |seats| ==> seats[n] in keys
  {
    if seats == [] || seats[0] in keys then 0 else 1 + FreePrefix(keys, seats[1..])
  }

  /** The keys once `r` has won the given seats. */
  function Take(keys: map<Seat, Owner>, won: set<Seat>, r: Ref): map<Seat, Owner> {
    keys + map s | s in won :: Held(r)
  }

  /** SET NX of every requested seat in one pipeline. */
  function SetNx(rd: Redis, seats: seq<Seat>, r: Ref): Redis {
    rd.(keys := Take(rd.keys, Free(rd.keys, seats), r))
  }

  /** SADD of the seats to the hold set and SET of the hold metadata. */
  function Index(rd: Redis, seats: seq<Seat>, r: Ref): Redis {
    rd.(hold := rd.hold + Elems(seats), meta := rd.meta[r := seats])
  }

  /** DEL of the seat keys and SREM from the hold set. */
  function Drop(rd: Redis, mine: set<Seat>): Redis {
    rd.(keys := rd.keys - mine, hold := rd.hold - mine)
  }

  /** The keys after SET to CONFIRMED of each of `mine`. */
  function Confirm(keys: map<Seat, Owner>, mine: set<Seat>): map<Seat, Owner> {
    keys + map s | s in mine :: Confirmed
  }

  /** The worker's closing pipeline: confirm or delete the seat keys, clear the hold set, delete the metadata. */
  function Finish(rd: Redis, r: Ref, mine: set<Seat>, ok: bool): Redis {
    rd.(keys := if ok then Confirm(rd.keys, mine) else rd.keys - mine,
        hold := rd.hold - mine,
        meta := rd.meta - {r})
  }

  /** INCRBY of the counter by a non-negative amount. */
  function Credit(rd: Redis, k: nat): Redis {
    rd.(remain := rd.remain + k)
  }

  /** How many seat keys exist. */
  function Occupied(rd: Redis): nat {
    |rd.keys|
  }

  lemma ElemsCard(seats: seq<Seat>)
    requires Distinct(seats)
    ensures |Elems(seats)| == |seats|
  {
    if seats != [] {
      ElemsCard(seats[1..]);
      assert Elems(seats) == Elems(seats[1..]) + {seats[0]};
    }
  }

  /** Winning keys adds exactly the free seats to the occupied ones. */
  lemma SetNxCount(rd: Redis, seats: seq<Seat>, r: Ref)
    ensures Occupied(SetNx(rd, seats, r)) == Occupied(rd) + |Free(rd.keys, seats)|
  {
    var won := Free(rd.keys, seats);
    assert SetNx(rd, seats, r).keys.Keys == rd.keys.Keys + won;
    assert rd.keys.Keys !! won;
  }

  lemma DropCount(rd: Redis, mine: set<Seat>)
    requires mine <= rd.keys.Keys
    ensures Occupied(Drop(rd, mine)) + |mine| == Occupied(rd)
  {
    assert (rd.keys - mine).Keys == rd.keys.Keys - mine;
    assert rd.keys.Keys == (rd.keys.Keys - mine) + mine;
  }

  /** The closing pipeline frees the seats of a failure and keeps those of a success. */
  lemma FinishCount(rd: Redis, r: Ref, mine: set<Seat>, ok: bool)
    requires mine <= rd.keys.Keys
    ensures Occupied(Finish(rd, r, mine, ok)) + (if ok then 0 else |mine|) == Occupied(rd)
  {
    if ok {
      assert Confirm(rd.keys, mine).Keys == rd.keys.Keys;
    } else {
      DropCount(rd, mine);
    }
  }

  /** The free seats behind the first taken one: their keys are won and never given back. */
  function Leaked(keys: map<Seat, Owner>, seats: seq<Seat>): set<Seat> {
    Free(keys, seats) - Elems(seats[..FreePrefix(keys, seats)])
  }

  lemma PrefixMine(rd: Redis, seats: seq<Seat>, r: Ref)
    requires Distinct(seats)
    ensures var held := seats[..FreePrefix(rd.keys, seats)];
      && Mine(SetNx(rd, seats, r).keys, held, r) == Elems(held)
      && |Elems(held)| == FreePrefix(rd.keys, seats)
      && Elems(held) <= Free(rd.keys, seats)
  {
    var held := seats[..FreePrefix(rd.keys, seats)];
    forall s | s in held ensures s in Free(rd.keys, seats) {
      var i :| 0 <= i < |held| && held[i] == s;
      assert seats[i] == s;
    }
    ElemsCard(held);
  }

  lemma NxThenDrop(rd: Redis, seats: seq<Seat>, r: Ref)
    ensures SetNx(rd, seats, r).keys - Elems(seats[..FreePrefix(rd.keys, seats)])
         == Take(rd.keys, Leaked(rd.keys, seats), r)
  {
    var p := FreePrefix(rd.keys, seats);
    var head, free := Elems(seats[..p]), Free(rd.keys, seats);
    forall s | s in head ensures s !in rd.keys {
      var i :| 0 <= i < p && seats[i] == s;
    }
    hide Elems, Free, FreePrefix;
    assert Take(rd.keys, free, r) - head == Take(rd.keys, free - head, r);
  }
}
