/** The services' own procedures over the stores, each a run of the booking protocol.

    A `BookingService` carries the Redis keys, the MySQL tables and the poll results of one show. Its methods
    follow the services' code, loops included; the ghost field `st` takes the protocol step that each atomic
    command is, so every method's effect is that of a run, and interleaved runs are what the theorems cover. */
module BookingService {
  import opened SeatStore
  import opened SeatKeys
  import opened Text
  import opened BookingProtocol
  import opened BookingInvariant
  import opened BookingEffects
  import opened BookingTheorems
  import opened BookingAnswers
  import Protocol = BookingProtocol

  class Stores {
    const cfg: Config
    var remain: nat
    var keys: map<Seat, Owner>
    var hold: set<Seat>
    var meta: map<Ref, seq<Seat>>
    var active: map<Seat, Ref>
    var book: map<Ref, Status>
    var result: map<Ref, Outcome>
    var queued: set<Ref>
    var issued: nat
    ghost var st: State

    ghost function Rd(): Redis
      reads this
    {
      Redis(remain, keys, hold, meta)
    }

    /** The fields are those of protocol state `s`. */
    ghost predicate Mirrors(s: State)
      reads this
    {
      && s.cfg == cfg && s.rd == Rd() && s.active == active && s.book == book
      && s.result == result && s.queued == queued && |s.flows| == issued
    }

    ghost predicate Valid()
      reads this
    {
      Mirrors(st) && Inv(st)
    }

    /** The stores have done what `step` does: the protocol follows. */
    ghost method Follow(step: Step)
      requires Inv(st) && Enabled(st, step) && Benign(st, step) && Mirrors(Apply(st, step))
      modifies this`st
      ensures Valid() && Reaches(old(st), st) && st == Apply(old(st), step)
    {
      hide Apply, Enabled, Benign, Inv;
      ReachSelf(st);
      Advance(st, st, step);
      st := Apply(st, step);
    }

    /** The same for a step that may be outside the environment's terms. */
    ghost method FollowAny(step: Step, lawful: bool)
      requires Enabled(st, step) && Mirrors(Apply(st, step)) && (lawful ==> Benign(st, step))
      modifies this`st
      ensures Mirrors(st) && Onward(old(st), st, lawful) && st == Apply(old(st), step)
    {
      hide Apply, Enabled, Benign, Inv, Onward;
      OnwardStep(st, step, lawful);
      st := Apply(st, step);
    }

    /** Where request `r` stands. */
    ghost predicate Stands(r: Ref, seats: seq<Seat>, pc: Pc)
      reads this
    {
      At(st, r) && st.flows[r].seats == seats && st.flows[r].pc == pc
    }

    constructor (cfg: Config)
      requires Sound(cfg)
      ensures Valid() && Init(st) && st.cfg == cfg
    {
      this.cfg := cfg;
      remain, keys, hold, meta := cfg.total, map[], {}, map[];
      active, book, result, queued, issued := map[], map[], map[], {}, 0;
      st := State(cfg, Redis(cfg.total, map[], {}, map[]), map[], map[], map[], {}, {}, [], map[], map[], 0, 0);
    }

    /** any_confirmed's pipeline of GETs. */
    method AnyConfirmed(seats: seq<Seat>) returns (found: bool)
      ensures found <==> Protocol.AnyConfirmed(keys, seats)
    {
      found := false;
      for i := 0 to |seats|
        invariant found <==> Protocol.AnyConfirmed(keys, seats[..i])
      {
        assert seats[..i + 1] == seats[..i] + [seats[i]];
        if seats[i] in keys && keys[seats[i]] == Confirmed {
          found := true;
        }
      }
      assert seats[..|seats|] == seats;
    }

    /** The pipeline of SET NX commands and its replies. */
    method SetNxAll(seats: seq<Seat>, r: Ref) returns (won: seq<bool>)
      requires Distinct(seats)
      modifies this`keys
      ensures keys == Take(old(keys), Free(old(keys), seats), r)
      ensures |won| == |seats| && forall i :: 0 <= i < |seats| ==> (won[i] <==> seats[i] !in old(keys))
    {
      won := [];
      ghost var free: set<Seat> := Free(keys, seats[..0]);
      assert free == {};
      TakeNone(keys, r);
      hide Take, Free, Distinct;
      for i := 0 to |seats|
        invariant free == Free(old(keys), seats[..i]) && keys == Take(old(keys), free, r)
        invariant |won| == i && forall j :: 0 <= j < i ==> (won[j] <==> seats[j] !in old(keys))
      {
        FreeNext(old(keys), seats, i);
        TakeNext(old(keys), free, seats[i], r);
        free := Free(old(keys), seats[..i + 1]);
        if seats[i] in keys {
          won := won + [false];
        } else {
          keys := keys[seats[i] := Held(r)];
          won := won + [true];
        }
      }
      assert seats[..|seats|] == seats;
    }

    /** A pipeline of GETs. */
    method GetAll(seats: seq<Seat>) returns (values: seq<Option<Owner>>)
      ensures |values| == |seats|
      ensures forall i :: 0 <= i < |seats| ==>
        values[i] == if seats[i] in keys then Some(keys[seats[i]]) else None
    {
      values := [];
      for i := 0 to |seats|
        invariant |values| == i
        invariant forall j :: 0 <= j < i ==> values[j] == if seats[j] in keys then Some(keys[seats[j]]) else None
      {
        values := values + [if seats[i] in keys then Some(keys[seats[i]]) else None];
      }
    }

    /** Deletes the keys that were read as `r`, with their hold marks, and counts them. */
    method DropMine(seats: seq<Seat>, values: seq<Option<Owner>>, r: Ref) returns (released: nat)
      requires Distinct(seats) && |values| == |seats|
      requires forall i :: 0 <= i < |seats| ==>
        values[i] == if seats[i] in keys then Some(keys[seats[i]]) else None
      modifies this`keys, this`hold
      ensures Rd() == Drop(old(Rd()), Mine(old(keys), seats, r))
      ensures released == |Mine(old(keys), seats, r)|
    {
      released := 0;
      for i := 0 to |seats|
        invariant keys == old(keys) - Mine(old(keys), seats[..i], r)
        invariant hold == old(hold) - Mine(old(keys), seats[..i], r)
        invariant released == |Mine(old(keys), seats[..i], r)|
      {
        MineNext(old(keys), seats, i, r);
        if values[i] == Some(Held(r)) {
          keys := keys - {seats[i]};
          hold := hold - {seats[i]};
          released := released + 1;
        }
      }
      assert seats[..|seats|] == seats;
    }

    /** The GET pipeline of release_seats. */
    method ReleaseReadKeys(r: Ref, seats: seq<Seat>) returns (values: seq<Option<Owner>>)
      requires Valid() && At(st, r) && seats != []
      requires st.flows[r].pc == Conflict(seats) || (st.flows[r].pc == SendFailed && st.flows[r].seats == seats)
      modifies this`st
      ensures Valid() && Reaches(old(st), st)
      ensures |values| == |seats|
      ensures forall i :: 0 <= i < |seats| ==>
        values[i] == if seats[i] in keys then Some(keys[seats[i]]) else None
      ensures st == SetPc(old(st), r, Dropping(Mine(keys, seats, r), old(st).flows[r].pc.Conflict?))
    {
      values := GetAll(seats);
      hide Inv, Mine;
      Follow(ReleaseRead(r));
    }

    /** The deleting pipeline of release_seats. */
    method ReleaseDropKeys(r: Ref, seats: seq<Seat>, values: seq<Option<Owner>>, ghost repay: bool)
      returns (released: nat)
      requires Valid() && At(st, r) && Distinct(seats) && |values| == |seats|
      requires st.flows[r].pc == Dropping(Mine(keys, seats, r), repay)
      requires forall i :: 0 <= i < |seats| ==>
        values[i] == if seats[i] in keys then Some(keys[seats[i]]) else None
      modifies this`keys, this`hold, this`st
      ensures Valid() && Reaches(old(st), st)
      ensures Rd() == Drop(old(Rd()), Mine(old(keys), seats, r))
      ensures released == |Mine(old(keys), seats, r)|
      ensures st == SetPc(old(st).(rd := Rd()), r, Crediting(released, repay))
    {
      released := DropMine(seats, values, r);
      hide Inv, Mine, Drop;
      Follow(ReleaseDrop(r));
    }

    /** adjust_remain with the number released; the code skips the call for zero. */
    method ReleaseCreditBack(r: Ref, released: nat)
      requires Valid() && At(st, r) && st.flows[r].pc.Crediting? && st.flows[r].pc.k == released
      modifies this`remain, this`st
      ensures Valid() && Reaches(old(st), st)
      ensures Rd() == Credit(old(Rd()), released)
      ensures st == SetPc(old(st).(rd := Rd()), r, if old(st).flows[r].pc.repay then Repaying else Rejected)
    {
      if released > 0 {
        remain := remain + released;
      }
      hide Inv;
      Follow(ReleaseCredit(r));
    }

    /** release_seats, after a conflict or a refused message. */
    method ReleaseSeats(r: Ref, seats: seq<Seat>)
      requires Valid() && At(st, r) && Distinct(seats) && seats != []
      requires st.flows[r].pc == Conflict(seats) || (st.flows[r].pc == SendFailed && st.flows[r].seats == seats)
      modifies this`remain, this`keys, this`hold, this`st
      ensures Valid() && Reaches(old(st), st)
      ensures Rd() == Credit(Drop(old(Rd()), Mine(old(keys), seats, r)), |Mine(old(keys), seats, r)|)
      ensures st == SetPc(old(st).(rd := Rd()), r, if old(st).flows[r].pc.Conflict? then Repaying else Rejected)
    {
      hide Inv, Reaches, Mine, Drop;
      ghost var repay := st.flows[r].pc.Conflict?;
      var values := ReleaseReadKeys(r, seats);
      ghost var s1 := st;
      var released := ReleaseDropKeys(r, seats, values, repay);
      ReachTrans(old(st), s1, st);
      ghost var s2 := st;
      ReleaseCreditBack(r, released);
      ReachTrans(old(st), s2, st);
    }

    /** try_decrease_remain_if_enough for a new request, which gets the next reference. */
    method DebitRemain(seats: seq<Seat>) returns (ok: bool, r: Ref)
      requires Valid() && seats != [] && Distinct(seats)
      modifies this`remain, this`issued, this`st
      ensures Valid() && Reaches(old(st), st)
      ensures ok <==> |seats| <= old(remain)
      ensures remain == old(remain) - if ok then |seats| else 0
      ensures r == old(issued) == |old(st).flows| && Stands(r, seats, if ok then Debited else Rejected)
    {
      r := issued;
      issued := issued + 1;
      ok := remain >= |seats|;
      if ok {
        remain := remain - |seats|;
      }
      hide Inv;
      Follow(Submit(seats));
    }

    /** The guard against confirmed seats. */
    method ConfirmedGuard(ghost r: Ref, seats: seq<Seat>) returns (found: bool)
      requires Valid() && Stands(r, seats, Debited)
      modifies this`st
      ensures Valid() && Reaches(old(st), st)
      ensures found <==> Protocol.AnyConfirmed(keys, seats)
      ensures Stands(r, seats, if found then Repaying else Checked)
    {
      found := AnyConfirmed(seats);
      hide Inv, Protocol.AnyConfirmed;
      Follow(CheckConfirmed(r));
    }

    /** The loop over the pipeline's replies, up to the first refusal. */
    method WonPrefix(seats: seq<Seat>, won: seq<bool>, ghost before: map<Seat, Owner>)
      returns (held: seq<Seat>, all: bool)
      requires |won| == |seats| && forall i :: 0 <= i < |seats| ==> (won[i] <==> seats[i] !in before)
      ensures held == seats[..FreePrefix(before, seats)]
      ensures all <==> FreePrefix(before, seats) == |seats|
    {
      held := [];
      for i := 0 to |seats|
        invariant held == seats[..i]
        invariant forall j :: 0 <= j < i ==> seats[j] !in before
      {
        if won[i] {
          held := held + [seats[i]];
        } else {
          PrefixIs(before, seats, i);
          return held, false;
        }
      }
      PrefixIs(before, seats, |seats|);
      return held, true;
    }

    /** The NX pipeline, as a step. */
    method NxPipeline(r: Ref, seats: seq<Seat>) returns (won: seq<bool>)
      requires Valid() && Stands(r, seats, Checked) && Distinct(seats)
      modifies this`keys, this`st
      ensures Valid() && Reaches(old(st), st) && st == DoHoldNx(old(st), r)
      ensures keys == Take(old(keys), Free(old(keys), seats), r)
      ensures |won| == |seats| && forall i :: 0 <= i < |seats| ==> (won[i] <==> seats[i] !in old(keys))
    {
      won := SetNxAll(seats, r);
      NxFields(st, r);
      hide Inv, Take, Free, FreePrefix, DoHoldNx, Distinct;
      Follow(HoldNx(r));
    }

    /** The NX pipeline and what was held before the first refusal. */
    method HoldKeys(r: Ref, seats: seq<Seat>) returns (held: seq<Seat>, all: bool)
      requires Valid() && Stands(r, seats, Checked) && Distinct(seats)
      modifies this`keys, this`st
      ensures Valid() && Reaches(old(st), st)
      ensures keys == Take(old(keys), Free(old(keys), seats), r)
      ensures held == seats[..FreePrefix(old(keys), seats)]
      ensures all <==> FreePrefix(old(keys), seats) == |seats|
      ensures Stands(r, seats, if all then Won else Conflict(held))
    {
      hide Inv, Take, Free, FreePrefix, DoHoldNx, Reaches;
      NxShape(st, r);
      var won := NxPipeline(r, seats);
      held, all := WonPrefix(seats, won, old(keys));
    }

    method AddToHold(seats: seq<Seat>)
      modifies this`hold
      ensures hold == old(hold) + Elems(seats)
    {
      for i := 0 to |seats|
        invariant hold == old(hold) + Elems(seats[..i])
      {
        assert Elems(seats[..i + 1]) == Elems(seats[..i]) + {seats[i]};
        hold := hold + {seats[i]};
      }
      assert seats[..|seats|] == seats;
    }

    /** The hold set and the hold metadata. */
    method IndexSeats(r: Ref, seats: seq<Seat>)
      requires Valid() && Stands(r, seats, Won)
      modifies this`hold, this`meta, this`st
      ensures Valid() && Reaches(old(st), st)
      ensures hold == old(hold) + Elems(seats) && meta == old(meta)[r := seats]
      ensures Stands(r, seats, Protocol.Indexed)
    {
      AddToHold(seats);
      meta := meta[r := seats];
      hide Inv, Elems;
      Follow(IndexHold(r));
    }

    /** adjust_remain with the whole request, after a refused hold. */
    method RepayRequest(ghost r: Ref, seats: seq<Seat>)
      requires Valid() && Stands(r, seats, Repaying)
      modifies this`remain, this`st
      ensures Valid() && Reaches(old(st), st)
      ensures remain == old(remain) + |seats|
      ensures Stands(r, seats, Rejected)
    {
      remain := remain + |seats|;
      hide Inv;
      Follow(Repay(r));
    }

    /** release_seats of an empty list returns at once. */
    method ConflictOfNone(ghost r: Ref, ghost seats: seq<Seat>)
      requires Valid() && Stands(r, seats, Conflict([]))
      modifies this`st
      ensures Valid() && Reaches(old(st), st) && Stands(r, seats, Repaying)
    {
      hide Inv;
      Follow(ReleaseRead(r));
    }

    /** The rollback of a refused hold. */
    method RollBack(r: Ref, ghost seats: seq<Seat>, held: seq<Seat>)
      requires Valid() && Stands(r, seats, Conflict(held)) && Distinct(held)
      modifies this`remain, this`keys, this`hold, this`st
      ensures Valid() && Reaches(old(st), st) && Stands(r, seats, Repaying)
      ensures Rd() == Credit(Drop(old(Rd()), Mine(old(keys), held, r)), |Mine(old(keys), held, r)|)
    {
      if held == [] {
        EmptyRelease(Rd(), r);
        ConflictOfNone(r, seats);
      } else {
        hide Inv, Reaches, Mine, Drop;
        ReleaseSeats(r, held);
      }
    }

    /** try_hold_seats once no seat is confirmed. */
    method HoldUnconfirmed(r: Ref, seats: seq<Seat>) returns (all: bool)
      requires Valid() && Stands(r, seats, Checked) && Distinct(seats)
      modifies this`remain, this`keys, this`hold, this`meta, this`st
      ensures Valid() && Reaches(old(st), st)
      ensures all <==> Free(old(keys), seats) == Elems(seats)
      ensures Stands(r, seats, if all then Protocol.Indexed else Repaying)
      ensures Rd() == AfterHold(old(Rd()), seats, r, if all then HeldAll else TakenSeat)
    {
      hide Inv, Reaches, Take, Leaked, Free, Drop, Mine, Distinct, FreePrefix, Elems, Credit;
      UnheldPrefix(st, seats);
      FreeAll(keys, seats);
      var held;
      held, all := HoldKeys(r, seats);
      ghost var s1 := st;
      if all {
        IndexSeats(r, seats);
      } else {
        PrefixDistinct(seats, FreePrefix(old(keys), seats));
        RollBack(r, seats, held);
        RolledBack(old(Rd()), seats, r);
      }
      ReachTrans(old(st), s1, st);
    }

    /** try_hold_seats on seats whose debit was taken. */
    method TryHoldSeats(r: Ref, seats: seq<Seat>) returns (code: HoldCode)
      requires Valid() && Stands(r, seats, Debited) && Distinct(seats)
      modifies this`remain, this`keys, this`hold, this`meta, this`st
      ensures Valid() && Reaches(old(st), st)
      ensures code == HeldAll <==> Free(old(keys), seats) == Elems(seats)
      ensures code == ConfirmedSeat <==> Protocol.AnyConfirmed(old(keys), seats)
      ensures Stands(r, seats, if code == HeldAll then Protocol.Indexed else Repaying)
      ensures Rd() == AfterHold(old(Rd()), seats, r, code)
    {
      hide Inv, Reaches, Protocol.AnyConfirmed, Free, Distinct, FreePrefix, Take, Leaked;
      var confirmed := ConfirmedGuard(r, seats);
      ghost var s1 := st;
      if confirmed {
        ConfirmedTaken(keys, seats);
        return ConfirmedSeat;
      }
      var all := HoldUnconfirmed(r, seats);
      ReachTrans(old(st), s1, st);
      code := if all then HeldAll else TakenSeat;
    }

    /** send_booking_message: the message is queued, then the queued mark is written. */
    method SendMessage(r: Ref, seats: seq<Seat>) returns (body: seq<string>)
      requires Valid() && Stands(r, seats, Protocol.Indexed)
      modifies this`queued, this`st
      ensures Valid() && Reaches(old(st), st)
      ensures Stands(r, seats, Protocol.Queued) && body == PrintAll(seats)
      ensures queued == old(queued) + {r}
    {
      hide Inv, Reaches, PrintAll;
      Follow(Enqueue(r));
      ghost var s1 := st;
      queued := queued + {r};
      Follow(MarkQueued(r, true));
      ReachTrans(old(st), s1, st);
      body := PrintAll(seats);
    }

    /** The queue refuses the message: the hold is undone, its metadata stays. */
    method UndoHold(r: Ref, seats: seq<Seat>)
      requires Valid() && Stands(r, seats, Protocol.Indexed) && Distinct(seats) && seats != []
      modifies this`remain, this`keys, this`hold, this`st
      ensures Valid() && Reaches(old(st), st) && Stands(r, seats, Rejected)
      ensures Rd() == Credit(Drop(old(Rd()), Mine(old(keys), seats, r)), |Mine(old(keys), seats, r)|)
    {
      hide Inv, Reaches, Mine, Drop, Distinct;
      Follow(EnqueueFail(r));
      ghost var s1 := st;
      ReleaseSeats(r, seats);
      ReachTrans(old(st), s1, st);
    }

    /** A held request is sent, or undone when the queue refuses it. */
    method Dispatch(r: Ref, seats: seq<Seat>, accepts: bool, ghost before: Redis)
      returns (code: CommitCode, body: seq<string>)
      requires Valid() && Stands(r, seats, Protocol.Indexed) && seats != [] && Distinct(seats)
      requires |seats| <= before.remain && Free(before.keys, seats) == Elems(seats)
        && Free(before.keys, seats) !! before.hold
      requires Rd() == AfterCommit(before, seats, r, QueuedUp)
      modifies this`remain, this`keys, this`hold, this`queued, this`st
      ensures Valid() && Reaches(old(st), st)
      ensures Stands(r, seats, if code == QueuedUp then Protocol.Queued else Rejected)
      ensures code == (if accepts then QueuedUp else SendError) && Rd() == AfterCommit(before, seats, r, code)
      ensures queued == old(queued) + (if code == QueuedUp then {r} else {})
      ensures code == QueuedUp ==> body == PrintAll(seats)
    {
      hide Inv, Reaches, Distinct, AfterCommit, Free, Drop, Mine, PrintAll;
      if accepts {
        body := SendMessage(r, seats);
        code := QueuedUp;
      } else {
        UndoneHold(before, seats, r);
        UndoHold(r, seats);
        code, body := SendError, [];
      }
    }

    /** The request holds its seats, or has them undone, and gets its answer. */
    method Place(r: Ref, seats: seq<Seat>, accepts: bool) returns (code: CommitCode, body: seq<string>)
      requires Valid() && Stands(r, seats, Debited) && seats != [] && Distinct(seats)
      modifies this`remain, this`keys, this`hold, this`meta, this`queued, this`st
      ensures Valid() && Reaches(old(st), st)
      ensures Stands(r, seats, if code == QueuedUp then Protocol.Queued else Rejected)
      ensures var before := old(Rd()).(remain := old(remain) + |seats|);
        code == Reservation(before, seats, accepts) && Rd() == AfterCommit(before, seats, r, code)
      ensures queued == old(queued) + (if code == QueuedUp then {r} else {})
      ensures code == QueuedUp ==> body == PrintAll(seats)
    {
      hide Inv, Reaches, Distinct, Take, Leaked, Free, FreePrefix, Protocol.AnyConfirmed, PrintAll;
      ghost var before := Redis(remain + |seats|, keys, hold, meta);
      UnheldSeats(st, seats);
      var held := TryHoldSeats(r, seats);
      ghost var s1 := st;
      if held != HeldAll {
        RepayRequest(r, seats);
        code, body := Refused, [];
      } else {
        code, body := Dispatch(r, seats, accepts, before);
      }
      ReachTrans(old(st), s1, st);
    }

    /** The commit once the request is well formed and admitted. */
    method Reserve(seats: seq<Seat>, accepts: bool) returns (code: CommitCode, r: Ref, body: seq<string>)
      requires Valid() && seats != [] && Distinct(seats)
      modifies this`remain, this`keys, this`hold, this`meta, this`queued, this`issued, this`st
      ensures Valid() && Reaches(old(st), st)
      ensures r == old(issued) == |old(st).flows|
      ensures Stands(r, seats, if code == QueuedUp then Protocol.Queued else Rejected)
      ensures code == Reservation(old(Rd()), seats, accepts)
      ensures Rd() == AfterCommit(old(Rd()), seats, r, code)
      ensures queued == old(queued) + (if code == QueuedUp then {r} else {})
      ensures code == QueuedUp ==> body == PrintAll(seats)
    {
      hide Inv, Reaches, Distinct, AfterCommit, PrintAll;
      var ok;
      ok, r := DebitRemain(seats);
      ghost var s1 := st;
      if ok {
        code, body := Place(r, seats, accepts);
        ReachTrans(old(st), s1, st);
      } else {
        code, body := SoldOut, [];
        SoldOutKeeps(Rd(), seats, r);
      }
    }

    /** commit_concert_booking: validation, the waiting-room gate, then the reservation. */
    method CommitConcertBooking(userId: int, showId: int, items: seq<string>, admitted: bool, accepts: bool)
      returns (answer: CommitAnswer, body: seq<string>)
      requires Valid()
      modifies this`remain, this`keys, this`hold, this`meta, this`queued, this`issued, this`st
      ensures Valid() && Reaches(old(st), st)
      ensures answer == BadRequest <==> userId <= 0 || showId <= 0
      ensures answer == NoSeats <==> userId > 0 && showId > 0 && items == []
      ensures answer == BadSeatKey <==> userId > 0 && showId > 0 && items != [] && !AllParse(items)
      ensures answer == GateClosed <==> userId > 0 && showId > 0 && items != [] && AllParse(items) && !admitted
      ensures answer.Reserved? ==>
        && AllParse(items) && answer.r == old(issued)
        && answer.code == Reservation(old(Rd()), FirstSeen(items), accepts)
        && Rd() == AfterCommit(old(Rd()), FirstSeen(items), answer.r, answer.code)
        && Stands(answer.r, FirstSeen(items), if answer.code == QueuedUp then Protocol.Queued else Rejected)
        && (answer.code == QueuedUp ==> body == PrintAll(FirstSeen(items)))
      ensures answer.Reserved? ==>
        var seats := FirstSeen(items);
        && (answer.code == SoldOut <==> old(remain) < |seats|)
        && (answer.code == Refused <==> old(remain) >= |seats| && exists s :: s in seats && s in old(keys))
        && (answer.code == QueuedUp ==> accepts) && (answer.code == SendError ==> !accepts)
      ensures !answer.Reserved? ==> st == old(st) && Rd() == old(Rd())
    {
      ReachSelf(st);
      hide Inv, Reaches, AfterCommit, Reservation, PrintAll, ParseSeat;
      body := [];
      if userId <= 0 || showId <= 0 {
        return BadRequest, body;
      }
      if items == [] {
        return NoSeats, body;
      }
      var parsed := ParseRequest(items);
      if parsed.None? {
        return BadSeatKey, body;
      }
      FirstSeenCovers(items);
      if !admitted {
        return GateClosed, body;
      }
      AnswerIs(Rd(), parsed.value, accepts);
      var code, r;
      code, r, body := Reserve(parsed.value, accepts);
      answer := Reserved(code, r);
    }

    // ---- worker --------------------------------------------------------------------------------

    /** The grid check over the parsed seats. */
    method FitsGrid(seats: seq<Seat>) returns (fits: bool)
      ensures fits <==> forall s :: s in seats ==> s.row <= cfg.rows && s.col <= cfg.cols
      ensures fits <==> InGrid(cfg, seats)
    {
      for i := 0 to |seats|
        invariant forall j :: 0 <= j < i ==> seats[j].row <= cfg.rows && seats[j].col <= cfg.cols
      {
        if seats[i].row > cfg.rows || seats[i].col > cfg.cols {
          return false;
        }
      }
      return true;
    }

    /** The seat INSERT under the unique index; on a conflict the statement leaves nothing. */
    static method InsertSeats(active: map<Seat, Ref>, r: Ref, seats: seq<Seat>)
      returns (conflict: bool, rows: map<Seat, Ref>)
      requires Distinct(seats)
      ensures conflict <==> !(Elems(seats) !! active.Keys)
      ensures !conflict ==> rows == Sell(active, Elems(seats), r)
    {
      rows := active;
      assert Sell(active, Elems(seats[..0]), r) == active;
      hide Sell, Distinct, Elems;
      for i := 0 to |seats|
        invariant Elems(seats[..i]) !! active.Keys
        invariant rows == Sell(active, Elems(seats[..i]), r)
      {
        ElemsNext(seats, i);
        SellNext(active, Elems(seats[..i]), seats[i], r);
        if seats[i] in rows {
          return true, rows;
        }
        rows := rows[seats[i] := r];
      }
      assert seats[..|seats|] == seats;
      return false, rows;
    }

    /** SELECT of the ACTIVE seats of a booking. */
    method SelectActive(r: Ref) returns (have: set<Seat>)
      ensures have == ActiveOf(active, r)
    {
      have := set s | s in active && active[s] == r;
    }

    /** One turn of the worker's loop: the transaction, up to its commit or its rollback.
        The turn that neither ends nor deadlocks, a unique-index conflict, cannot happen here. */
    method Attempt(r: Ref, seats: seq<Seat>, attempt: nat, fault: Fault) returns (done: bool, outcome: Outcome)
      requires Valid() && Stands(r, seats, Taken(attempt))
      modifies this`active, this`book, this`st
      ensures Mirrors(st) && Onward(old(st), st, r in old(book) ==> !done || fault == NoFault) && (!done ==> Inv(st))
      ensures done <==> fault != Deadlock || attempt >= cfg.retries
      ensures outcome == Ending(cfg, seats, fault)
      ensures Stands(r, seats, if done then Storing(outcome) else Taken(attempt + 1))
      ensures done ==> book == BookAfter(old(book), r, outcome)
      ensures done ==> active == ActiveAfter(old(active), old(book), seats, r, outcome)
      ensures !done ==> book == old(book) && active == old(active)
    {
      done := fault != Deadlock || attempt >= cfg.retries;
      if fault != NoFault {
        outcome := Failure(DbError);
        FaultCases(st, r, fault);
        hide Inv, Outcomes, Writes, Distinct, InGrid, DoTransact, Onward;
        ghost var lawful := r in book ==> !done;
        if lawful {
          Follow(Transact(r, fault));
          LawfulOnward(old(st), st);
        } else {
          FollowAny(Transact(r, fault), false);
        }
        return;
      }
      outcome := Transaction(r, seats, attempt);
      hide Inv, Onward, Reaches;
      LawfulOnward(old(st), st);
    }

    /** The transaction when the database raises nothing. */
    method Transaction(r: Ref, seats: seq<Seat>, ghost attempt: nat) returns (outcome: Outcome)
      requires Valid() && Stands(r, seats, Taken(attempt))
      modifies this`active, this`book, this`st
      ensures Valid() && Reaches(old(st), st)
      ensures outcome == Ending(cfg, seats, NoFault) && Stands(r, seats, Storing(outcome))
      ensures book == BookAfter(old(book), r, outcome)
      ensures active == ActiveAfter(old(active), old(book), seats, r, outcome)
    {
      TransactCases(st, r, NoFault);
      assert Distinct(seats) by { assert FlowOk(st, r); }
      outcome := Okay;
      var fits := FitsGrid(seats);
      if !fits {
        outcome := Failure(InvalidSeat);
      } else if r in book {
        var have := SelectActive(r);
        if have != Elems(seats) {
          PaidSeats(st, r);
          assert false;
        }
      } else {
        var conflict, rows := InsertSeats(active, r, seats);
        if conflict {
          LiveUnsold(st, r);
          assert false;
        }
        active, book := rows, book[r := Paid];
      }
      hide Inv, Outcomes, Writes, Distinct, InGrid, DoTransact;
      Follow(Transact(r, NoFault));
    }

    /** Whether a stored OK stops this outcome from being stored. */
    method IsKept(r: Ref, outcome: Outcome) returns (kept: bool)
      ensures kept <==> KeepsOkay(result, r, outcome)
    {
      kept := outcome.Failure? && outcome.code != InvalidSeat && r in result && result[r] == Okay;
    }

    /** store_result, or store_failure_result where the code uses it. */
    method StoreOutcome(r: Ref, outcome: Outcome)
      requires Mirrors(st) && At(st, r) && st.flows[r].pc == Storing(outcome) && r !in result
      modifies this`result, this`queued, this`st
      ensures Mirrors(st) && Onward(old(st), st, true)
      ensures result == old(result)[r := outcome] && queued == old(queued) - {r}
      ensures Stands(r, old(st).flows[r].seats, Finalising(outcome.Okay?))
    {
      var kept := IsKept(r, outcome);
      hide Onward;
      if !kept {
        result, queued := result[r := outcome], queued - {r};
      }
      FollowAny(Store(r), true);
    }

    /** The loop that fills the worker's closing pipeline, and what that pipeline leaves. */
    static method FillClosing(keys: map<Seat, Owner>, hold: set<Seat>, seats: seq<Seat>, values: seq<Option<Owner>>,
        r: Ref, ok: bool)
      returns (newKeys: map<Seat, Owner>, newHold: set<Seat>, released: nat)
      requires Distinct(seats) && |values| == |seats|
      requires forall i :: 0 <= i < |seats| ==>
        values[i] == if seats[i] in keys then Some(keys[seats[i]]) else None
      ensures newKeys == Closed(keys, Mine(keys, seats, r), ok)
      ensures newHold == hold - Mine(keys, seats, r)
      ensures released == |Mine(keys, seats, r)|
    {
      newKeys, newHold, released := keys, hold, 0;
      assert Mine(keys, seats[..0], r) == {};
      ClosedNone(keys, ok);
      hide Closed, Distinct, Mine;
      for i := 0 to |seats|
        invariant newKeys == Closed(keys, Mine(keys, seats[..i], r), ok)
        invariant newHold == hold - Mine(keys, seats[..i], r) && released == |Mine(keys, seats[..i], r)|
      {
        MineNext(keys, seats, i, r);
        if values[i] == Some(Held(r)) {
          ClosedNext(keys, Mine(keys, seats[..i], r), seats[i], ok);
          newKeys := if ok then newKeys[seats[i] := Confirmed] else newKeys - {seats[i]};
          newHold, released := newHold - {seats[i]}, released + 1;
        }
      }
      assert seats[..|seats|] == seats;
    }

    /** The closing pipeline, as a step. */
    method ClosePipeline(r: Ref, seats: seq<Seat>, values: seq<Option<Owner>>, ok: bool) returns (released: nat)
      requires Mirrors(st) && Stands(r, seats, Writing(Mine(keys, seats, r), ok)) && Distinct(seats)
        && |values| == |seats|
      requires forall i :: 0 <= i < |seats| ==>
        values[i] == if seats[i] in keys then Some(keys[seats[i]]) else None
      modifies this`keys, this`hold, this`meta, this`st
      ensures Mirrors(st) && Onward(old(st), st, true)
      ensures Rd() == Finish(old(Rd()), r, Mine(old(keys), seats, r), ok)
      ensures released == |Mine(old(keys), seats, r)|
      ensures Stands(r, seats, if ok then Returning else Restoring(released))
    {
      var newKeys, newHold;
      newKeys, newHold, released := FillClosing(keys, hold, seats, values, r, ok);
      keys, hold, meta := newKeys, newHold, meta - {r};
      ClosedIs(old(Rd()), Mine(old(keys), seats, r), r, ok);
      hide Onward, Mine, Finish, Closed, Distinct;
      FollowAny(FinaliseWrite(r), true);
    }

    /** The metadata and the values of the seat keys it lists. */
    method FinalizeReadKeys(r: Ref, seats: seq<Seat>, ok: bool) returns (values: seq<Option<Owner>>)
      requires Mirrors(st) && Stands(r, seats, Finalising(ok)) && r in meta && meta[r] == seats
      modifies this`st
      ensures Mirrors(st) && Onward(old(st), st, true) && Stands(r, seats, Writing(Mine(keys, seats, r), ok))
      ensures |values| == |seats|
      ensures forall i :: 0 <= i < |seats| ==>
        values[i] == if seats[i] in keys then Some(keys[seats[i]]) else None
    {
      values := GetAll(seats);
      hide Onward, Mine;
      FollowAny(FinaliseRead(r), true);
    }

    /** adjust_remain after a failure; the code skips the call for zero. */
    method FinalizeCreditBack(r: Ref, ghost seats: seq<Seat>, released: nat)
      requires Mirrors(st) && Stands(r, seats, Restoring(released))
      modifies this`remain, this`st
      ensures Mirrors(st) && Onward(old(st), st, true) && Stands(r, seats, Returning)
      ensures Rd() == Credit(old(Rd()), released)
    {
      if released > 0 {
        remain := remain + released;
      }
      hide Onward;
      FollowAny(FinaliseCredit(r), true);
    }

    /** A hold without metadata is left alone. */
    method FinalizeNothing(ghost r: Ref, ghost seats: seq<Seat>, ghost ok: bool)
      requires Mirrors(st) && Stands(r, seats, Finalising(ok)) && r !in meta
      modifies this`st
      ensures Mirrors(st) && Onward(old(st), st, true) && Stands(r, seats, Returning)
    {
      hide Onward;
      FollowAny(FinaliseRead(r), true);
    }

    /** The hold with its metadata: read, close, credit. */
    method FinalizeListed(r: Ref, seats: seq<Seat>, ok: bool)
      requires Mirrors(st) && Stands(r, seats, Finalising(ok)) && r in meta && meta[r] == seats && Distinct(seats)
      modifies this`remain, this`keys, this`hold, this`meta, this`st
      ensures Mirrors(st) && Onward(old(st), st, true) && Stands(r, seats, Returning)
      ensures Rd() == AfterClose(old(Rd()), seats, r, ok)
    {
      hide Onward, Mine, Finish, Distinct;
      var values := FinalizeReadKeys(r, seats, ok);
      ghost var s1 := st;
      var released := ClosePipeline(r, seats, values, ok);
      OnwardTrans(old(st), s1, st, true, true);
      ghost var s2 := st;
      if !ok {
        FinalizeCreditBack(r, seats, released);
        OnwardTrans(old(st), s2, st, true, true);
      }
    }

    /** _finalize_concert_hold_by_ref. */
    method FinalizeHold(r: Ref, ghost seats: seq<Seat>, ok: bool)
      requires Mirrors(st) && Stands(r, seats, Finalising(ok)) && Distinct(seats) && (r in meta ==> meta[r] == seats)
      modifies this`remain, this`keys, this`hold, this`meta, this`st
      ensures Mirrors(st) && Onward(old(st), st, true) && Stands(r, seats, Returning)
      ensures Rd() == AfterFinalize(old(Rd()), seats, r, ok)
    {
      hide Onward, AfterClose, Distinct;
      if r in meta {
        FinalizeListed(r, meta[r], ok);
      } else {
        FinalizeNothing(r, seats, ok);
      }
    }

    /** The poll result, then the end of the hold. */
    method Conclude(r: Ref, ghost seats: seq<Seat>, outcome: Outcome)
      requires Mirrors(st) && Stands(r, seats, Storing(outcome)) && r !in result
      requires Distinct(seats) && (r in meta ==> meta[r] == seats)
      modifies this`remain, this`keys, this`hold, this`meta, this`result, this`queued, this`st
      ensures Mirrors(st) && Onward(old(st), st, true) && Stands(r, seats, Returning)
      ensures result == old(result)[r := outcome] && queued == old(queued) - {r}
      ensures Rd() == AfterFinalize(old(Rd()), seats, r, outcome.Okay?)
    {
      hide Onward, AfterFinalize;
      StoreOutcome(r, outcome);
      ghost var s1 := st;
      FinalizeHold(r, seats, outcome.Okay?);
      OnwardTrans(old(st), s1, st, true, true);
    }

    /** The retry loop, whose i-th attempt meets `faults[i - 1]`. It terminates because a conflict,
        the one outcome without a return, is impossible here. */
    method RunAttempts(r: Ref, seats: seq<Seat>, faults: seq<Fault>) returns (outcome: Outcome)
      requires Valid() && Stands(r, seats, Taken(1)) && |faults| >= cfg.retries >= 1
      modifies this`active, this`book, this`st
      ensures Mirrors(st) && Onward(old(st), st, Clean(r in old(book), faults, cfg.retries))
        && Stands(r, seats, Storing(outcome))
      ensures outcome == Ending(cfg, seats, LastFault(faults, cfg.retries))
      ensures book == BookAfter(old(book), r, outcome)
      ensures active == ActiveAfter(old(active), old(book), seats, r, outcome)
    {
      OnwardSelf(st);
      hide Inv, Onward, Ending, LastFault, BookAfter, ActiveAfter;
      var attempt := 0;
      while true
        invariant attempt < cfg.retries && forall i :: 0 <= i < attempt ==> faults[i] == Deadlock
        invariant Valid() && Onward(old(st), st, true) && Stands(r, seats, Taken(attempt + 1))
        invariant active == old(active) && book == old(book)
        decreases cfg.retries - attempt
      {
        LastFaultAt(faults, cfg.retries, attempt);
        attempt := attempt + 1;
        ghost var s1 := st;
        var done;
        done, outcome := Attempt(r, seats, attempt, faults[attempt - 1]);
        OnwardTrans(old(st), s1, st, true, r in old(book) ==> !done || faults[attempt - 1] == NoFault);
        if done {
          return;
        }
      }
    }

    /** process_concert_booking. When the database gives up on a committed reference the stores are as stated
        all the same, but they need not be consistent any more. */
    method ProcessConcertBooking(r: Ref, body: seq<string>, faults: seq<Fault>) returns (outcome: Outcome)
      requires Valid() && At(st, r) && st.flows[r].pc == Taken(1) && body == PrintAll(st.flows[r].seats)
      requires |faults| >= cfg.retries >= 1
      modifies this`remain, this`keys, this`hold, this`meta, this`active, this`book, this`result, this`queued, this`st
      ensures Mirrors(st) && Onward(old(st), st, Clean(r in old(book), faults, cfg.retries))
      ensures var seats := old(st).flows[r].seats;
        && Stands(r, seats, Returning)
        && outcome == Ending(cfg, seats, LastFault(faults, cfg.retries))
        && book == BookAfter(old(book), r, outcome)
        && active == ActiveAfter(old(active), old(book), seats, r, outcome)
        && Rd() == AfterFinalize(old(Rd()), seats, r, outcome.Okay?)
      ensures result == old(result)[r := outcome] && queued == old(queued) - {r}
      ensures outcome == Failure(DbError) <==> LastFault(faults, cfg.retries) != NoFault
      ensures outcome == Failure(InvalidSeat) <==>
        && LastFault(faults, cfg.retries) == NoFault
        && exists s :: s in old(st).flows[r].seats && (s.row > cfg.rows || s.col > cfg.cols)
    {
      hide Inv, Onward, AfterFinalize, Ending, ParseAll, PrintAll, BookAfter, ActiveAfter, Clean, LastFault, Distinct;
      EndingIs(cfg, st.flows[r].seats, LastFault(faults, cfg.retries));
      MessageRoundTrip(st.flows[r].seats);
      TakenFacts(st, r);
      var seats := ParseAll(body);
      outcome := RunAttempts(r, seats, faults);
      ghost var s1 := st;
      Conclude(r, seats, outcome);
      OnwardTrans(old(st), s1, st, Clean(r in old(book), faults, cfg.retries), true);
    }

    /** The GET of the result when a message arrives. */
    method Receive(r: Ref) returns (recorded: bool)
      requires Valid() && At(st, r) && st.flows[r].pc.Queued?
      modifies this`st
      ensures Valid() && Onward(old(st), st, true) && recorded == (r in result)
      ensures Stands(r, old(st).flows[r].seats, if recorded then Acked else Taken(1))
    {
      recorded := r in result;
      hide Inv, Onward, Reaches;
      Follow(Deliver(r));
      LawfulOnward(old(st), st);
    }

    /** delete_message once the handler has returned. */
    method Acknowledge(ghost r: Ref)
      requires Mirrors(st) && At(st, r) && st.flows[r].pc.Returning?
      modifies this`st
      ensures Mirrors(st) && Onward(old(st), st, true) && Stands(r, old(st).flows[r].seats, Acked)
    {
      hide Onward;
      FollowAny(Ack(r), true);
    }

    /** A message without a result is processed, then acknowledged. */
    method ProcessAndAck(r: Ref, body: seq<string>, faults: seq<Fault>) returns (outcome: Outcome)
      requires Valid() && At(st, r) && st.flows[r].pc == Taken(1) && body == PrintAll(st.flows[r].seats)
      requires |faults| >= cfg.retries >= 1
      modifies this`remain, this`keys, this`hold, this`meta, this`active, this`book, this`result, this`queued, this`st
      ensures Mirrors(st) && Onward(old(st), st, Clean(r in old(book), faults, cfg.retries))
      ensures var seats := old(st).flows[r].seats;
        && Stands(r, seats, Acked)
        && outcome == Ending(cfg, seats, LastFault(faults, cfg.retries))
        && book == BookAfter(old(book), r, outcome)
        && active == ActiveAfter(old(active), old(book), seats, r, outcome)
        && Rd() == AfterFinalize(old(Rd()), seats, r, outcome.Okay?)
      ensures result == old(result)[r := outcome] && queued == old(queued) - {r}
    {
      hide Inv, Onward, AfterFinalize, Ending, PrintAll, BookAfter, ActiveAfter, LastFault, Clean;
      outcome := ProcessConcertBooking(r, body, faults);
      ghost var s1 := st;
      Acknowledge(r);
      OnwardTrans(old(st), s1, st, Clean(r in old(book), faults, cfg.retries), true);
    }

    /** _handle_one_sqs_message and the ACK: a message whose result exists is acknowledged at once. */
    method HandleMessage(r: Ref, body: seq<string>, faults: seq<Fault>) returns (outcome: Outcome)
      requires Valid() && At(st, r) && st.flows[r].pc.Queued? && body == PrintAll(st.flows[r].seats)
      requires |faults| >= cfg.retries >= 1
      modifies this`remain, this`keys, this`hold, this`meta, this`active, this`book, this`result, this`queued, this`st
      ensures Mirrors(st)
      ensures Onward(old(st), st, r in old(result) || Clean(r in old(book), faults, cfg.retries))
      ensures var seats := old(st).flows[r].seats;
        && Stands(r, seats, Acked)
        && outcome == (if r in old(result) then old(result)[r] else Ending(cfg, seats, LastFault(faults, cfg.retries)))
        && book == BookAfter(old(book), r, outcome)
        && active == ActiveAfter(old(active), old(book), seats, r, outcome)
        && Rd() == AfterDelivery(old(Rd()), old(result), seats, r, outcome)
      ensures r in old(result) ==>
        && outcome == old(result)[r] && Rd() == old(Rd()) && book == old(book) && active == old(active)
        && result == old(result) && queued == old(queued)
      ensures result == old(result)[r := outcome]
      ensures queued == if r in old(result) then old(queued) else old(queued) - {r}
    {
      if r in result { RecordedIsDone(st, r); }
      hide Inv, Onward, AfterFinalize, Ending, PrintAll, BookAfter, ActiveAfter, LastFault, Clean;
      var recorded := Receive(r);
      if recorded {
        outcome := result[r];
      } else {
        ghost var s1 := st;
        outcome := ProcessAndAck(r, body, faults);
        OnwardTrans(old(st), s1, st, true, Clean(r in old(book), faults, cfg.retries));
      }
    }

    /** get_booking_status_dict for a well-formed reference. */
    method GetStatus(r: Ref) returns (answer: Answer)
      requires Valid()
      ensures answer == Poll(st, r)
      ensures answer.Final? <==> r in result
      ensures answer.Final? ==> answer.outcome == result[r]
      ensures answer == Processing <==> r !in result && r in queued
      ensures answer == Recovered <==> r !in result && r !in queued && r in book
      ensures SaysOk(answer) ==> r in book
      ensures SaysFailed(answer) ==> r !in book
    {
      if r in result {
        assert FlowOk(st, r);
        return Final(result[r]);
      }
      if r in queued {
        return Processing;
      }
      answer := if r in book then Recovered else Answer.Unknown;
    }

    // ---- refund --------------------------------------------------------------------------------

    /** release_seats_on_refund: the keys go whatever their value. */
    method ReleaseOnRefund(seats: set<Seat>)
      modifies this`keys, this`hold
      ensures Rd() == Drop(old(Rd()), seats)
    {
      var left := seats;
      while left != {}
        invariant left <= seats
        invariant keys == old(keys) - (seats - left) && hold == old(hold) - (seats - left)
      {
        var s :| s in left;
        keys, hold, left := keys - {s}, hold - {s}, left - {s};
      }
    }

    /** GREATEST(0, total - the ACTIVE rows). */
    method CountLeft(rows: map<Seat, Ref>) returns (left: nat)
      ensures left == Left(cfg, |rows|)
    {
      left := if |rows| <= cfg.total then cfg.total - |rows| else 0;
    }

    /** The refund's transaction. */
    method CancelRows(r: Ref) returns (seats: set<Seat>, left: nat)
      requires Valid() && r in book && book[r] == Paid
      modifies this`book, this`active, this`st
      ensures Mirrors(st) && Onward(old(st), st, r in result)
      ensures seats == ActiveOf(old(active), r) && left == Left(cfg, |active|)
      ensures book == old(book)[r := Cancelled] && active == old(active) - seats
      ensures r in st.pend && st.pend[r] == Protocol.Refund(seats, left)
      ensures st.flows == old(st).flows
    {
      hide Inv, ActiveOf, Onward, Left;
      BookedIsAt(st, r);
      seats := SelectActive(r);
      left := CountLeft(active - seats);
      book, active := book[r := Cancelled], active - seats;
      CancelFields(st, r);
      FollowAny(RefundCancel(r), r in result);
    }

    /** The pipeline that clears the refunded seats. */
    method ClearKeys(ghost r: Ref, seats: set<Seat>)
      requires Mirrors(st) && r in st.pend && st.pend[r].seats == seats
      modifies this`keys, this`hold, this`st
      ensures Mirrors(st) && Onward(old(st), st, !Closing(old(st), r))
      ensures Rd() == Drop(old(Rd()), seats) && r in st.counts && st.counts[r] == old(st).pend[r].left
    {
      hide Onward, Drop, Occupied, Closing;
      ReleaseOnRefund(seats);
      FollowAny(RefundKeys(r), !Closing(st, r));
    }

    /** The SET of the counter. */
    method SetCount(ghost r: Ref, left: nat)
      requires Mirrors(st) && r in st.counts && st.counts[r] == left
      modifies this`remain, this`st
      ensures Mirrors(st) && Onward(old(st), st, true)
      ensures Rd() == old(Rd()).(remain := left)
    {
      remain := left;
      hide Onward;
      FollowAny(RefundCount(r), true);
    }

    /** _refund_concert_booking. Its effect is the same whenever it comes; it is within the protocol's terms when
        the result is recorded and no delivery is about to confirm keys of the booking. */
    method RefundConcertBooking(r: Ref, owned: bool) returns (answer: RefundAnswer)
      requires Valid() && Sound(cfg)
      modifies this`remain, this`keys, this`hold, this`book, this`active, this`st
      ensures Mirrors(st) && Onward(old(st), st, answer == Refunded ==> r in result && !Closing(old(st), r))
      ensures answer == NotFound <==> r !in old(book) || !owned
      ensures answer == AlreadyCancelled <==> r in old(book) && owned && old(book)[r] == Cancelled
      ensures answer != Refunded ==> st == old(st) && Rd() == old(Rd()) && book == old(book) && active == old(active)
      ensures answer == Refunded ==>
        && book == old(book)[r := Cancelled] && active == old(active) - ActiveOf(old(active), r)
        && keys == old(keys) - ActiveOf(old(active), r) && hold == old(hold) - ActiveOf(old(active), r)
        && remain + |active| == cfg.total
      ensures answer == Refunded ==> forall s ::
        && (s in active <==> s in old(active) && old(active)[s] != r)
        && (s in keys <==> s in old(keys) && !(s in old(active) && old(active)[s] == r))
    {
      OnwardSelf(st);
      if r !in book || !owned {
        return NotFound;
      }
      if book[r] == Cancelled {
        return AlreadyCancelled;
      }
      answer := Refunded;
      ActiveFits(st);
      hide Inv, Onward, ActiveOf, Closing;
      var seats, left := CancelRows(r);
      SmallerFits(old(active), seats, cfg.total);
      ghost var s1 := st;
      ClearKeys(r, seats);
      SameClosing(old(st), s1, r);
      OnwardTrans(old(st), s1, st, r in result, !Closing(old(st), r));
      ghost var s2 := st;
      SetCount(r, left);
      OnwardTrans(old(st), s2, st, r in result && !Closing(old(st), r), true);
    }
  }
}
