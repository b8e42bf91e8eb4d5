/** The batched read's loops, over the cache entries and counters they update. */
module BootstrapService {
  import opened SeatStore
  import opened Text
  import opened Bootstrap

  class ReadCache {
    var live: Live
    var entries: map<nat, Entry>
    var remain: map<nat, int>

    /** _redis_mget_values: one MGET per chunk. */
    method MGet(shows: seq<nat>, chunk: nat) returns (values: seq<Entry>)
      requires chunk >= 1
      ensures |values| == |shows| && forall i :: 0 <= i < |shows| ==> values[i] == EntryOf(entries, shows[i])
    {
      values := [];
      var i := 0;
      while i < |shows|
        invariant |values| == if i < |shows| then i else |shows|
        invariant forall j :: 0 <= j < |values| ==> values[j] == EntryOf(entries, shows[j])
      {
        var end := if i + chunk < |shows| then i + chunk else |shows|;
        var replies := seq(end - i, k requires 0 <= k < end - i reads this => EntryOf(entries, shows[i + k]));
        values := values + replies;
        i := i + chunk;
      }
    }

    /** _get_or_seed_remain_from_row. */
    method GetOrSeedRemain(row: ShowRow) returns (left: nat)
      modifies this`remain
      ensures left == RemainOf(old(remain), row)
      ensures row.id in old(remain) ==>
        && (old(remain)[row.id] < 0 ==> left == 0)
        && (0 <= old(remain)[row.id] && (row.total == 0 || old(remain)[row.id] <= row.total) ==>
              left == old(remain)[row.id])
        && (old(remain)[row.id] > row.total > 0 ==> left == row.total)
      ensures row.id !in old(remain) ==> left == row.remain
      ensures row.id !in old(remain) && row.remain > 0 ==> remain == old(remain)[row.id := row.remain]
      ensures row.id !in old(remain) && row.remain == 0 ==> remain == old(remain)
      ensures row.id in old(remain) && row.total > 0 ==> left <= row.total
      ensures row.id in old(remain) ==> remain == old(remain) && (left == 0 <==> remain[row.id] <= 0)
      ensures row.id !in old(remain) && left > 0 ==> row.id in remain && remain[row.id] == left
      ensures remain == Seeded(old(remain), row.id, row.remain)
    {
      if row.id !in remain {
        if row.remain > 0 {
          remain := remain[row.id := row.remain];
        }
        return row.remain;
      }
      left := if remain[row.id] < 0 then 0 else remain[row.id];
      if row.total > 0 && row.total < left {
        left := row.total;
      }
    }

    /** A snapshot with the live data written over it. */
    method WriteOver(row: ShowRow, cached: Snap) returns (snap: Snap)
      modifies this`remain
      ensures snap == Overlay(live, old(remain), row, cached)
      ensures remain == Seeded(old(remain), row.id, row.remain)
    {
      snap := cached.(hold := At(live.hold, row.id), confirmed := ConfirmedOf(live, row.id));
      snap := snap.(reserved := snap.confirmed + snap.hold);
      var left := GetOrSeedRemain(row);
      snap := snap.(remain := left);
      if left <= 0 {
        snap := snap.(status := "CLOSED");
      } else if snap.status == "" {
        snap := snap.(status := "OPEN");
      }
    }

    /** _coalesced_fill_show_snapshot: what another reader stored, or a snapshot built and stored here. */
    method FillSnapshot(row: ShowRow, others: map<nat, Json>) returns (json: Json)
      modifies this`entries, this`remain
      ensures json == Filled(live, old(remain), row, others)
      ensures row.id in others ==> json == others[row.id] && remain == old(remain)
      ensures row.id !in others ==>
        && json.Dict? && json.snap.hold == At(live.hold, row.id) && json.snap.confirmed == ConfirmedOf(live, row.id)
        && json.snap.reserved == json.snap.confirmed + json.snap.hold
        && (json.snap.status == "CLOSED" <==> json.snap.remain == 0)
      ensures remain == FilledRemain(live, old(remain), row, others)
      ensures entries == old(entries)[row.id := Value(json)]
    {
      if row.id in others {
        json := others[row.id];
        entries := entries[row.id := Value(json)];
        return;
      }
      var again := Reread(live, row);
      json := Dict(Payload(live, remain, again));
      if again.id !in remain && again.remain > 0 {
        remain := remain[row.id := again.remain];
      }
      entries := entries[row.id := Value(json)];
    }

    /** The slot of a hit, with its counter. */
    method ReadHit(rows: seq<ShowRow>, i: nat, json: Json, ghost before: map<nat, int>) returns (slot: Json)
      requires i < |rows| && OnlySeeds(before, remain, rows) && Agree(remain, before, rows[i].id)
      modifies this`remain
      ensures slot == Slot(live, before, Value(json), rows[i], map[])
      ensures OnlySeeds(before, remain, rows)
      ensures forall show :: show != rows[i].id ==> Agree(remain, old(remain), show)
    {
      SlotLocal(live, remain, before, Value(json), rows[i], map[]);
      SeedIsSeed(before, remain, rows, i, rows[i].remain);
      if json.Dict? {
        var snap := WriteOver(rows[i], json.snap);
        slot := Dict(snap);
      } else {
        slot := json;
      }
    }

    /** The slot of a miss, filled and written over; None where that raises. */
    method FillMiss(rows: seq<ShowRow>, i: nat, others: map<nat, Json>, ghost before: map<nat, int>)
      returns (slot: Option<Json>)
      requires i < |rows| && OnlySeeds(before, remain, rows) && Agree(remain, before, rows[i].id)
      modifies this`entries, this`remain
      ensures slot.None? <==> rows[i].id in others && !others[rows[i].id].Dict?
      ensures slot.Some? ==> slot.value == Slot(live, before, Absent, rows[i], others)
      ensures EntryOf(entries, rows[i].id) == Value(Filled(live, before, rows[i], others))
      ensures forall show :: show != rows[i].id ==> EntryOf(entries, show) == EntryOf(old(entries), show)
      ensures OnlySeeds(before, remain, rows)
      ensures forall show :: show != rows[i].id ==> Agree(remain, old(remain), show)
    {
      var row := rows[i];
      SlotLocal(live, remain, before, Absent, row, others);
      SeedIsSeed(before, remain, rows, i, Reread(live, row).remain);
      SeedIsSeed(before, FilledRemain(live, remain, row, others), rows, i, row.remain);
      var json := FillSnapshot(row, others);
      if !json.Dict? {
        return None;
      }
      var snap := WriteOver(row, json.snap);
      slot := Some(Dict(snap));
    }

    /** The loop over the values read; undecodable ones are deleted. */
    method ReadHits(rows: seq<ShowRow>, raws: seq<Entry>) returns (slots: seq<Json>, missed: seq<nat>)
      requires DistinctRows(rows) && |raws| == |rows|
      modifies this`entries, this`remain
      ensures |slots| == |rows| && OnlySeeds(old(remain), remain, rows)
      ensures forall i :: 0 <= i < |rows| ==>
        if Hit(raws[i]) then slots[i] == Slot(live, old(remain), raws[i], rows[i], map[])
        else i in missed && Agree(remain, old(remain), rows[i].id)
      ensures forall k :: 0 <= k < |missed| ==> missed[k] < |rows| && !Hit(raws[missed[k]])
      ensures forall j, k :: 0 <= j < k < |missed| ==> missed[j] < missed[k]
      ensures forall show :: show in entries ==> show in old(entries) && entries[show] == old(entries)[show]
      ensures forall show :: show in old(entries) && show !in entries ==>
        exists k :: 0 <= k < |missed| && rows[missed[k]].id == show
    {
      slots, missed := [], [];
      assert OnlySeeds(remain, remain, rows) && forall j :: 0 <= j < |rows| ==> Agree(remain, remain, rows[j].id);
      hide Slot, Agree, OnlySeeds, DistinctRows;
      for i := 0 to |rows|
        invariant |slots| == i && OnlySeeds(old(remain), remain, rows)
        invariant forall j :: 0 <= j < i ==>
          if Hit(raws[j]) then slots[j] == Slot(live, old(remain), raws[j], rows[j], map[])
          else j in missed && Agree(remain, old(remain), rows[j].id)
        invariant forall j :: i <= j < |rows| ==> Agree(remain, old(remain), rows[j].id)
        invariant forall k :: 0 <= k < |missed| ==> missed[k] < i && !Hit(raws[missed[k]])
        invariant forall j, k :: 0 <= j < k < |missed| ==> missed[j] < missed[k]
        invariant forall show :: show in entries ==> show in old(entries) && entries[show] == old(entries)[show]
        invariant forall show :: show in old(entries) && show !in entries ==>
          exists k :: 0 <= k < |missed| && rows[missed[k]].id == show
      {
        ghost var was := remain;
        var slot := Null;
        if raws[i].Value? {
          slot := ReadHit(rows, i, raws[i].json, old(remain));
          StillAgree(rows, i, remain, was, old(remain));
        } else {
          if raws[i].Broken? {
            entries := entries - {rows[i].id};
          }
          ghost var were := missed;
          missed := missed + [i];
          assert forall k :: 0 <= k < |were| ==> missed[k] == were[k];
          assert missed[|were|] == i && forall j :: j in were ==> j in missed;
        }
        slots := slots + [slot];
      }
    }

    /** The loop over the misses; false where one raises. */
    method FillMisses(rows: seq<ShowRow>, missed: seq<nat>, others: map<nat, Json>, given: seq<Json>,
        ghost before: map<nat, int>)
      returns (ok: bool, slots: seq<Json>)
      requires DistinctRows(rows) && |given| == |rows| && OnlySeeds(before, remain, rows) && Indices(rows, missed)
      requires AgreeFrom(rows, missed, remain, before, 0)
      modifies this`entries, this`remain
      ensures OnlySeeds(before, remain, rows)
      ensures ok <==> NoneSpoiled(rows, missed, others, |missed|)
      ensures ok ==> SlotsUpTo(live, before, rows, missed, others, given, slots, |missed|)
      ensures ok ==> EntriesUpTo(live, before, rows, missed, others, old(entries), entries, |missed|)
    {
      slots := given;
      SlotsNone(live, before, rows, missed, others, given, entries);
      hide Slot, Agree, OnlySeeds, Filled, EntryOf, DistinctRows, SlotsUpTo, EntriesUpTo, AgreeFrom;
      for n := 0 to |missed|
        invariant |slots| == |rows| && OnlySeeds(before, remain, rows)
        invariant AgreeFrom(rows, missed, remain, before, n) && NoneSpoiled(rows, missed, others, n)
        invariant SlotsUpTo(live, before, rows, missed, others, given, slots, n)
        invariant EntriesUpTo(live, before, rows, missed, others, old(entries), entries, n)
      {
        ghost var was, mid := remain, entries;
        assert Agree(remain, before, rows[missed[n]].id) by { NextAgrees(rows, missed, remain, before, n); }
        var slot := FillMiss(rows, missed[n], others, before);
        OthersAgree(rows, missed, n, remain, was, before);
        if slot.None? {
          return false, slots;
        }
        SlotsNext(live, before, rows, missed, others, given, slots, n, slot.value);
        EntriesNext(live, before, rows, missed, others, old(entries), mid, entries, n);
        slots := slots[missed[n] := slot.value];
      }
      ok := true;
    }

    /** The slots that were filled. */
    static method Collect(slots: seq<Json>) returns (shows: seq<Json>)
      ensures shows == Kept(slots)
    {
      shows := [];
      for i := 0 to |slots|
        invariant shows == Kept(slots[..i])
      {
        KeptNext(slots, i);
        if !slots[i].Null? {
          shows := shows + [slots[i]];
        }
      }
      assert slots[..|slots|] == slots;
    }

    /** get_concert_bootstrap_cached_or_load. `others` is what other readers store while this one runs. */
    method GetBootstrap(known: bool, rows: seq<ShowRow>, others: map<nat, Json>) returns (reply: Reply)
      requires DistinctRows(rows)
      modifies this`entries, this`remain
      ensures !known ==> reply == NoConcert
      ensures known ==> reply == ReplyOf(live, old(remain), old(entries), rows, others)
      ensures known ==> ReplyFits(reply, live, old(remain), old(entries), rows, others)
      ensures OnlySeeds(old(remain), remain, rows)
      ensures known && reply.Shows? ==> forall i :: 0 <= i < |rows| ==>
        EntryOf(entries, rows[i].id) ==
          if Hit(EntryOf(old(entries), rows[i].id)) then EntryOf(old(entries), rows[i].id)
          else Value(Filled(live, old(remain), rows[i], others))
    {
      if !known {
        return NoConcert;
      }
      ReplyAlwaysFits(live, remain, entries, rows, others);
      hide ReplyFits;
      if rows == [] {
        return Shows([]);
      }
      var ids := seq(|rows|, i requires 0 <= i < |rows| => rows[i].id as nat);
      var raws := MGet(ids, 128);
      var slots, missed := ReadHits(rows, raws);
      ghost var read := slots;
      var ok;
      ok, slots := FillMisses(rows, missed, others, slots, old(remain));
      hide Kept, Slot;
      if !ok {
        var k :| 0 <= k < |missed| && rows[missed[k]].id in others && !others[rows[missed[k]].id].Dict?;
        assert Spoiled(old(entries), rows[missed[k]], others);
        return Raised;
      }
      MissesAreAbsent(live, old(remain), old(entries), rows, others);
      hide Filled;
      assert slots == Slots(live, old(remain), old(entries), rows, others);
      var shows := Collect(slots);
      reply := Shows(shows);
    }
  }

  lemma StillAgree(rows: seq<ShowRow>, i: nat, now: map<nat, int>, was: map<nat, int>, before: map<nat, int>)
    requires DistinctRows(rows) && i < |rows|
    requires forall show :: show != rows[i].id ==> Agree(now, was, show)
    ensures forall j :: 0 <= j < |rows| && j != i && Agree(was, before, rows[j].id) ==> Agree(now, before, rows[j].id)
  {
    forall j | 0 <= j < |rows| && j != i && Agree(was, before, rows[j].id) ensures Agree(now, before, rows[j].id) {
      assert Agree(now, was, rows[j].id);
    }
  }

  /** Increasing indices of rows. */
  predicate Indices(rows: seq<ShowRow>, missed: seq<nat>) {
    && (forall k :: 0 <= k < |missed| ==> missed[k] < |rows|)
    && (forall j, k :: 0 <= j < k < |missed| ==> missed[j] < missed[k])
  }

  /** The first `n` misses have their slots, and the hits keep theirs. */
  ghost predicate SlotsUpTo(live: Live, before: map<nat, int>, rows: seq<ShowRow>, missed: seq<nat>,
      others: map<nat, Json>, given: seq<Json>, slots: seq<Json>, n: nat)
    requires n <= |missed| && Indices(rows, missed) && |given| == |rows|
  {
    && |slots| == |rows|
    && (forall k :: 0 <= k < n ==> slots[missed[k]] == Slot(live, before, Absent, rows[missed[k]], others))
    && (forall i :: 0 <= i < |rows| && i !in missed ==> slots[i] == given[i])
  }

  /** The first `n` misses have their snapshots, and the hits keep theirs. */
  ghost predicate EntriesUpTo(live: Live, before: map<nat, int>, rows: seq<ShowRow>, missed: seq<nat>,
      others: map<nat, Json>, was: map<nat, Entry>, entries: map<nat, Entry>, n: nat)
    requires n <= |missed| && Indices(rows, missed)
  {
    && (forall k :: 0 <= k < n ==>
          EntryOf(entries, rows[missed[k]].id) == Value(Filled(live, before, rows[missed[k]], others)))
    && (forall i :: 0 <= i < |rows| && i !in missed ==> EntryOf(entries, rows[i].id) == EntryOf(was, rows[i].id))
  }

  lemma SlotsNone(live: Live, before: map<nat, int>, rows: seq<ShowRow>, missed: seq<nat>, others: map<nat, Json>,
      given: seq<Json>, was: map<nat, Entry>)
    requires Indices(rows, missed) && |given| == |rows|
    ensures SlotsUpTo(live, before, rows, missed, others, given, given, 0)
    ensures EntriesUpTo(live, before, rows, missed, others, was, was, 0)
  {
  }

  lemma SlotsNext(live: Live, before: map<nat, int>, rows: seq<ShowRow>, missed: seq<nat>, others: map<nat, Json>,
      given: seq<Json>, slots: seq<Json>, n: nat, slot: Json)
    requires n < |missed| && Indices(rows, missed) && |given| == |rows|
    requires SlotsUpTo(live, before, rows, missed, others, given, slots, n)
    requires slot == Slot(live, before, Absent, rows[missed[n]], others)
    ensures SlotsUpTo(live, before, rows, missed, others, given, slots[missed[n] := slot], n + 1)
  {
    hide Slot;
  }

  lemma EntriesNext(live: Live, before: map<nat, int>, rows: seq<ShowRow>, missed: seq<nat>, others: map<nat, Json>,
      was: map<nat, Entry>, mid: map<nat, Entry>, entries: map<nat, Entry>, n: nat)
    requires n < |missed| && Indices(rows, missed) && DistinctRows(rows)
    requires EntriesUpTo(live, before, rows, missed, others, was, mid, n)
    requires EntryOf(entries, rows[missed[n]].id) == Value(Filled(live, before, rows[missed[n]], others))
    requires forall show :: show != rows[missed[n]].id ==> EntryOf(entries, show) == EntryOf(mid, show)
    ensures EntriesUpTo(live, before, rows, missed, others, was, entries, n + 1)
  {
    hide EntryOf, Filled;
  }

  /** The counters of the misses still to come are as they were. */
  ghost predicate AgreeFrom(rows: seq<ShowRow>, missed: seq<nat>, now: map<nat, int>, before: map<nat, int>, n: nat)
    requires Indices(rows, missed)
  {
    forall k :: n <= k < |missed| ==> Agree(now, before, rows[missed[k]].id)
  }

  predicate NoneSpoiled(rows: seq<ShowRow>, missed: seq<nat>, others: map<nat, Json>, n: nat)
    requires Indices(rows, missed) && n <= |missed|
  {
    forall k :: 0 <= k < n ==> !(rows[missed[k]].id in others && !others[rows[missed[k]].id].Dict?)
  }

  lemma NextAgrees(rows: seq<ShowRow>, missed: seq<nat>, now: map<nat, int>, before: map<nat, int>, n: nat)
    requires Indices(rows, missed) && n < |missed| && AgreeFrom(rows, missed, now, before, n)
    ensures Agree(now, before, rows[missed[n]].id)
  {
  }

  lemma OthersAgree(rows: seq<ShowRow>, missed: seq<nat>, n: nat, now: map<nat, int>, was: map<nat, int>,
      before: map<nat, int>)
    requires DistinctRows(rows) && n < |missed| && Indices(rows, missed)
    requires forall show :: show != rows[missed[n]].id ==> Agree(now, was, show)
    requires AgreeFrom(rows, missed, was, before, n)
    ensures AgreeFrom(rows, missed, now, before, n + 1)
  {
    forall k | n < k < |missed| ensures Agree(now, before, rows[missed[k]].id) {
      assert Agree(now, was, rows[missed[k]].id);
    }
  }

  /** A slot sees only whether its value was a hit; other readers matter to misses only. */
  lemma MissesAreAbsent(live: Live, remain: map<nat, int>, entries: map<nat, Entry>, rows: seq<ShowRow>,
      others: map<nat, Json>)
    ensures forall i :: 0 <= i < |rows| ==>
      var entry := EntryOf(entries, rows[i].id);
      Slot(live, remain, entry, rows[i], others) ==
        if Hit(entry) then Slot(live, remain, entry, rows[i], map[]) else Slot(live, remain, Absent, rows[i], others)
  {
  }
}
