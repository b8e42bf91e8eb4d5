/** The batched read of a concert's shows: cached snapshots, overlaid with what the live stores say now. */
module Bootstrap {
  import opened SeatStore
  import opened Text

  /** A row of concert_shows, perhaps from the short-lived cache of rows. */
  datatype ShowRow = ShowRow(id: Pos, concert: nat, total: nat, remain: nat, info: string)

  /** A snapshot. Seat lists are sorted by position, so a set stands for each. */
  datatype Snap = Snap(show: nat, info: string, hold: set<Seat>, confirmed: set<Seat>, reserved: set<Seat>,
                       remain: nat, status: string)

  /** A decoded cache value: nothing makes it an object. */
  datatype Json = Null | Dict(snap: Snap) | Other(text: string)

  datatype Entry = Absent | Broken | Value(json: Json)

  /** The hold sets, the ACTIVE rows, the confirmed sets and the show rows. */
  datatype Live = Live(hold: map<nat, set<Seat>>, active: map<nat, set<Seat>>, marked: map<nat, set<Seat>>,
                       rows: map<nat, ShowRow>)

  datatype Reply = NoConcert | Raised | Shows(shows: seq<Json>)

  function At(m: map<nat, set<Seat>>, show: nat): set<Seat> {
    if show in m then m[show] else {}
  }

  /** DB rows and the Redis set together. */
  function ConfirmedOf(live: Live, show: nat): set<Seat> {
    At(live.active, show) + At(live.marked, show)
  }

  function Floor(n: int): nat {
    if n < 0 then 0 else n
  }

  /** _get_or_seed_remain_from_row: the counter, at most the total, or the row's count when there is none. */
  function RemainOf(remain: map<nat, int>, row: ShowRow): nat {
    if row.id !in remain then row.remain
    else
      var v := Floor(remain[row.id]);
      if row.total > 0 && row.total < v then row.total else v
  }

  /** SETNX of a positive count. */
  function Seeded(remain: map<nat, int>, show: nat, count: nat): map<nat, int> {
    if show in remain || count == 0 then remain else remain[show := count]
  }

  /** The row a new snapshot is built from: read again from the database when it can be. */
  function Reread(live: Live, row: ShowRow): ShowRow {
    if row.concert > 0 && row.id in live.rows && live.rows[row.id].concert == row.concert
      && live.rows[row.id].id == row.id
    then live.rows[row.id] else row
  }

  /** _show_payload_from_row. */
  function Payload(live: Live, remain: map<nat, int>, row: ShowRow): Snap {
    var left := if row.id in remain then Floor(remain[row.id]) else row.remain;
    Snap(row.id, row.info, At(live.hold, row.id), ConfirmedOf(live, row.id),
         ConfirmedOf(live, row.id) + At(live.hold, row.id), left, if left <= 0 then "CLOSED" else "OPEN")
  }

  /** A snapshot with the live seats and the live count written over it. */
  function Overlay(live: Live, remain: map<nat, int>, row: ShowRow, snap: Snap): Snap {
    var left := RemainOf(remain, row);
    snap.(hold := At(live.hold, row.id), confirmed := ConfirmedOf(live, row.id),
          reserved := ConfirmedOf(live, row.id) + At(live.hold, row.id), remain := left,
          status := if left <= 0 then "CLOSED" else if snap.status == "" then "OPEN" else snap.status)
  }

  predicate Hit(entry: Entry) {
    entry.Value?
  }

  function EntryOf(entries: map<nat, Entry>, show: nat): Entry {
    if show in entries then entries[show] else Absent
  }

  /** What a miss is filled with: what another reader stored meanwhile, or a new snapshot. */
  function Filled(live: Live, remain: map<nat, int>, row: ShowRow, others: map<nat, Json>): Json {
    if row.id in others then others[row.id] else Dict(Payload(live, remain, Reread(live, row)))
  }

  /** The counters after the fill of a miss. */
  function FilledRemain(live: Live, remain: map<nat, int>, row: ShowRow, others: map<nat, Json>): map<nat, int> {
    if row.id in others then remain else Seeded(remain, row.id, Reread(live, row).remain)
  }

  /** The slot of a show. */
  function Slot(live: Live, remain: map<nat, int>, entry: Entry, row: ShowRow, others: map<nat, Json>): Json {
    if Hit(entry) then
      if entry.json.Dict? then Dict(Overlay(live, remain, row, entry.json.snap)) else entry.json
    else
      var json := Filled(live, remain, row, others);
      if json.Dict? then Dict(Overlay(live, FilledRemain(live, remain, row, others), row, json.snap)) else json
  }

  function Slots(live: Live, remain: map<nat, int>, entries: map<nat, Entry>, rows: seq<ShowRow>,
      others: map<nat, Json>): (s: seq<Json>)
    ensures |s| == |rows|
  {
    seq(|rows|, i requires 0 <= i < |rows| => Slot(live, remain, EntryOf(entries, rows[i].id), rows[i], others))
  }

  /** Slots that stayed empty are dropped. */
  function Kept(slots: seq<Json>): seq<Json> {
    if slots == [] then []
    else Kept(slots[..|slots| - 1]) + if slots[|slots| - 1].Null? then [] else [slots[|slots| - 1]]
  }

  /** Another reader left something that is not an object where a missed show is filled. */
  predicate Spoiled(entries: map<nat, Entry>, row: ShowRow, others: map<nat, Json>) {
    !Hit(EntryOf(entries, row.id)) && row.id in others && !others[row.id].Dict?
  }

  predicate AnySpoiled(entries: map<nat, Entry>, rows: seq<ShowRow>, others: map<nat, Json>) {
    exists i :: 0 <= i < |rows| && Spoiled(entries, rows[i], others)
  }

  function ReplyOf(live: Live, remain: map<nat, int>, entries: map<nat, Entry>, rows: seq<ShowRow>,
      others: map<nat, Json>): Reply {
    if AnySpoiled(entries, rows, others) then Raised else Shows(Kept(Slots(live, remain, entries, rows, others)))
  }

  predicate DistinctRows(rows: seq<ShowRow>) {
    forall i, j :: 0 <= i < j < |rows| ==> rows[i].id != rows[j].id
  }

  // ---- transparency ----------------------------------------------------------------------------

  /** The cache holds an object, or nothing that can be decoded. */
  predicate Sane(entries: map<nat, Entry>, rows: seq<ShowRow>) {
    forall i :: 0 <= i < |rows| ==> EntryOf(entries, rows[i].id).Value? ==> EntryOf(entries, rows[i].id).json.Dict?
  }

  /** The seats of a show straight from the live stores, and its count straight from its counter: never negative,
      at most the total where there is one, and otherwise the counter itself. */
  ghost predicate ShowsLive(json: Json, live: Live, remain: map<nat, int>, row: ShowRow) {
    SeatsLive(json, live, row.id) && row.id in remain && CountShown(json.snap.remain, remain[row.id], row.total)
  }

  ghost predicate SeatsLive(json: Json, live: Live, show: nat) {
    && json.Dict?
    && (forall s :: s in json.snap.hold <==> show in live.hold && s in live.hold[show])
    && (forall s :: s in json.snap.confirmed <==>
          (show in live.active && s in live.active[show]) || (show in live.marked && s in live.marked[show]))
    && json.snap.reserved == json.snap.confirmed + json.snap.hold
  }

  predicate CountShown(left: nat, counter: int, total: nat) {
    && (counter < 0 ==> left == 0)
    && (0 <= counter && (total == 0 || counter <= total) ==> left == counter)
    && (counter > total > 0 ==> left == total)
  }

  /** A show without a counter shows its row's count; a new snapshot's row is the one read again, and its count
      becomes the counter unless it is zero. */
  predicate RowShown(left: nat, live: Live, row: ShowRow, built: bool) {
    var again := Reread(live, row).remain;
    if built && again > 0 then CountShown(left, again, row.total) else left == row.remain
  }

  /** The row of a miss: the database's, when it has the show with that number and of that concert. */
  lemma RereadIs(live: Live, row: ShowRow)
    ensures row.id in live.rows && row.concert == live.rows[row.id].concert > 0 && live.rows[row.id].id == row.id ==>
      Reread(live, row) == live.rows[row.id]
    ensures Reread(live, row) != row ==>
      row.id in live.rows && Reread(live, row) == live.rows[row.id] && row.concert == live.rows[row.id].concert > 0
    ensures Reread(live, row).id == row.id && (row.concert > 0 ==> Reread(live, row).concert == row.concert)
  {
  }

  /** What else a slot carries: the snapshot's own show and information on a hit, the row's on a miss. */
  lemma SlotCarries(live: Live, remain: map<nat, int>, entry: Entry, row: ShowRow, others: map<nat, Json>)
    requires Slot(live, remain, entry, row, others).Dict?
    ensures var snap := Slot(live, remain, entry, row, others).snap;
      && (entry.Value? ==>
            entry.json.Dict? && snap.show == entry.json.snap.show && snap.info == entry.json.snap.info)
      && (!entry.Value? && row.id !in others ==> snap.show == row.id && snap.info == Reread(live, row).info)
      && (!entry.Value? && row.id in others ==>
            others[row.id].Dict? && snap.show == others[row.id].snap.show && snap.info == others[row.id].snap.info)
      && (snap.remain == 0 ==> snap.status == "CLOSED")
  {
  }

  lemma {:induction false} KeptAll(slots: seq<Json>)
    ensures |Kept(slots)| <= |slots|
    ensures Null in slots <==> |Kept(slots)| < |slots|
    ensures Null !in slots ==> Kept(slots) == slots
  {
    if slots != [] {
      var front, last := slots[..|slots| - 1], slots[|slots| - 1];
      KeptAll(front);
      assert Kept(slots) == Kept(front) + if last.Null? then [] else [last];
      hide Kept;
      assert slots == front + [last];
      assert Null in slots <==> Null in front || Null == last;
    }
  }

  /** What is dropped is the empty slots, and no other. */
  lemma {:induction false} KeptCounts(slots: seq<Json>, json: Json)
    ensures multiset(Kept(slots))[json] == if json.Null? then 0 else multiset(slots)[json]
  {
    if slots != [] {
      var front, last := slots[..|slots| - 1], slots[|slots| - 1];
      KeptCounts(front, json);
      assert Kept(slots) == Kept(front) + if last.Null? then [] else [last];
      hide Kept;
      assert slots == front + [last];
    }
  }

  /** The entry of a row in a reply: live seats, the live count where there is a counter, and on a hit the cached
      snapshot's show and information. Without a counter the row's count is shown. */
  ghost predicate EntryFits(json: Json, live: Live, remain: map<nat, int>, entries: map<nat, Entry>, row: ShowRow,
      others: map<nat, Json>)
  {
    && SeatsLive(json, live, row.id)
    && (row.id in remain ==> CountShown(json.snap.remain, remain[row.id], row.total))
    && (row.id !in remain ==>
          RowShown(json.snap.remain, live, row, !(row.id in entries && entries[row.id].Value?) && row.id !in others))
    && (row.id in entries && entries[row.id].Value? ==> SameShow(json, entries[row.id].json))
    && (json.snap.remain == 0 ==> json.snap.status == "CLOSED")
  }

  predicate SameShow(json: Json, cached: Json) {
    json.Dict? && cached.Dict? && json.snap.show == cached.snap.show && json.snap.info == cached.snap.info
  }

  /** The cache holds an object, or nothing that can be decoded; said over the entries themselves. */
  ghost predicate OnlyObjects(entries: map<nat, Entry>, rows: seq<ShowRow>) {
    forall i :: 0 <= i < |rows| && rows[i].id in entries && entries[rows[i].id].Value? ==>
      entries[rows[i].id].json.Dict?
  }

  /** What a reply promises: where only objects are cached it has one entry per show, in row order; and it raises
      exactly when another reader left something that is not an object where a show was missed. */
  ghost predicate ReplyFits(reply: Reply, live: Live, remain: map<nat, int>, entries: map<nat, Entry>,
      rows: seq<ShowRow>, others: map<nat, Json>)
  {
    && (reply.Shows? && OnlyObjects(entries, rows) ==>
          && |reply.shows| == |rows|
          && forall i :: 0 <= i < |rows| ==> EntryFits(reply.shows[i], live, remain, entries, rows[i], others))
    && (reply.Shows? || reply.Raised?)
    && (reply.Raised? <==> exists i :: 0 <= i < |rows| && MissedBadly(entries, rows[i].id, others))
  }

  predicate MissedBadly(entries: map<nat, Entry>, show: nat, others: map<nat, Json>) {
    !(show in entries && entries[show].Value?) && show in others && !others[show].Dict?
  }

  lemma ReplyAlwaysFits(live: Live, remain: map<nat, int>, entries: map<nat, Entry>, rows: seq<ShowRow>,
      others: map<nat, Json>)
    ensures ReplyFits(ReplyOf(live, remain, entries, rows, others), live, remain, entries, rows, others)
  {
    hide EntryFits, Slots, Kept;
    SpoiledIff(entries, rows, others);
    if !AnySpoiled(entries, rows, others) && OnlyObjects(entries, rows) {
      EntriesFit(live, remain, entries, rows, others);
    }
  }

  lemma SpoiledIff(entries: map<nat, Entry>, rows: seq<ShowRow>, others: map<nat, Json>)
    ensures AnySpoiled(entries, rows, others) <==>
      exists i :: 0 <= i < |rows| && MissedBadly(entries, rows[i].id, others)
  {
    assert forall i :: 0 <= i < |rows| ==>
      (Spoiled(entries, rows[i], others) <==> MissedBadly(entries, rows[i].id, others));
  }

  lemma EntriesFit(live: Live, remain: map<nat, int>, entries: map<nat, Entry>, rows: seq<ShowRow>,
      others: map<nat, Json>)
    requires OnlyObjects(entries, rows) && !AnySpoiled(entries, rows, others)
    ensures var shows := Kept(Slots(live, remain, entries, rows, others));
      |shows| == |rows| && forall i :: 0 <= i < |rows| ==> EntryFits(shows[i], live, remain, entries, rows[i], others)
  {
    var slots := Slots(live, remain, entries, rows, others);
    hide Slot, EntryFits, Kept, Spoiled;
    forall i | 0 <= i < |rows| ensures EntryFits(slots[i], live, remain, entries, rows[i], others) && slots[i].Dict? {
      SlotFits(live, remain, entries, rows[i], others);
    }
    KeptAll(slots);
  }

  lemma SlotFits(live: Live, remain: map<nat, int>, entries: map<nat, Entry>, row: ShowRow, others: map<nat, Json>)
    requires row.id in entries && entries[row.id].Value? ==> entries[row.id].json.Dict?
    requires !Spoiled(entries, row, others)
    ensures EntryFits(Slot(live, remain, EntryOf(entries, row.id), row, others), live, remain, entries, row, others)
    ensures Slot(live, remain, EntryOf(entries, row.id), row, others).Dict?
  {
    SlotSeats(live, remain, EntryOf(entries, row.id), row, others);
    hide At, ConfirmedOf, SeatsLive, Reread;
    RereadIs(live, row);
  }

  lemma SlotSeats(live: Live, remain: map<nat, int>, entry: Entry, row: ShowRow, others: map<nat, Json>)
    requires Slot(live, remain, entry, row, others).Dict?
    ensures SeatsLive(Slot(live, remain, entry, row, others), live, row.id)
  {
    hide Filled, FilledRemain, RemainOf;
  }

  /** Whatever is cached, missing, undecodable or stale, and whatever other readers store meanwhile: with the
      counters present the reply has one entry per show, in row order, with the live seats and the live count. */
  lemma CacheIsTransparent(live: Live, remain: map<nat, int>, entries: map<nat, Entry>, rows: seq<ShowRow>,
      others: map<nat, Json>)
    requires Sane(entries, rows) && !AnySpoiled(entries, rows, others)
    requires forall i :: 0 <= i < |rows| ==> rows[i].id in remain
    ensures var reply := ReplyOf(live, remain, entries, rows, others);
      && reply.Shows? && |reply.shows| == |rows|
      && forall i :: 0 <= i < |rows| ==> ShowsLive(reply.shows[i], live, remain, rows[i])
  {
    var slots := Slots(live, remain, entries, rows, others);
    hide Slot, ShowsLive, Kept;
    forall i | 0 <= i < |rows| ensures ShowsLive(slots[i], live, remain, rows[i]) && slots[i].Dict? {
      assert !Spoiled(entries, rows[i], others);
      SlotFits(live, remain, entries, rows[i], others);
      FitsLive(slots[i], live, remain, entries, rows[i], others);
    }
    KeptAll(slots);
  }

  lemma FitsLive(json: Json, live: Live, remain: map<nat, int>, entries: map<nat, Entry>, row: ShowRow,
      others: map<nat, Json>)
    requires EntryFits(json, live, remain, entries, row, others) && row.id in remain
    ensures ShowsLive(json, live, remain, row)
  {
    hide SeatsLive, CountShown;
  }

  /** The condition is exact: a reply has an entry of live data for every row if and only if every cached
      value that decodes is an object, and so is what other readers store. */
  lemma TransparentIff(live: Live, remain: map<nat, int>, entries: map<nat, Entry>, rows: seq<ShowRow>,
      others: map<nat, Json>)
    requires forall i :: 0 <= i < |rows| ==> rows[i].id in remain
    ensures (Sane(entries, rows) && !AnySpoiled(entries, rows, others)) <==>
      var reply := ReplyOf(live, remain, entries, rows, others);
      (reply.Shows? && |reply.shows| == |rows|
       && forall i :: 0 <= i < |rows| ==> ShowsLive(reply.shows[i], live, remain, rows[i]))
  {
    if Sane(entries, rows) && !AnySpoiled(entries, rows, others) {
      CacheIsTransparent(live, remain, entries, rows, others);
    } else if !AnySpoiled(entries, rows, others) {
      var slots := Slots(live, remain, entries, rows, others);
      var i :| 0 <= i < |rows| && EntryOf(entries, rows[i].id).Value? && !EntryOf(entries, rows[i].id).json.Dict?;
      assert !slots[i].Dict?;
      KeptAll(slots);
    }
  }

  /** The status is not transparent: a show is CLOSED exactly when no place is left or the snapshot it is made
      from, cached or stored by another reader, says so, whatever the live count. */
  lemma StatusIff(live: Live, remain: map<nat, int>, entry: Entry, row: ShowRow, others: map<nat, Json>)
    requires row.id in remain && Slot(live, remain, entry, row, others).Dict?
    ensures var snap := Slot(live, remain, entry, row, others).snap;
      snap.status == "CLOSED" <==>
        || remain[row.id] <= 0
        || (entry.Value? && entry.json.Dict? && entry.json.snap.status == "CLOSED")
        || (!entry.Value? && row.id in others && others[row.id].Dict? && others[row.id].snap.status == "CLOSED")
  {
  }

  /** So a snapshot that was stored while a show was sold out keeps it CLOSED after seats have come back, and the
      same show read without that snapshot is OPEN. */
  lemma ClosedOutlives(live: Live, remain: map<nat, int>, row: ShowRow, earlier: Live, before: map<nat, int>)
    requires row.id in before && before[row.id] <= 0 && row.id in remain && remain[row.id] > 0
    ensures var stale := Payload(earlier, before, Reread(earlier, row));
      var hit, miss := Slot(live, remain, Value(Dict(stale)), row, map[]), Slot(live, remain, Absent, row, map[]);
      && hit.Dict? && hit.snap.status == "CLOSED" && hit.snap.remain > 0
      && miss.Dict? && miss.snap.status == "OPEN" && miss.snap.remain == hit.snap.remain
  {
  }

  /** Reading again, with nothing changed meanwhile, gives a missed show the same slot from its new snapshot. */
  lemma SecondReadSame(live: Live, remain: map<nat, int>, row: ShowRow)
    requires row.id in remain
    ensures var snap := Payload(live, remain, Reread(live, row));
      Slot(live, remain, Value(Dict(snap)), row, map[]) == Slot(live, remain, Absent, row, map[])
  {
  }

  // ---- one show at a time ----------------------------------------------------------------------

  /** Both maps say the same of the show's counter. */
  predicate Agree(a: map<nat, int>, b: map<nat, int>, show: nat) {
    (show in a <==> show in b) && (show in a ==> a[show] == b[show])
  }

  /** Counters that existed are as they were, and new ones belong to the rows. */
  predicate OnlySeeds(before: map<nat, int>, after: map<nat, int>, rows: seq<ShowRow>) {
    && (forall show :: show in before ==> show in after && after[show] == before[show])
    && (forall show :: show in after && show !in before ==> exists i :: 0 <= i < |rows| && rows[i].id == show)
  }

  /** A slot depends on its own show's counter only. */
  lemma SlotLocal(live: Live, a: map<nat, int>, b: map<nat, int>, entry: Entry, row: ShowRow, others: map<nat, Json>)
    requires Agree(a, b, row.id)
    ensures Slot(live, a, entry, row, others) == Slot(live, b, entry, row, others)
    ensures Filled(live, a, row, others) == Filled(live, b, row, others)
  {
    FilledLocal(live, a, b, row, others);
    SeedLocal(a, b, row.id, Reread(live, row).remain);
    RemainLocal(a, b, row);
    RemainLocal(FilledRemain(live, a, row, others), FilledRemain(live, b, row, others), row);
    hide ConfirmedOf, At, Reread, Seeded, RemainOf, Filled, Agree;
  }

  lemma FilledLocal(live: Live, a: map<nat, int>, b: map<nat, int>, row: ShowRow, others: map<nat, Json>)
    requires Agree(a, b, row.id)
    ensures Filled(live, a, row, others) == Filled(live, b, row, others)
  {
    assert Reread(live, row).id == row.id;
    hide ConfirmedOf, At, Reread;
  }

  lemma RemainLocal(a: map<nat, int>, b: map<nat, int>, row: ShowRow)
    requires Agree(a, b, row.id)
    ensures RemainOf(a, row) == RemainOf(b, row)
  {
  }

  lemma SeedLocal(a: map<nat, int>, b: map<nat, int>, show: nat, count: nat)
    requires Agree(a, b, show)
    ensures Agree(Seeded(a, show, count), Seeded(b, show, count), show)
  {
  }

  lemma SeedIsSeed(before: map<nat, int>, after: map<nat, int>, rows: seq<ShowRow>, i: nat, count: nat)
    requires OnlySeeds(before, after, rows) && i < |rows|
    ensures OnlySeeds(before, Seeded(after, rows[i].id, count), rows)
    ensures forall show :: show != rows[i].id ==> Agree(Seeded(after, rows[i].id, count), after, show)
  {
  }

  lemma KeptNext(slots: seq<Json>, i: nat)
    requires i < |slots|
    ensures Kept(slots[..i + 1]) == Kept(slots[..i]) + if slots[i].Null? then [] else [slots[i]]
  {
    assert slots[..i + 1][..i] == slots[..i];
  }
}
