/** Setting a value deep inside a document of objects and lists, and the laws that make it order-free.

    A field path is a list of segments; `k[i]` stands for the list at `k` and its i-th item. Missing objects and
    lists are created on the way, and short lists are padded with empty objects. */
module NestedSet {
  import opened Text

  /** A document. `Shared(id)` is a reference to a document that others may refer to as well; it is not looked
      into here. */
  datatype Json = Obj(fields: map<string, Json>) | Arr(items: seq<Json>) | Leaf(text: string) | Shared(id: nat)

  /** One step of a path: the value of a key, or an item of a list. */
  datatype Cell = Name(key: string) | Pos(index: nat)

  // ---- segments --------------------------------------------------------------------------------

  /** Where the last opening bracket is, or the length if there is none. */
  function Bracket(s: string): (i: nat)
    ensures i <= |s|
    ensures i < |s| ==> s[i] == '['
  {
    if s == [] then 0
    else if s[|s| - 1] == '[' then |s| - 1
    else var i := Bracket(s[..|s| - 1]); if i == |s| - 1 then |s| else i
  }

  predicate AllDigits(s: string) {
    s != [] && forall c :: c in s ==> IsDigit(c)
  }

  /** The cells of a segment that is not the last: a key, or a key with an index. */
  function Cells(s: string): (cells: seq<Cell>)
    ensures cells != [] && cells[0].Name?
  {
    var b := Bracket(s);
    if 0 < b < |s| - 2 && s[|s| - 1] == ']' && AllDigits(s[b + 1..|s| - 1])
    then [Name(s[..b]), Pos(Decimal(s[b + 1..|s| - 1]))]
    else [Name(s)]
  }

  lemma {:induction false} BracketBefore(k: string, t: string)
    requires '[' !in t
    ensures Bracket(k + "[" + t) == |k|
    decreases |t|
  {
    var s := k + "[" + t;
    if t == [] {
      assert s[|s| - 1] == '[';
    } else {
      assert s[..|s| - 1] == k + "[" + t[..|t| - 1];
      BracketBefore(k, t[..|t| - 1]);
    }
  }

  /** A key with an index is read as that key and that index, whatever brackets the key contains. */
  lemma IndexSegment(k: string, digits: string)
    requires k != [] && AllDigits(digits)
    ensures Cells(k + "[" + digits + "]") == [Name(k), Pos(Decimal(digits))]
  {
    var s := k + "[" + (digits + "]");
    assert k + "[" + digits + "]" == s;
    BracketBefore(k, digits + "]");
    assert s[..|k|] == k && s[|k| + 1..|s| - 1] == digits && s[|s| - 1] == ']';
  }

  /** The cells of a path; the last segment is always a key. */
  function Expand(segments: seq<string>): (cells: seq<Cell>)
    requires segments != []
    ensures cells != [] && cells[|cells| - 1].Name?
  {
    if |segments| == 1 then [Name(segments[0])] else Cells(segments[0]) + Expand(segments[1..])
  }

  lemma {:induction false} ExpandLast(segments: seq<string>)
    requires segments != []
    ensures Expand(segments)[|Expand(segments)| - 1] == Name(segments[|segments| - 1])
    decreases |segments|
  {
    if |segments| > 1 { ExpandLast(segments[1..]); }
  }

  predicate Has(d: Json, c: Cell) {
    if c.Name? then d.Obj? && c.key in d.fields else d.Arr? && c.index < |d.items|
  }

  function Part(d: Json, c: Cell): (part: Json)
    requires Has(d, c)
    ensures part < d
  {
    if c.Name? then d.fields[c.key] else d.items[c.index]
  }

  // ---- reading and setting ---------------------------------------------------------------------

  function Get(d: Json, path: seq<Cell>): Option<Json> {
    if path == [] then Some(d)
    else
      match path[0]
      case Name(k) => if d.Obj? && k in d.fields then Get(d.fields[k], path[1..]) else None
      case Pos(i) => if d.Arr? && i < |d.items| then Get(d.items[i], path[1..]) else None
  }

  /** The list with empty objects appended up to the given length. */
  function Pad(items: seq<Json>, n: nat): (r: seq<Json>)
    ensures |r| == if |items| < n then n else |items|
    ensures forall i :: 0 <= i < |r| ==> r[i] == if i < |items| then items[i] else Obj(map[])
  {
    if |items| < n then items + seq(n - |items|, _ => Obj(map[])) else items
  }

  /** What setdefault creates for a missing key: a list when the next cell is an item, else an object. */
  function Default(next: Cell): Json {
    if next.Pos? then Arr([]) else Obj(map[])
  }

  function Child(d: Json, cell: Cell, next: Cell): Json
    requires Fits(d, cell)
  {
    match cell
    case Name(k) => if k in d.fields then d.fields[k] else Default(next)
    case Pos(i) => Pad(d.items, i + 1)[i]
  }

  /** The document is of the kind the cell steps into. */
  predicate Fits(d: Json, cell: Cell) {
    if cell.Name? then d.Obj? else d.Arr?
  }

  function Put(d: Json, cell: Cell, child: Json): Json
    requires Fits(d, cell)
  {
    match cell
    case Name(k) => Obj(d.fields[k := child])
    case Pos(i) => Arr(Pad(d.items, i + 1)[i := child])
  }

  /** set_nested; None where it raises, which is where a step meets a value of another kind. */
  function Set(d: Json, path: seq<Cell>, v: Json): (r: Option<Json>)
    requires path != []
    ensures r.Some? ==> r.value.Obj? || r.value.Arr?
    decreases |path|
  {
    if !Fits(d, path[0]) then None
    else if |path| == 1 then Some(Put(d, path[0], v))
    else
      var nu := Set(Child(d, path[0], path[1]), path[1..], v);
      if nu.None? then None else Some(Put(d, path[0], nu.value))
  }

  // ---- laws ------------------------------------------------------------------------------------

  /** What was set is what is read. */
  lemma {:induction false} GetAfterSet(d: Json, path: seq<Cell>, v: Json)
    requires path != [] && Set(d, path, v).Some?
    ensures Get(Set(d, path, v).value, path) == Some(v)
    decreases |path|
  {
    if |path| > 1 { GetAfterSet(Child(d, path[0], path[1]), path[1..], v); }
  }

  /** Neither path is a prefix of the other. */
  predicate Unrelated(p: seq<Cell>, q: seq<Cell>) {
    p != [] && q != [] && (p[0] == q[0] ==> Unrelated(p[1..], q[1..]))
  }

  lemma {:induction false} UnrelatedIff(p: seq<Cell>, q: seq<Cell>)
    ensures Unrelated(p, q) <==> !(p <= q) && !(q <= p)
  {
    if p != [] && q != [] && p[0] == q[0] {
      UnrelatedIff(p[1..], q[1..]);
      assert p == [p[0]] + p[1..] && q == [q[0]] + q[1..];
    }
  }

  /** Everything off the path stays, and what appears there is the padding of a list along the path. */
  lemma {:induction false} Frame(d: Json, path: seq<Cell>, v: Json, q: seq<Cell>)
    requires path != [] && Set(d, path, v).Some? && Unrelated(path, q)
    ensures var now := Get(Set(d, path, v).value, q);
      && (Get(d, q).Some? ==> now == Get(d, q))
      && (Get(d, q).None? && now.Some? ==> now.value == Obj(map[]) && q[|q| - 1].Pos?)
    decreases |path|
  {
    var nu := Set(d, path, v).value;
    if path[0] == q[0] {
      Frame(Child(d, path[0], path[1]), path[1..], v, q[1..]);
      if path[0].Name? && path[0].key !in d.fields { NothingInDefault(path[1], q[1..]); }
      if path[0].Pos? && path[0].index >= |d.items| { NothingInDefault(Name(""), q[1..]); }
    } else if q[0].Pos? && path[0].Pos? && d.Arr? && |d.items| <= q[0].index < path[0].index {
      assert nu.items[q[0].index] == Obj(map[]);
      if |q| > 1 { NothingInDefault(Name(""), q[1..]); }
    }
  }

  lemma NothingInDefault(next: Cell, q: seq<Cell>)
    requires q != []
    ensures Get(Default(next), q).None?
  {
  }

  /** Neither path is a prefix of the other, and where they part both step into the same kind of value. */
  predicate Apart(p: seq<Cell>, q: seq<Cell>) {
    p != [] && q != [] && if p[0] == q[0] then Apart(p[1..], q[1..]) else p[0].Name? == q[0].Name?
  }

  /** Set twice; None if either raises. */
  function Twice(d: Json, p: seq<Cell>, v: Json, q: seq<Cell>, w: Json): Option<Json>
    requires p != [] && q != []
  {
    var first := Set(d, p, v);
    if first.None? then None else Set(first.value, q, w)
  }

  /** Two updates apart from each other commute, padding and created containers included, and whether
      one of them raises does not depend on the other. */
  lemma {:induction false} Commute(d: Json, p: seq<Cell>, v: Json, q: seq<Cell>, w: Json)
    requires Apart(p, q)
    ensures Twice(d, p, v, q, w) == Twice(d, q, w, p, v)
    ensures Set(d, p, v).Some? ==> (Set(Set(d, p, v).value, q, w).Some? <==> Set(d, q, w).Some?)
    decreases |p|, 1
  {
    if Fits(d, p[0]) {
      if p[0] == q[0] {
        CommuteBelow(d, p, v, q, w);
      } else {
        ApartHere(d, p[0], q[0]);
        CommuteHere(d, p, v, q, w);
      }
    }
  }

  /** Different children of one value do not see each other. */
  lemma ApartHere(d: Json, a: Cell, b: Cell)
    requires Fits(d, a) && a != b && a.Name? == b.Name?
    ensures forall x, next :: Child(Put(d, a, x), b, next) == Child(d, b, next)
    ensures forall x, y :: Put(Put(d, a, x), b, y) == Put(Put(d, b, y), a, x)
  {
    forall x, y ensures Put(Put(d, a, x), b, y) == Put(Put(d, b, y), a, x) {
      match a
      case Name(k) => assert d.fields[k := x][b.key := y] == d.fields[b.key := y][k := x];
      case Pos(i) => assert Put(Put(d, a, x), b, y).items == Put(Put(d, b, y), a, x).items;
    }
  }

  /** What is put at the first cell of the path. */
  function Below(d: Json, q: seq<Cell>, w: Json): Option<Json>
    requires q != [] && Fits(d, q[0])
  {
    if |q| == 1 then Some(w) else Set(Child(d, q[0], q[1]), q[1..], w)
  }

  /** Setting beside a child that was just put. */
  lemma SetBeside(d: Json, a: Cell, x: Json, q: seq<Cell>, w: Json)
    requires q != [] && Fits(d, a) && Fits(d, q[0])
    requires forall y, next :: Child(Put(d, a, y), q[0], next) == Child(d, q[0], next)
    ensures var y := Below(d, q, w);
      Set(Put(d, a, x), q, w) == if y.None? then None else Some(Put(Put(d, a, x), q[0], y.value))
  {
  }

  lemma CommuteHere(d: Json, p: seq<Cell>, v: Json, q: seq<Cell>, w: Json)
    requires Apart(p, q) && p[0] != q[0] && Fits(d, p[0])
    requires forall x, next :: Child(Put(d, p[0], x), q[0], next) == Child(d, q[0], next)
    requires forall x, next :: Child(Put(d, q[0], x), p[0], next) == Child(d, p[0], next)
    requires forall x, y :: Put(Put(d, p[0], x), q[0], y) == Put(Put(d, q[0], y), p[0], x)
    ensures Twice(d, p, v, q, w) == Twice(d, q, w, p, v)
    ensures Set(d, p, v).Some? ==> (Set(Set(d, p, v).value, q, w).Some? <==> Set(d, q, w).Some?)
  {
    var x, y := Below(d, p, v), Below(d, q, w);
    if x.Some? { SetBeside(d, p[0], x.value, q, w); }
    if y.Some? { SetBeside(d, q[0], y.value, p, v); }
    assert Set(d, p, v) == if x.None? then None else Some(Put(d, p[0], x.value));
    assert Set(d, q, w) == if y.None? then None else Some(Put(d, q[0], y.value));
    hide Set, Put, Child, Fits, Below, Apart;
  }

  lemma CommuteBelow(d: Json, p: seq<Cell>, v: Json, q: seq<Cell>, w: Json)
    requires Apart(p, q) && p[0] == q[0] && Fits(d, p[0])
    ensures Twice(d, p, v, q, w) == Twice(d, q, w, p, v)
    ensures Set(d, p, v).Some? ==> (Set(Set(d, p, v).value, q, w).Some? <==> Set(d, q, w).Some?)
    decreases |p|, 0
  {
    var child := Child(d, p[0], p[1]);
    assert p[1] == q[1] || p[1].Name? == q[1].Name?;
    assert child == Child(d, q[0], q[1]);
    Commute(child, p[1..], v, q[1..], w);
    var x, y := Set(child, p[1..], v), Set(child, q[1..], w);
    if x.Some? { SetThrough(d, x.value, q, w); }
    if y.Some? { SetThrough(d, y.value, p, v); }
    assert Set(d, p, v) == if x.None? then None else Some(Put(d, p[0], x.value));
    assert Set(d, q, w) == if y.None? then None else Some(Put(d, p[0], y.value));
    hide Set, Put, Child, Fits;
  }

  /** Setting below a child that was just put. */
  lemma SetThrough(d: Json, x: Json, q: seq<Cell>, w: Json)
    requires |q| > 1 && Fits(d, q[0])
    ensures var y := Set(x, q[1..], w);
      Set(Put(d, q[0], x), q, w) == if y.None? then None else Some(Put(d, q[0], y.value))
  {
    PutPut(d, q[0]);
    assert Child(Put(d, q[0], x), q[0], q[1]) == x;
  }

  /** A child that was put is the child, and putting again replaces it. */
  lemma PutPut(d: Json, a: Cell)
    requires Fits(d, a)
    ensures forall x, next :: Child(Put(d, a, x), a, next) == x
    ensures forall x, y :: Put(Put(d, a, x), a, y) == Put(d, a, y)
  {
    forall x, y ensures Put(Put(d, a, x), a, y) == Put(d, a, y) {
      match a
      case Name(k) => assert d.fields[k := x][k := y] == d.fields[k := y];
      case Pos(i) => assert Put(Put(d, a, x), a, y).items == Put(d, a, y).items;
    }
  }

  /** Two updates that each fit a document, neither path a prefix of the other, fit it together exactly when
      they are apart; otherwise whichever comes second raises. */
  lemma {:induction false} FitTogetherIff(d: Json, p: seq<Cell>, v: Json, q: seq<Cell>, w: Json)
    requires Unrelated(p, q) && Set(d, p, v).Some? && Set(d, q, w).Some?
    ensures Set(Set(d, p, v).value, q, w).Some? <==> Apart(p, q)
    decreases |p|
  {
    if p[0] == q[0] {
      var child := Child(d, p[0], p[1]);
      if p[1].Name? == q[1].Name? {
        assert child == Child(d, q[0], q[1]);
        FitTogetherIff(child, p[1..], v, q[1..], w);
        SetThrough(d, Set(child, p[1..], v).value, q, w);
      } else {
        SetThrough(d, Set(child, p[1..], v).value, q, w);
        assert Fits(Set(child, p[1..], v).value, p[1]);
      }
    } else {
      assert p[0].Name? == q[0].Name?;
      Commute(d, p, v, q, w);
    }
  }

  // ---- shared documents ------------------------------------------------------------------------

  /** The documents that are shared, by number. */
  type Templates = t: map<nat, Json> | forall id :: id in t ==> !t[id].Shared? witness map[]

  /** Every reference in the document leads to a template. */
  ghost predicate Closed(d: Json, t: Templates)
    decreases d
  {
    (d.Shared? ==> d.id in t) && forall c :: Has(d, c) ==> Closed(Part(d, c), t)
  }

  /** The document a path really leads into, its own (None) or the last template on the way, and the path there.
      `walked` is how far into the current document the path has come. */
  function Find(t: Templates, base: Option<nat>, d: Json, walked: seq<Cell>,
      path: seq<Cell>): (r: (Option<nat>, seq<Cell>))
    requires path != []
    ensures r.1 != []
    ensures r.0.Some? ==> r.0.value in t || r.0 == base
    ensures |r.1| <= |walked| + |path|
    decreases |path|, if d.Shared? then 1 else 0
  {
    if d.Shared? && d.id in t then Find(t, Some(d.id), t[d.id], [], path)
    else if |path| > 1 && Has(d, path[0]) then Find(t, base, Part(d, path[0]), walked + [path[0]], path[1..])
    else (base, walked + path)
  }

  /** The document with that base. */
  function BaseDoc(d: Json, t: Templates, base: Option<nat>): Json
    requires base.Some? ==> base.value in t
  {
    if base.None? then d else t[base.value]
  }

  /** No reference on the way, up to the last step. */
  predicate Clear(d: Json, path: seq<Cell>)
    decreases |path|
  {
    !d.Shared? && (|path| > 1 && Has(d, path[0]) ==> Clear(Part(d, path[0]), path[1..]))
  }

  /** On a clear way the path stays in its document. */
  lemma {:induction false} ClearStays(t: Templates, base: Option<nat>, d: Json, walked: seq<Cell>, path: seq<Cell>)
    requires path != [] && Clear(d, path)
    ensures Find(t, base, d, walked, path) == (base, walked + path)
    decreases |path|
  {
    if |path| > 1 && Has(d, path[0]) {
      ClearStays(t, base, Part(d, path[0]), walked + [path[0]], path[1..]);
      assert walked + [path[0]] + path[1..] == walked + path;
    }
  }

  lemma {:induction false} ClosedKeys(d: Json, t: Templates, u: Templates)
    requires Closed(d, t) && t.Keys <= u.Keys
    ensures Closed(d, u)
    decreases d
  {
    forall c | Has(d, c) ensures Closed(Part(d, c), u) { ClosedKeys(Part(d, c), t, u); }
  }

  lemma ClosedPut(d: Json, c: Cell, y: Json, t: Templates)
    requires Fits(d, c) && Closed(d, t) && Closed(y, t)
    ensures Closed(Put(d, c, y), t)
  {
    assert Closed(Obj(map[]), t);
    forall b | Has(Put(d, c, y), b) ensures Closed(Part(Put(d, c, y), b), t) {
      if b != c && !Has(d, b) { assert Part(Put(d, c, y), b) == Obj(map[]); }
    }
  }

  lemma {:induction false} ClosedSet(d: Json, path: seq<Cell>, w: Json, t: Templates)
    requires path != [] && Closed(d, t) && Closed(w, t) && Set(d, path, w).Some?
    ensures Closed(Set(d, path, w).value, t)
    decreases |path|
  {
    if |path| == 1 {
      ClosedPut(d, path[0], w, t);
    } else {
      var child := Child(d, path[0], path[1]);
      assert Closed(Obj(map[]), t) && Closed(Arr([]), t);
      if Has(d, path[0]) { assert child == Part(d, path[0]); }
      ClosedSet(child, path[1..], w, t);
      ClosedPut(d, path[0], Set(child, path[1..], w).value, t);
    }
  }
}
