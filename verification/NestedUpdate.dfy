/** set_nested as the patch builder runs it: a cursor walks down the document, creates what is missing, and
    assigns in place. */
module NestedUpdate {
  import opened Text
  import opened NestedSet
  import opened NestedStore

  /** An index is never last and never followed by an index. */
  predicate Alternates(path: seq<Cell>) {
    path != [] && path[|path| - 1].Name? && forall n :: 0 <= n < |path| - 1 && path[n].Pos? ==> path[n + 1].Name?
  }

  lemma {:induction false} ExpandAlternates(segments: seq<string>)
    requires segments != []
    ensures Alternates(Expand(segments)) && Expand(segments)[0].Name?
    decreases |segments|
  {
    if |segments| > 1 {
      ExpandAlternates(segments[1..]);
      hide Expand;
      assert Expand(segments) == Cells(segments[0]) + Expand(segments[1..]) by { ExpandMore(segments); }
    }
  }

  lemma ExpandMore(segments: seq<string>)
    requires |segments| > 1
    ensures Expand(segments) == Cells(segments[0]) + Expand(segments[1..])
  {
  }

  lemma AlternatesRest(path: seq<Cell>, n: nat)
    requires Alternates(path) && n < |path|
    ensures Alternates(path[n..])
  {
  }

  /** What setdefault creates always fits what comes next. */
  lemma {:induction false} FreshFits(path: seq<Cell>, w: Json)
    requires Alternates(path)
    ensures Set(Default(path[0]), path, w).Some?
    decreases |path|
  {
    if |path| > 1 {
      AlternatesRest(path, 1);
      FreshFits(path[1..], w);
      assert Child(Default(path[0]), path[0], path[1]) == Default(path[1]);
    }
  }

  lemma GrowSucceeds(x: Json, path: seq<Cell>, w: Json)
    requires Alternates(path) && |path| > 1 && Fits(x, path[0]) && !Has(x, path[0])
    ensures Set(x, path, w).Some?
  {
    AlternatesRest(path, 1);
    FreshFits(path[1..], w);
    assert Child(x, path[0], path[1]) == Default(path[1]);
  }

  /** Creating a missing key, or padding a list that is too short, does not change what is set in the end. */
  lemma GrowSame(x: Json, c: Cell, path: seq<Cell>, w: Json)
    requires |path| > 1 && Fits(x, path[0]) && !Has(x, path[0]) && Fits(x, c) && !Has(x, c)
    requires if c.Name? then c == path[0] else c.index == |x.items| <= path[0].index
    ensures Set(Put(x, c, Default(if c.Name? then path[1] else Name(""))), path, w) == Set(x, path, w)
  {
    var grown := Put(x, c, Default(if c.Name? then path[1] else Name("")));
    if c.Name? {
      PutPut(x, c);
    } else {
      assert grown.items == x.items + [Obj(map[])];
      assert Pad(grown.items, path[0].index + 1) == Pad(x.items, path[0].index + 1);
      assert Child(grown, path[0], path[1]) == Child(x, path[0], path[1]);
    }
  }

  lemma {:induction false} GetAppend(d: Json, p: seq<Cell>, c: Cell)
    requires Get(d, p).Some? && Has(Get(d, p).value, c)
    ensures Get(d, p + [c]) == Some(Part(Get(d, p).value, c))
    decreases |p|
  {
    if p == [] {
      assert p + [c] == [c];
    } else {
      assert (p + [c])[1..] == p[1..] + [c];
      GetAppend(Part(d, p[0]), p[1..], c);
    }
  }

  lemma {:induction false} WalkAppend(nodes: seq<Node>, item: Item, p: seq<Cell>, c: Cell)
    requires Walk(nodes, item, p).Some?
    requires var cur := Walk(nodes, item, p).value; cur.Ref? && cur.id < |nodes| && Holds(nodes[cur.id], c)
    ensures Walk(nodes, item, p + [c]) == Some(Held(nodes[Walk(nodes, item, p).value.id], c))
    decreases |p|
  {
    if p == [] {
      assert p + [c] == [c];
    } else {
      assert (p + [c])[1..] == p[1..] + [c];
      WalkAppend(nodes, Held(nodes[item.id], p[0]), p[1..], c);
    }
  }

  /** A part that was there is where the cursor is now; one that was not is empty. */
  ghost predicate Stepped(was: seq<Node>, nodes: seq<Node>, d: Json, e: Json, p: seq<Cell>, rest: seq<Cell>)
    requires Get(d, p).Some? && |rest| > 1
  {
    if Has(Get(d, p).value, rest[0]) then
      nodes == was && e == d && Get(e, p + [rest[0]]) == Some(Part(Get(d, p).value, rest[0]))
    else Get(e, p + [rest[0]]) == Some(Default(rest[1]))
  }

  /** An empty object or list. */
  predicate Blank(node: Node, d: Json) {
    (node == Dict(map[]) && d == Obj(map[])) || (node == List([]) && d == Arr([]))
  }

  class Documents {
    var nodes: seq<Node>

    constructor (nodes: seq<Node>)
      ensures this.nodes == nodes
    {
      this.nodes := nodes;
    }

    /** The item stands for the document, and shares none of its nodes within it. */
    ghost predicate Stands(item: Item, d: Json)
      reads this
    {
      Models(nodes, item, d) && Tree(nodes, item, d)
    }

    /** The cursor is where the path leads. */
    ghost predicate Cursor(root: Item, d: Json, p: seq<Cell>, cur: Item)
      reads this
    {
      && Stands(root, d) && Get(d, p).Some? && Walk(nodes, root, p) == Some(cur)
      && Models(nodes, cur, Get(d, p).value)
    }

    /** Adds a new empty object or list at `c` of the cursor's node. */
    method Grow(ghost root: Item, ghost d: Json, ghost p: seq<Cell>, cur: Item, c: Cell, blank: Node, ghost y: Json)
      returns (item: Item, ghost e: Json)
      requires Cursor(root, d, p, cur) && cur.Ref? && Fits(Get(d, p).value, c) && !Has(Get(d, p).value, c)
        && Blank(blank, y)
      requires c.Pos? ==> c.index == |Get(d, p).value.items|
      modifies this
      ensures e == Replace(d, p, Put(Get(d, p).value, c, y)) && Cursor(root, e, p, cur)
      ensures Get(e, p).value == Put(Get(d, p).value, c, y)
      ensures |nodes| == |old(nodes)| + 1
      ensures cur.id < |nodes| && Holds(nodes[cur.id], c) && Held(nodes[cur.id], c) == item
      ensures forall j: nat :: j < |old(nodes)| && !Uses(old(nodes), root, d, j) ==> nodes[j] == old(nodes)[j]
      ensures forall j: nat :: Uses(nodes, root, e, j) ==> Uses(old(nodes), root, d, j) || j == |old(nodes)|
    {
      item := Ref(|nodes|);
      ghost var was := nodes;
      GrowFits(was, root, d, p, cur, c);
      PutItemParts(was[cur.id], c, item);
      nodes := nodes[cur.id := PutItem(nodes[cur.id], c, item)] + [blank];
      e := Replace(d, p, Put(Get(d, p).value, c, y));
      GrowWrites(was, nodes, root, d, p, cur, c, blank, y);
      hide Models, Tree, Uses, Put, Fits, Has, PutItem, Replace, Walk, Holds, Held;
    }

    /** A key of the path: setdefault of an empty object, or of an empty list when an index follows. */
    method StepKey(ghost root: Item, ghost d: Json, ghost p: seq<Cell>, cur: Item, rest: seq<Cell>, ghost w: Json)
      returns (ok: bool, item: Item, ghost e: Json)
      requires Cursor(root, d, p, cur) && |rest| > 1 && rest[0].Name? && Alternates(rest)
      requires !Get(d, p).value.Shared?
      modifies this
      ensures ok <==> Fits(Get(d, p).value, rest[0])
      ensures !ok ==> nodes == old(nodes)
      ensures ok ==> Cursor(root, e, p + [rest[0]], item) && Evolves(old(nodes), nodes, root, d, e)
      ensures ok ==> Goal(old(nodes), nodes, d, e, p + rest, w)
      ensures ok ==> Stepped(old(nodes), nodes, d, e, p, rest)
    {
      KindKnown(nodes, cur, Get(d, p).value, rest[0]);
      ok, item, e := cur.Ref? && nodes[cur.id].Dict?, cur, d;
      if !ok {
        return;
      }
      if rest[0].key in nodes[cur.id].fields {
        item := nodes[cur.id].fields[rest[0].key];
        StepDown(nodes, root, d, p, cur, rest[0]);
      } else {
        MissingPart(nodes, cur, Get(d, p).value, rest[0]);
        GrownGoal(d, p, rest[0], rest, w);
        item, e := Grow(root, d, p, cur, rest[0], if rest[1].Pos? then List([]) else Dict(map[]), Default(rest[1]));
        PutHas(Get(d, p).value, rest[0], Default(rest[1]));
        StepDown(nodes, root, e, p, cur, rest[0]);
      }
    }

    /** An index of the path: the list is padded with empty objects up to it. */
    method StepIndex(ghost root: Item, ghost d: Json, ghost p: seq<Cell>, cur: Item, rest: seq<Cell>, ghost w: Json)
      returns (ok: bool, item: Item, ghost e: Json)
      requires Cursor(root, d, p, cur) && |rest| > 1 && rest[0].Pos? && Alternates(rest)
      requires !Get(d, p).value.Shared?
      modifies this
      ensures ok <==> Fits(Get(d, p).value, rest[0])
      ensures !ok ==> nodes == old(nodes)
      ensures ok ==> Cursor(root, e, p + [rest[0]], item) && Evolves(old(nodes), nodes, root, d, e)
      ensures ok ==> Goal(old(nodes), nodes, d, e, p + rest, w)
      ensures ok ==> Stepped(old(nodes), nodes, d, e, p, rest)
    {
      KindKnown(nodes, cur, Get(d, p).value, rest[0]);
      ok, item, e := cur.Ref? && nodes[cur.id].List?, cur, d;
      if !ok {
        return;
      }
      var i := rest[0].index;
      SameLength(nodes, cur, Get(d, p).value);
      StartsThere(nodes, root, d, p + rest, w);
      hide Models, Tree, Uses, Put, Has, Replace, Walk, Get, Set, Alternates, Goal, Evolves;
      while |nodes[cur.id].items| <= i
        invariant Cursor(root, e, p, cur) && Get(e, p).value.Arr? && cur.id < |nodes| && nodes[cur.id].List?
        invariant |Get(e, p).value.items| == |nodes[cur.id].items| && Padded(Get(d, p).value, Get(e, p).value)
        invariant i < |Get(d, p).value.items| ==> nodes == old(nodes) && e == d
        invariant |nodes[cur.id].items| <= i + 1 || nodes == old(nodes)
        invariant Evolves(old(nodes), nodes, root, d, e) && Goal(old(nodes), nodes, d, e, p + rest, w)
        decreases i + 1 - |nodes[cur.id].items|
      {
        e := PadOnce(root, d, old(nodes), e, p, cur, rest, w);
      }
      item := nodes[cur.id].items[i];
      IndexHas(Get(e, p).value, i);
      StepDown(nodes, root, e, p, cur, rest[0]);
      IndexStepped(old(nodes), nodes, d, e, p, rest);
    }

    /** One empty object is appended. */
    method PadOnce(ghost root: Item, ghost d: Json, ghost was: seq<Node>, ghost given: Json, ghost p: seq<Cell>,
        cur: Item, rest: seq<Cell>, ghost w: Json)
      returns (ghost e: Json)
      requires Cursor(root, given, p, cur) && |rest| > 1 && rest[0].Pos? && Alternates(rest)
      requires Get(given, p).value.Arr? && cur.Ref? && cur.id < |nodes| && nodes[cur.id].List?
      requires |Get(given, p).value.items| == |nodes[cur.id].items| <= rest[0].index
      requires Evolves(was, nodes, root, d, given) && Goal(was, nodes, d, given, p + rest, w)
      modifies this
      ensures Cursor(root, e, p, cur) && Get(e, p).value.Arr? && cur.id < |nodes| && nodes[cur.id].List?
      ensures |Get(e, p).value.items| == |nodes[cur.id].items| == |old(nodes)[cur.id].items| + 1
      ensures Get(e, p).value.items == Get(given, p).value.items + [Obj(map[])]
      ensures Evolves(was, nodes, root, d, e) && Goal(was, nodes, d, e, p + rest, w)
    {
      ghost var c := Pos(|nodes[cur.id].items|);
      PadGoal(given, p, c, rest, w);
      ghost var before := nodes;
      var item;
      item, e := Grow(root, given, p, cur, Pos(|nodes[cur.id].items|), Dict(map[]), Obj(map[]));
      PadLength(Get(given, p).value, c);
      SameLength(nodes, cur, Get(e, p).value);
      EvolvesOn(was, before, nodes, root, d, given, e);
    }

    /** One cell of the path. */
    method StepInto(ghost root: Item, ghost d: Json, ghost p: seq<Cell>, cur: Item, rest: seq<Cell>, ghost w: Json)
      returns (ok: bool, item: Item, ghost e: Json)
      requires Cursor(root, d, p, cur) && |rest| > 1 && Alternates(rest) && !Get(d, p).value.Shared?
      modifies this
      ensures ok <==> Fits(Get(d, p).value, rest[0])
      ensures !ok ==> nodes == old(nodes)
      ensures ok ==> Cursor(root, e, p + [rest[0]], item) && Evolves(old(nodes), nodes, root, d, e)
      ensures ok ==> Goal(old(nodes), nodes, d, e, p + rest, w)
      ensures ok ==> Stepped(old(nodes), nodes, d, e, p, rest)
    {
      hide Models, Tree, Uses, Put, Has, Replace, Walk, Get, Set, Evolves, Goal, Alternates, Fits;
      if rest[0].Name? {
        ok, item, e := StepKey(root, d, p, cur, rest, w);
      } else {
        ok, item, e := StepIndex(root, d, p, cur, rest, w);
      }
    }

    /** The assignment of the last key. */
    method AssignLast(ghost root: Item, ghost e: Json, ghost p: seq<Cell>, cur: Item, c: Cell, v: Item, ghost w: Json,
        ghost d: Json, ghost was: seq<Node>)
      returns (ok: bool)
      requires Cursor(root, e, p, cur) && c.Name? && !Get(e, p).value.Shared?
      requires Evolves(was, nodes, root, d, e) && Goal(was, nodes, d, e, p + [c], w)
      requires Models(was, v, w) && Tree(was, v, w) && forall j: nat :: Uses(was, v, w, j) ==> !Uses(was, root, d, j)
      modifies this
      ensures ok <==> Set(d, p + [c], w).Some?
      ensures !ok ==> nodes == was
      ensures ok ==> Written(was, nodes, root, d, Set(d, p + [c], w).value, v, w)
    {
      KindKnown(nodes, cur, Get(e, p).value, c);
      LastSet(e, p, c, w);
      if cur.Plain? || nodes[cur.id].List? {
        return false;
      }
      ghost var before := nodes;
      nodes := nodes[cur.id := Dict(nodes[cur.id].fields[c.key := v])];
      LastWrites(was, before, nodes, root, d, e, p, cur, c, v, w);
      ok := true;
    }

    /** One more step of the walk. */
    method StepOn(ghost was: seq<Node>, ghost root: Item, ghost d: Json, ghost t: Templates, path: seq<Cell>, n: nat,
        ghost at: Place, cur: Item, ghost w: Json)
      returns (ok: bool, next: Item, ghost on: Place)
      requires n < |path| - 1 && OnPath(was, nodes, root, d, t, path, n, at, cur, w)
        && !Get(at.e, at.walked).value.Shared?
      modifies this
      ensures !ok ==> nodes == was && Fails(t, d, path, w)
      ensures ok ==> OnPath(was, nodes, root, d, t, path, n + 1, on, next, w)
    {
      ghost var before, base := nodes, BaseItem(root, at.base);
      ghost var e;
      AlternatesRest(path, n);
      hide Models, Tree, Uses, Get, Set, Closed, Find, Evolves, Goal, Stepped, Clear, Fits, Alternates;
      ok, next, e := StepInto(base, at.e, at.walked, cur, path[n..], w);
      on := Place(at.base, e, at.walked + [path[n]]);
      if ok {
        PathStep(was, before, nodes, root, d, t, path, n, at, on, cur, next, w);
      } else {
        PathFails(was, before, root, d, t, path, n, at, cur, w);
      }
    }

    /** set_nested on the node `root`; false where it raises, and then nothing has changed. The document that is
        written is the one the path really leads into: the root's own, or a template it refers to. */
    method SetNested(root: Item, path: seq<Cell>, v: Item, ghost d: Json, ghost t: Templates, ghost w: Json)
        returns (ok: bool)
      requires Stands(root, d) && Alternates(path) && Closed(d, t) && Provided(nodes, t)
      requires Models(nodes, v, w) && Tree(nodes, v, w) && ApartFrom(nodes, v, w, root, d, t)
      modifies this
      ensures var (base, rest) := Find(t, None, d, [], path); var doc := BaseDoc(d, t, base);
        && (ok <==> Set(doc, rest, w).Some?)
        && (!ok ==> nodes == old(nodes))
        && (ok ==> Written(old(nodes), nodes, BaseItem(root, base), doc, Set(doc, rest, w).value, v, w))
    {
      ghost var was := nodes;
      var cur := root;
      ghost var at := Place(None, d, []);
      var n := 0;
      hide Models, Tree, Uses, Get, Set, OnPath, Closed, Find, Provided, ApartFrom, Evolves, Goal, Walk;
      StartsOn(nodes, root, d, t, path, w);
      while n < |path| - 1
        invariant n <= |path| - 1 && OnPath(was, nodes, root, d, t, path, n, at, cur, w)
      {
        Rebase(was, nodes, root, d, t, path, n, at, cur, w);
        at := Rebased(t, at);
        var rest := path[n..];
        ok, cur, at := StepOn(was, root, d, t, path, n, at, cur, w);
        if !ok {
          return;
        }
        n := n + 1;
      }
      Rebase(was, nodes, root, d, t, path, n, at, cur, w);
      at := Rebased(t, at);
      LastPlace(was, nodes, root, d, t, path, n, at, cur, v, w);
      ok := AssignLast(BaseItem(root, at.base), at.e, at.walked, cur, path[n], v, w, BaseDoc(d, t, at.base), was);
    }
  }

  /** Where the walk is: the document it is in, what that has become, and how far the walk has come in it. */
  datatype Place = Place(base: Option<nat>, e: Json, walked: seq<Cell>)

  function BaseItem(root: Item, base: Option<nat>): Item {
    if base.None? then root else Ref(base.value)
  }

  /** The templates stand in the store. */
  ghost predicate Provided(nodes: seq<Node>, t: Templates) {
    forall id :: id in t ==> Models(nodes, Ref(id), t[id]) && Tree(nodes, Ref(id), t[id]) && Closed(t[id], t)
  }

  /** The value was built apart from every document that could be written. */
  ghost predicate ApartFrom(nodes: seq<Node>, v: Item, w: Json, root: Item, d: Json, t: Templates)
    requires Models(nodes, v, w) && Models(nodes, root, d) && Provided(nodes, t)
  {
    && (forall j: nat :: Uses(nodes, v, w, j) ==> !Uses(nodes, root, d, j))
    && (forall id, j: nat :: id in t && Uses(nodes, v, w, j) ==> !Uses(nodes, Ref(id), t[id], j))
  }

  /** The item stands for `e` now; nothing outside it changed, and it took only new nodes and those of the value. */
  ghost predicate Written(was: seq<Node>, nodes: seq<Node>, item: Item, d: Json, e: Json, v: Item, w: Json) {
    && Models(was, item, d) && Models(was, v, w) && |was| <= |nodes| && Models(nodes, item, e) && Tree(nodes, item, e)
    && (forall j: nat :: j < |was| && !Uses(was, item, d, j) ==> nodes[j] == was[j])
    && (forall j: nat :: Uses(nodes, item, e, j) ==> Uses(was, item, d, j) || j >= |was| || Uses(was, v, w, j))
  }

  /** Setting raises in the document the path leads into. */
  ghost predicate Fails(t: Templates, d: Json, path: seq<Cell>, w: Json)
    requires path != []
  {
    var (base, rest) := Find(t, None, d, [], path);
    Set(BaseDoc(d, t, base), rest, w).None?
  }

  /** The walk so far: either nothing was created, or everything from here on was. */
  ghost predicate OnPath(was: seq<Node>, nodes: seq<Node>, root: Item, d: Json, t: Templates, path: seq<Cell>, n: nat,
      at: Place, cur: Item, w: Json)
  {
    && n < |path| && Alternates(path) && (at.base.Some? ==> at.base.value in t) && Provided(was, t)
    && var item, doc := BaseItem(root, at.base), BaseDoc(d, t, at.base);
    && Models(nodes, item, at.e) && Tree(nodes, item, at.e) && Get(at.e, at.walked).Some?
    && Walk(nodes, item, at.walked) == Some(cur) && Models(nodes, cur, Get(at.e, at.walked).value)
    && Evolves(was, nodes, item, doc, at.e) && Goal(was, nodes, doc, at.e, at.walked + path[n..], w)
    && Closed(Get(at.e, at.walked).value, t) && Ahead(was, nodes, d, t, path, n, at)
  }

  ghost predicate Ahead(was: seq<Node>, nodes: seq<Node>, d: Json, t: Templates, path: seq<Cell>, n: nat, at: Place)
    requires n < |path| && (at.base.Some? ==> at.base.value in t) && Get(at.e, at.walked).Some?
  {
    var x := Get(at.e, at.walked).value;
    || (nodes == was && at.e == BaseDoc(d, t, at.base)
        && Find(t, None, d, [], path) == Find(t, at.base, x, at.walked, path[n..]))
    || (Clear(x, path[n..]) && Find(t, None, d, [], path) == (at.base, at.walked + path[n..]))
  }

  /** At a reference the walk goes on in the template. */
  function Rebased(t: Templates, at: Place): Place {
    var x := Get(at.e, at.walked);
    if x.Some? && x.value.Shared? && x.value.id in t then Place(Some(x.value.id), t[x.value.id], []) else at
  }

  lemma StartsOn(nodes: seq<Node>, root: Item, d: Json, t: Templates, path: seq<Cell>, w: Json)
    requires Models(nodes, root, d) && Tree(nodes, root, d) && Alternates(path) && Closed(d, t) && Provided(nodes, t)
    ensures OnPath(nodes, nodes, root, d, t, path, 0, Place(None, d, []), root, w)
  {
    StartsHere(nodes, root, d, path, w);
    assert [] + path[0..] == path && path[0..] == path;
  }

  lemma Rebase(was: seq<Node>, nodes: seq<Node>, root: Item, d: Json, t: Templates, path: seq<Cell>, n: nat,
      at: Place, cur: Item, w: Json)
    requires OnPath(was, nodes, root, d, t, path, n, at, cur, w)
    ensures var on := Rebased(t, at);
      OnPath(was, nodes, root, d, t, path, n, on, cur, w) && !Get(on.e, on.walked).value.Shared?
  {
    var x := Get(at.e, at.walked).value;
    if x.Shared? {
      AtReference(was, nodes, root, d, t, path, n, at, cur, w);
      StartsHere(nodes, Ref(x.id), t[x.id], path[n..], w);
      assert [] + path[n..] == path[n..];
      hide Models, Tree, Evolves, Goal, Closed, Find;
    }
  }

  lemma AtReference(was: seq<Node>, nodes: seq<Node>, root: Item, d: Json, t: Templates, path: seq<Cell>, n: nat,
      at: Place, cur: Item, w: Json)
    requires OnPath(was, nodes, root, d, t, path, n, at, cur, w) && Get(at.e, at.walked).value.Shared?
    ensures var id := Get(at.e, at.walked).value.id;
      && id in t && cur == Ref(id) && nodes == was && Models(nodes, Ref(id), t[id]) && Tree(nodes, Ref(id), t[id])
      && Closed(t[id], t) && Find(t, None, d, [], path) == Find(t, Some(id), t[id], [], path[n..])
  {
  }

  /** A step of the walk, in its document. */
  lemma PathStep(was: seq<Node>, before: seq<Node>, nodes: seq<Node>, root: Item, d: Json, t: Templates,
      path: seq<Cell>, n: nat, at: Place, on: Place, cur: Item, next: Item, w: Json)
    requires n < |path| - 1 && OnPath(was, before, root, d, t, path, n, at, cur, w)
      && !Get(at.e, at.walked).value.Shared?
    requires on == Place(at.base, on.e, at.walked + [path[n]])
    requires var item := BaseItem(root, at.base);
      && Models(nodes, item, on.e) && Tree(nodes, item, on.e) && Get(on.e, on.walked).Some?
      && Walk(nodes, item, on.walked) == Some(next) && Models(nodes, next, Get(on.e, on.walked).value)
      && Evolves(before, nodes, item, at.e, on.e) && Goal(before, nodes, at.e, on.e, at.walked + path[n..], w)
      && Stepped(before, nodes, at.e, on.e, at.walked, path[n..])
    ensures OnPath(was, nodes, root, d, t, path, n + 1, on, next, w)
  {
    hide Models, Tree, Walk, Get, Evolves, Goal, Closed, Ahead, Find, Set, Provided, Stepped;
    var item, doc := BaseItem(root, at.base), BaseDoc(d, t, at.base);
    EvolvesOn(was, before, nodes, item, doc, at.e, on.e);
    GoalOn(was, before, nodes, doc, at.e, on.e, at.walked + path[n..], w);
    assert on.walked + path[n + 1..] == at.walked + path[n..];
    StepAhead(was, before, nodes, d, t, path, n, at, on);
  }

  lemma StepAhead(was: seq<Node>, before: seq<Node>, nodes: seq<Node>, d: Json, t: Templates, path: seq<Cell>, n: nat,
      at: Place, on: Place)
    requires n < |path| - 1 && (at.base.Some? ==> at.base.value in t) && Get(at.e, at.walked).Some?
    requires Ahead(was, before, d, t, path, n, at) && !Get(at.e, at.walked).value.Shared?
    requires Closed(Get(at.e, at.walked).value, t)
    requires on == Place(at.base, on.e, at.walked + [path[n]]) && Get(on.e, on.walked).Some?
    requires Stepped(before, nodes, at.e, on.e, at.walked, path[n..])
    ensures Ahead(was, nodes, d, t, path, n + 1, on) && Closed(Get(on.e, on.walked).value, t)
  {
    var x, rest := Get(at.e, at.walked).value, path[n..];
    assert rest[1..] == path[n + 1..] && on.walked + path[n + 1..] == at.walked + rest;
    hide Get;
    if Has(x, rest[0]) {
      assert Find(t, at.base, x, at.walked, rest) == Find(t, at.base, Part(x, rest[0]), on.walked, rest[1..]);
    } else {
      assert Find(t, at.base, x, at.walked, rest) == (at.base, at.walked + rest);
    }
  }

  /** Where the walk cannot go on, nothing was created and setting raises. */
  lemma PathFails(was: seq<Node>, nodes: seq<Node>, root: Item, d: Json, t: Templates, path: seq<Cell>, n: nat,
      at: Place, cur: Item, w: Json)
    requires n < |path| - 1 && OnPath(was, nodes, root, d, t, path, n, at, cur, w)
    requires !Get(at.e, at.walked).value.Shared? && !Fits(Get(at.e, at.walked).value, path[n])
    ensures nodes == was && Fails(t, d, path, w)
  {
    var x, rest := Get(at.e, at.walked).value, path[n..];
    SetBelow(at.e, at.walked, rest, w);
    assert !Has(x, rest[0]);
    GoalFails(was, nodes, BaseItem(root, at.base), BaseDoc(d, t, at.base), at.e, at.walked + rest, w);
    ClearStays(t, at.base, x, at.walked, rest);
    hide Models, Tree, Uses, Get, Set, Closed;
  }

  /** At the last step the walk is in the document the path leads into. */
  lemma LastPlace(was: seq<Node>, nodes: seq<Node>, root: Item, d: Json, t: Templates, path: seq<Cell>, n: nat,
      at: Place, cur: Item, v: Item, w: Json)
    requires n == |path| - 1 && OnPath(was, nodes, root, d, t, path, n, at, cur, w)
      && !Get(at.e, at.walked).value.Shared?
    requires Models(was, root, d) && Models(was, v, w) && ApartFrom(was, v, w, root, d, t)
    ensures path[n].Name? && path[n..] == [path[n]]
    ensures var item, doc := BaseItem(root, at.base), BaseDoc(d, t, at.base);
      && Models(nodes, item, at.e) && Tree(nodes, item, at.e) && Get(at.e, at.walked).Some?
      && Walk(nodes, item, at.walked) == Some(cur) && Models(nodes, cur, Get(at.e, at.walked).value)
      && Evolves(was, nodes, item, doc, at.e) && Goal(was, nodes, doc, at.e, at.walked + [path[n]], w)
    ensures Find(t, None, d, [], path) == (at.base, at.walked + [path[n]])
    ensures forall j: nat :: Uses(was, v, w, j) ==> !Uses(was, BaseItem(root, at.base), BaseDoc(d, t, at.base), j)
  {
    assert path[n..] == [path[n]];
    ClearStays(t, at.base, Get(at.e, at.walked).value, at.walked, path[n..]);
  }

  /** From one store to the next only nodes of the document changed, and it took only new ones. */
  ghost predicate Evolves(was: seq<Node>, nodes: seq<Node>, root: Item, d: Json, e: Json) {
    && Models(was, root, d) && Models(nodes, root, e) && |was| <= |nodes|
    && (forall j: nat :: j < |was| && !Uses(was, root, d, j) ==> nodes[j] == was[j])
    && (forall j: nat :: Uses(nodes, root, e, j) ==> Uses(was, root, d, j) || j >= |was|)
  }

  /** What will be set is the same, and whatever was created will not have been created for nothing. */
  ghost predicate Goal(was: seq<Node>, nodes: seq<Node>, d: Json, e: Json, path: seq<Cell>, w: Json) {
    path != [] && Set(e, path, w) == Set(d, path, w) && ((nodes == was && e == d) || Set(d, path, w).Some?)
  }

  /** The cursor's node is of the document's kind. */
  lemma KindKnown(nodes: seq<Node>, cur: Item, x: Json, c: Cell)
    requires Models(nodes, cur, x) && !x.Shared?
    ensures cur.Ref? ==> cur.id < |nodes|
    ensures Fits(x, c) <==> cur.Ref? && if c.Name? then nodes[cur.id].Dict? else nodes[cur.id].List?
  {
  }

  lemma MissingPart(nodes: seq<Node>, cur: Item, x: Json, c: Cell)
    requires Models(nodes, cur, x) && cur.Ref? && !Holds(nodes[cur.id], c)
    ensures !Has(x, c)
  {
  }

  lemma PutHas(x: Json, c: Cell, y: Json)
    requires Fits(x, c)
    ensures Has(Put(x, c, y), c) && Part(Put(x, c, y), c) == y
  {
  }

  /** Stepping into a part that exists. */
  lemma StepDown(nodes: seq<Node>, root: Item, e: Json, p: seq<Cell>, cur: Item, c: Cell)
    requires Models(nodes, root, e) && Get(e, p).Some? && Walk(nodes, root, p) == Some(cur)
      && Models(nodes, cur, Get(e, p).value)
    requires Has(Get(e, p).value, c)
    ensures Get(e, p + [c]) == Some(Part(Get(e, p).value, c)) && Holds(nodes[cur.id], c)
      && Walk(nodes, root, p + [c]) == Some(Held(nodes[cur.id], c))
    ensures Models(nodes, Held(nodes[cur.id], c), Get(e, p + [c]).value)
  {
    GetAppend(e, p, c);
    assert Holds(nodes[cur.id], c);
    WalkAppend(nodes, root, p, c);
  }

  lemma GrownGoal(d: Json, p: seq<Cell>, c: Cell, rest: seq<Cell>, w: Json)
    requires Get(d, p).Some? && |rest| > 1 && Alternates(rest)
    requires var x := Get(d, p).value;
      && Fits(x, c) && !Has(x, c) && Fits(x, rest[0]) && !Has(x, rest[0])
      && if c.Name? then c == rest[0] else c.index == |x.items| <= rest[0].index
    ensures var e := Replace(d, p, Put(Get(d, p).value, c, Default(if c.Name? then rest[1] else Name(""))));
      Set(e, p + rest, w) == Set(d, p + rest, w) && Set(d, p + rest, w).Some?
  {
    var x := Get(d, p).value;
    GrowSame(x, c, rest, w);
    GrowSucceeds(x, rest, w);
    SetThroughReplace(d, p, Put(x, c, Default(if c.Name? then rest[1] else Name(""))), rest, w);
    SetBelow(d, p, rest, w);
  }

  lemma GrowFits(nodes: seq<Node>, root: Item, d: Json, p: seq<Cell>, cur: Item, c: Cell)
    requires Get(d, p).Some? && Models(nodes, cur, Get(d, p).value) && Fits(Get(d, p).value, c)
    requires c.Pos? ==> c.index == |Get(d, p).value.items|
    ensures cur.Ref? && cur.id < |nodes|
    ensures if c.Name? then nodes[cur.id].Dict? else nodes[cur.id].List? && c.index == |nodes[cur.id].items|
  {
    if c.Pos? { SameLength(nodes, cur, Get(d, p).value); }
  }

  lemma GrowWrites(was: seq<Node>, nodes: seq<Node>, root: Item, d: Json, p: seq<Cell>, cur: Item, c: Cell,
      blank: Node, y: Json)
    requires Models(was, root, d) && Tree(was, root, d) && Get(d, p).Some? && Walk(was, root, p) == Some(cur)
    requires Models(was, cur, Get(d, p).value) && Fits(Get(d, p).value, c) && !Has(Get(d, p).value, c)
      && Blank(blank, y)
    requires cur.Ref? && cur.id < |was| && (c.Pos? ==> c.index == |Get(d, p).value.items|)
    requires if c.Name? then was[cur.id].Dict? else was[cur.id].List? && c.index == |was[cur.id].items|
    requires nodes == was[cur.id := PutItem(was[cur.id], c, Ref(|was|))] + [blank]
    ensures var x := Put(Get(d, p).value, c, y); var e := Replace(d, p, x);
      && Models(nodes, root, e) && Tree(nodes, root, e) && Get(e, p) == Some(x) && Walk(nodes, root, p) == Some(cur)
      && Models(nodes, cur, x)
      && (forall j: nat :: Uses(nodes, root, e, j) ==> Uses(was, root, d, j) || j == |was|)
      && (forall j: nat :: j < |was| && !Uses(was, root, d, j) ==> nodes[j] == was[j])
  {
    var x, item := Get(d, p).value, Ref(|was|);
    WalkModels(was, root, d, p);
    NewUnused(was, root, d);
    assert Uses(was, root, d, cur.id) by { assert Uses(was, cur, x, cur.id); }
    BlankModels(nodes, item, blank, y);
    hide Models, Tree, Uses, Put, Fits, Has, PutItem, Replace, Walk, Blank, Get;
    PutAssigns(was, nodes, cur, x, c, item, y);
    WriteAt(was, nodes, root, d, p, cur, c, item, y, Put(x, c, y));
    ReplaceLaws(d, p, Put(x, c, y));
  }

  lemma BlankModels(nodes: seq<Node>, item: Item, blank: Node, y: Json)
    requires Blank(blank, y) && item.Ref? && item.id < |nodes| && nodes[item.id] == blank
    ensures Models(nodes, item, y) && Tree(nodes, item, y) && forall j: nat :: Uses(nodes, item, y, j) ==> j == item.id
  {
  }

  lemma NewUnused(nodes: seq<Node>, item: Item, d: Json)
    requires Models(nodes, item, d)
    ensures !Uses(nodes, item, d, |nodes|)
  {
    if Uses(nodes, item, d, |nodes|) { UsesExist(nodes, item, d, |nodes|); }
  }

  /** The node with an item at a key, or behind its last item. */
  function PutItem(node: Node, c: Cell, item: Item): Node
    requires if c.Name? then node.Dict? else node.List? && c.index == |node.items|
  {
    if c.Name? then Dict(node.fields[c.key := item]) else List(node.items + [item])
  }

  lemma PutItemParts(node: Node, c: Cell, item: Item)
    requires if c.Name? then node.Dict? else node.List? && c.index == |node.items|
    ensures var nu := PutItem(node, c, item);
      && nu.Dict? == node.Dict? && (forall b :: Holds(nu, b) <==> Holds(node, b) || b == c)
      && (forall b :: Holds(nu, b) ==> Held(nu, b) == if b == c then item else Held(node, b))
  {
  }

  lemma PutNewParts(x: Json, c: Cell, y: Json)
    requires Fits(x, c) && (c.Pos? ==> c.index == |x.items|)
    ensures var e := Put(x, c, y);
      && e.Obj? == x.Obj? && e.Arr? == x.Arr? && (forall b :: Has(e, b) <==> Has(x, b) || b == c)
      && (forall b :: Has(e, b) ==> Part(e, b) == if b == c then y else Part(x, b))
  {
  }

  /** Putting an item that stands for `y`, and that shares no node with `x`, puts `y`. */
  lemma PutAssigns(was: seq<Node>, nodes: seq<Node>, cur: Item, x: Json, c: Cell, item: Item, y: Json)
    requires Models(was, cur, x) && Fits(x, c) && (c.Pos? ==> c.index == |x.items| == |was[cur.id].items|)
    requires |was| <= |nodes| && nodes[cur.id] == PutItem(was[cur.id], c, item)
    requires forall j :: 0 <= j < |was| && j != cur.id ==> nodes[j] == was[j]
    requires Models(nodes, item, y) && Tree(nodes, item, y)
      && (forall j: nat :: Uses(nodes, item, y, j) ==> !Uses(was, cur, x, j))
    ensures Assigned(was, nodes, cur, x, c, item, y, Put(x, c, y))
  {
    PutItemParts(was[cur.id], c, item);
    PutNewParts(x, c, y);
    hide PutItem, Put, Has, Holds, Uses, Tree;
  }

  lemma SameLength(nodes: seq<Node>, cur: Item, x: Json)
    requires Models(nodes, cur, x) && x.Arr?
    ensures |x.items| == |nodes[cur.id].items|
  {
    assert Holds(nodes[cur.id], Pos(|x.items|)) <==> Has(x, Pos(|x.items|));
    if |x.items| > 0 { assert Holds(nodes[cur.id], Pos(|x.items| - 1)) <==> Has(x, Pos(|x.items| - 1)); }
  }

  lemma EvolvesOn(a: seq<Node>, b: seq<Node>, c: seq<Node>, root: Item, d: Json, e: Json, f: Json)
    requires Evolves(a, b, root, d, e) && Evolves(b, c, root, e, f)
    ensures Evolves(a, c, root, d, f)
  {
    hide Models, Uses;
  }

  lemma GoalOn(a: seq<Node>, b: seq<Node>, c: seq<Node>, d: Json, e: Json, f: Json, path: seq<Cell>, w: Json)
    requires Goal(a, b, d, e, path, w) && Goal(b, c, e, f, path, w)
    ensures Goal(a, c, d, f, path, w)
  {
    hide Set;
  }

  lemma GoalFails(a: seq<Node>, b: seq<Node>, root: Item, d: Json, e: Json, path: seq<Cell>, w: Json)
    requires Goal(a, b, d, e, path, w) && Set(e, path, w).None? && Evolves(a, b, root, d, e)
    ensures a == b && Set(d, path, w).None?
  {
    hide Set, Models, Uses;
  }

  lemma IndexHas(x: Json, i: nat)
    requires x.Arr? && i < |x.items|
    ensures Has(x, Pos(i))
  {
  }

  lemma PadLength(x: Json, c: Cell)
    requires x.Arr? && c == Pos(|x.items|)
    ensures Put(x, c, Obj(map[])).Arr? && Put(x, c, Obj(map[])).items == x.items + [Obj(map[])]
  {
  }

  /** The list with empty objects behind it. */
  predicate Padded(x: Json, y: Json) {
    x.Arr? && y.Arr? && |x.items| <= |y.items|
    && forall k :: 0 <= k < |y.items| ==> y.items[k] == if k < |x.items| then x.items[k] else Obj(map[])
  }

  lemma IndexStepped(was: seq<Node>, nodes: seq<Node>, d: Json, e: Json, p: seq<Cell>, rest: seq<Cell>)
    requires Get(d, p).Some? && Get(e, p).Some? && |rest| > 1 && rest[0].Pos? && Alternates(rest)
    requires Padded(Get(d, p).value, Get(e, p).value) && Has(Get(e, p).value, rest[0])
    requires Get(e, p + [rest[0]]) == Some(Part(Get(e, p).value, rest[0]))
    requires rest[0].index < |Get(d, p).value.items| ==> nodes == was && e == d
    ensures Stepped(was, nodes, d, e, p, rest)
  {
    hide Get;
  }

  lemma StartsThere(nodes: seq<Node>, root: Item, d: Json, path: seq<Cell>, w: Json)
    requires Models(nodes, root, d) && path != []
    ensures Evolves(nodes, nodes, root, d, d) && Goal(nodes, nodes, d, d, path, w)
  {
    StartsHere(nodes, root, d, path, w);
  }

  lemma StartsHere(nodes: seq<Node>, root: Item, d: Json, path: seq<Cell>, w: Json)
    requires Models(nodes, root, d) && path != []
    ensures Get(d, []) == Some(d) && Walk(nodes, root, []) == Some(root)
    ensures Evolves(nodes, nodes, root, d, d) && Goal(nodes, nodes, d, d, path, w)
  {
    forall j: nat | Uses(nodes, root, d, j) ensures j < |nodes| { UsesExist(nodes, root, d, j); }
  }

  lemma PadGoal(d: Json, p: seq<Cell>, c: Cell, rest: seq<Cell>, w: Json)
    requires Get(d, p).Some? && |rest| > 1 && Alternates(rest) && rest[0].Pos?
    requires Get(d, p).value.Arr? && c == Pos(|Get(d, p).value.items|) && c.index <= rest[0].index
    ensures Fits(Get(d, p).value, c) && !Has(Get(d, p).value, c)
    ensures var e := Replace(d, p, Put(Get(d, p).value, c, Obj(map[])));
      Set(e, p + rest, w) == Set(d, p + rest, w) && Set(d, p + rest, w).Some?
  {
    GrownGoal(d, p, c, rest, w);
  }

  lemma LastSet(e: Json, p: seq<Cell>, c: Cell, w: Json)
    requires Get(e, p).Some?
    ensures var x := Get(e, p).value;
      Set(e, p + [c], w) == if Fits(x, c) then Some(Replace(e, p, Put(x, c, w))) else None
  {
    SetBelow(e, p, [c], w);
  }

  /** The value was built apart from the document, so it is still what it was, and still apart. */
  lemma ValueKept(was: seq<Node>, nodes: seq<Node>, root: Item, d: Json, e: Json, v: Item, w: Json)
    requires Evolves(was, nodes, root, d, e) && Models(was, v, w) && Tree(was, v, w)
    requires forall j: nat :: Uses(was, v, w, j) ==> !Uses(was, root, d, j)
    ensures Models(nodes, v, w) && Tree(nodes, v, w)
      && forall j: nat :: Uses(nodes, v, w, j) ==> !Uses(nodes, root, e, j) && j < |was| && Uses(was, v, w, j)
  {
    forall j: nat | Uses(was, v, w, j) ensures j < |was| && nodes[j] == was[j] { UsesExist(was, v, w, j); }
    Unused(was, nodes, v, w);
  }

  lemma LastWrites(was: seq<Node>, before: seq<Node>, nodes: seq<Node>, root: Item, d: Json, e: Json, p: seq<Cell>,
      cur: Item, c: Cell, v: Item, w: Json)
    requires Evolves(was, before, root, d, e) && Tree(before, root, e) && Get(e, p).Some?
      && Walk(before, root, p) == Some(cur)
    requires Models(before, cur, Get(e, p).value) && c.Name? && Fits(Get(e, p).value, c)
    requires Models(was, v, w) && Tree(was, v, w) && forall j: nat :: Uses(was, v, w, j) ==> !Uses(was, root, d, j)
    requires cur.Ref? && cur.id < |before| && before[cur.id].Dict?
    requires nodes == before[cur.id := Dict(before[cur.id].fields[c.key := v])]
    ensures Written(was, nodes, root, d, Replace(e, p, Put(Get(e, p).value, c, w)), v, w)
  {
    hide Models, Uses, Get, Tree, Put, Fits, Has, Replace, Walk;
    ValueKept(was, before, root, d, e, v, w);
    LastPut(before, nodes, root, e, p, cur, c, v, w);
  }

  lemma LastPut(before: seq<Node>, nodes: seq<Node>, root: Item, e: Json, p: seq<Cell>, cur: Item, c: Cell, v: Item,
      w: Json)
    requires Models(before, root, e) && Tree(before, root, e) && Get(e, p).Some? && Walk(before, root, p) == Some(cur)
    requires Models(before, cur, Get(e, p).value) && c.Name? && Fits(Get(e, p).value, c)
    requires Models(before, v, w) && Tree(before, v, w)
    requires forall j: nat :: Uses(before, v, w, j) ==> !Uses(before, root, e, j)
    requires cur.Ref? && cur.id < |before| && before[cur.id].Dict?
    requires nodes == before[cur.id := Dict(before[cur.id].fields[c.key := v])]
    ensures Uses(before, root, e, cur.id)
    ensures var nu := Replace(e, p, Put(Get(e, p).value, c, w));
      && Models(nodes, root, nu) && Tree(nodes, root, nu)
      && forall j: nat :: Uses(nodes, root, nu, j) ==> Uses(before, root, e, j) || Uses(before, v, w, j)
  {
    var x := Get(e, p).value;
    WalkModels(before, root, e, p);
    assert Uses(before, root, e, cur.id) by { assert Uses(before, cur, x, cur.id); }
    forall j: nat | Uses(before, v, w, j) ensures j < |before| && nodes[j] == before[j] { UsesExist(before, v, w, j); }
    Unused(before, nodes, v, w);
    assert PutItem(before[cur.id], c, v) == nodes[cur.id];
    hide Models, Tree, Uses, Put, Fits, Has, PutItem, Replace, Walk;
    PutAssigns(before, nodes, cur, x, c, v, w);
    WriteAt(before, nodes, root, e, p, cur, c, v, w, Put(x, c, w));
  }

  // ---- several documents -----------------------------------------------------------------------

  /** A document that shares no node with the one updated keeps its value. */
  lemma OtherDocumentStays(was: seq<Node>, nodes: seq<Node>, root: Item, d: Json, other: Item, g: Json)
    requires Models(was, root, d) && Models(was, other, g) && |was| <= |nodes|
    requires forall j: nat :: j < |was| && !Uses(was, root, d, j) ==> nodes[j] == was[j]
    requires forall j: nat :: Uses(was, other, g, j) ==> !Uses(was, root, d, j)
    ensures Models(nodes, other, g)
  {
    forall j: nat | Uses(was, other, g, j) ensures j < |was| && nodes[j] == was[j] { UsesExist(was, other, g, j); }
    Unused(was, nodes, other, g);
  }

  /** What is left of a read path once it has gone through a slot, the key `k` of node `id`; None if it never does. */
  function Beyond(nodes: seq<Node>, item: Item, q: seq<Cell>, id: nat, k: string): Option<seq<Cell>>
    decreases |q|
  {
    if q == [] || !item.Ref? || item.id >= |nodes| then None
    else if item.id == id && q[0] == Name(k) then Some(q[1..])
    else if Holds(nodes[item.id], q[0]) then Beyond(nodes, Held(nodes[item.id], q[0]), q[1..], id, k)
    else None
  }

  /** An assignment is seen exactly through its slot, in whatever graph and from wherever one reads: a path that
      goes through it reads on in the new value, and every other path reads what it read before. */
  lemma {:induction false} SeenThroughSlot(nodes: seq<Node>, nu: seq<Node>, id: nat, k: string, v: Item, item: Item,
      q: seq<Cell>)
    requires id < |nodes| && nodes[id].Dict? && nu == nodes[id := Dict(nodes[id].fields[k := v])]
    ensures var beyond := Beyond(nodes, item, q, id, k);
      Walk(nu, item, q) == if beyond.Some? then Walk(nu, v, beyond.value) else Walk(nodes, item, q)
    decreases |q|
  {
    if q != [] && item.Ref? && item.id < |nodes| && !(item.id == id && q[0] == Name(k)) && Holds(nodes[item.id], q[0]) {
      SeenThroughSlot(nodes, nu, id, k, v, Held(nodes[item.id], q[0]), q[1..]);
    }
  }
}
