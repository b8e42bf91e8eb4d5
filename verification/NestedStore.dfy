/** The documents as the patch builder holds them: objects and lists that are updated in place and refer to each
    other, and what updating one of them does to the document it is part of. */
module NestedStore {
  import opened Text
  import opened NestedSet

  /** A value held by an object or a list: a plain one, or a reference to another object or list. */
  datatype Item = Plain(text: string) | Ref(id: nat)

  datatype Node = Dict(fields: map<string, Item>) | List(items: seq<Item>)

  predicate Holds(node: Node, c: Cell) {
    if c.Name? then node.Dict? && c.key in node.fields else node.List? && c.index < |node.items|
  }

  function Held(node: Node, c: Cell): Item
    requires Holds(node, c)
  {
    if c.Name? then node.fields[c.key] else node.items[c.index]
  }

  /** The document has no parts of its own. */
  predicate Atom(d: Json) {
    d.Leaf? || d.Shared?
  }

  predicate SameKind(node: Node, d: Json) {
    if d.Obj? then node.Dict? else d.Arr? && node.List?
  }

  /** The item stands for the document. */
  ghost predicate Models(nodes: seq<Node>, item: Item, d: Json)
    decreases d
  {
    if d.Leaf? then item == Plain(d.text)
    else if d.Shared? then item == Ref(d.id) && d.id < |nodes|
    else
      && item.Ref? && item.id < |nodes| && SameKind(nodes[item.id], d)
      && (forall c :: Holds(nodes[item.id], c) <==> Has(d, c))
      && (forall c :: Has(d, c) ==> Models(nodes, Held(nodes[item.id], c), Part(d, c)))
  }

  /** The document makes use of node `j`. */
  ghost predicate Uses(nodes: seq<Node>, item: Item, d: Json, j: nat)
    requires Models(nodes, item, d)
    decreases d
  {
    !Atom(d) && (j == item.id || exists c :: Has(d, c) && Uses(nodes, Held(nodes[item.id], c), Part(d, c), j))
  }

  /** No node is used twice. */
  ghost predicate Tree(nodes: seq<Node>, item: Item, d: Json)
    requires Models(nodes, item, d)
    decreases d
  {
    Atom(d) ||
    (&& (forall c :: Has(d, c) ==> Tree(nodes, Held(nodes[item.id], c), Part(d, c)))
     && (forall c :: Has(d, c) ==> !Uses(nodes, Held(nodes[item.id], c), Part(d, c), item.id))
     && (forall a, b, j :: Has(d, a) && Has(d, b) && a != b && Uses(nodes, Held(nodes[item.id], a), Part(d, a), j) ==>
           !Uses(nodes, Held(nodes[item.id], b), Part(d, b), j)))
  }

  /** Nodes the document does not use may change. */
  lemma {:induction false} Unused(nodes: seq<Node>, nu: seq<Node>, item: Item, d: Json)
    requires Models(nodes, item, d) && |nodes| <= |nu|
    requires forall j: nat :: Uses(nodes, item, d, j) ==> j < |nodes| && nu[j] == nodes[j]
    ensures Models(nu, item, d) && (forall j :: Uses(nu, item, d, j) <==> Uses(nodes, item, d, j))
    ensures Tree(nodes, item, d) ==> Tree(nu, item, d)
    decreases d
  {
    if !Atom(d) {
      assert Uses(nodes, item, d, item.id);
      forall c | Has(d, c)
        ensures Models(nu, Held(nu[item.id], c), Part(d, c))
        ensures forall j ::
          Uses(nu, Held(nu[item.id], c), Part(d, c), j) <==> Uses(nodes, Held(nodes[item.id], c), Part(d, c), j)
        ensures Tree(nodes, item, d) ==> Tree(nu, Held(nu[item.id], c), Part(d, c))
      {
        forall j: nat | Uses(nodes, Held(nodes[item.id], c), Part(d, c), j) ensures j < |nodes| && nu[j] == nodes[j] {
          assert Uses(nodes, item, d, j);
        }
        Unused(nodes, nu, Held(nodes[item.id], c), Part(d, c));
      }
    }
  }

  lemma {:induction false} UsesExist(nodes: seq<Node>, item: Item, d: Json, j: nat)
    requires Models(nodes, item, d) && Uses(nodes, item, d, j)
    ensures j < |nodes|
    decreases d
  {
    if j != item.id {
      var c :| Has(d, c) && Uses(nodes, Held(nodes[item.id], c), Part(d, c), j);
      UsesExist(nodes, Held(nodes[item.id], c), Part(d, c), j);
    }
  }

  // ---- walking and updating --------------------------------------------------------------------

  function Walk(nodes: seq<Node>, item: Item, p: seq<Cell>): Option<Item>
    decreases |p|
  {
    if p == [] then Some(item)
    else if item.Ref? && item.id < |nodes| && Holds(nodes[item.id], p[0]) then
      Walk(nodes, Held(nodes[item.id], p[0]), p[1..])
    else None
  }

  /** The document with what is at the path replaced. */
  function Replace(d: Json, p: seq<Cell>, x: Json): Json
    requires Get(d, p).Some?
    decreases |p|
  {
    if p == [] then x else Put(d, p[0], Replace(Part(d, p[0]), p[1..], x))
  }

  /** Walking the store is reading the document. */
  lemma {:induction false} WalkModels(nodes: seq<Node>, item: Item, d: Json, p: seq<Cell>)
    requires Models(nodes, item, d) && Get(d, p).Some?
    ensures Walk(nodes, item, p).Some? && Models(nodes, Walk(nodes, item, p).value, Get(d, p).value)
    ensures forall j: nat :: Uses(nodes, Walk(nodes, item, p).value, Get(d, p).value, j) ==> Uses(nodes, item, d, j)
    ensures Tree(nodes, item, d) ==> Tree(nodes, Walk(nodes, item, p).value, Get(d, p).value)
    decreases |p|
  {
    if p != [] {
      assert Has(d, p[0]);
      WalkModels(nodes, Held(nodes[item.id], p[0]), Part(d, p[0]), p[1..]);
    }
  }

  lemma PutParts(d: Json, c: Cell, y: Json)
    requires Has(d, c)
    ensures var nu := Put(d, c, y);
      && nu.Obj? == d.Obj? && nu.Arr? == d.Arr?
      && (forall b :: Has(nu, b) <==> Has(d, b))
      && (forall b :: Has(d, b) ==> Part(nu, b) == if b == c then y else Part(d, b))
  {
  }

  /** What the update of one node must respect: only `cur` changes, it now stands for `x`, and `x` uses
      nothing that the rest of the document uses. */
  ghost predicate Updates(nodes: seq<Node>, nu: seq<Node>, item: Item, d: Json, p: seq<Cell>, cur: Item, x: Json)
    requires Models(nodes, item, d) && Get(d, p).Some?
  {
    && Walk(nodes, item, p) == Some(cur) && cur.Ref? && cur.id < |nodes| && Models(nodes, cur, Get(d, p).value)
    && !Atom(Get(d, p).value)
    && |nodes| <= |nu| && (forall j :: 0 <= j < |nodes| && j != cur.id ==> nu[j] == nodes[j])
    && Models(nu, cur, x) && Tree(nu, cur, x)
    && (forall j: nat :: Uses(nu, cur, x, j) ==> Uses(nodes, cur, Get(d, p).value, j) || !Uses(nodes, item, d, j))
  }

  /** Updating a node in place replaces its part of the document, and nothing else. */
  lemma {:induction false} UpdateAt(nodes: seq<Node>, nu: seq<Node>, item: Item, d: Json, p: seq<Cell>, cur: Item,
      x: Json)
    requires Models(nodes, item, d) && Tree(nodes, item, d) && Get(d, p).Some? && Updates(nodes, nu, item, d, p, cur, x)
    ensures Models(nu, item, Replace(d, p, x)) && Tree(nu, item, Replace(d, p, x))
    ensures forall j: nat :: Uses(nu, item, Replace(d, p, x), j) ==> Uses(nodes, item, d, j) || Uses(nu, cur, x, j)
    ensures Walk(nu, item, p) == Some(cur)
    decreases |p|
  {
    hide Put;
    if p != [] {
      var c0 := p[0];
      var child, part := Held(nodes[item.id], c0), Part(d, c0);
      WalkModels(nodes, child, part, p[1..]);
      assert Uses(nodes, cur, Get(d, p).value, cur.id);
      assert Updates(nodes, nu, child, part, p[1..], cur, x);
      UpdateAt(nodes, nu, child, part, p[1..], cur, x);
      var y := Replace(part, p[1..], x);
      var e := Put(d, c0, y);
      PutParts(d, c0, y);
      UpdateBeside(nodes, nu, item, d, c0, cur);
      assert OneChanged(nodes, nu, item, d, c0, y, e);
      ModelsHere(nodes, nu, item, d, c0, y, e);
      TreeHere(nodes, nu, item, d, c0, y, e);
      forall j: nat | Uses(nu, item, e, j) ensures Uses(nodes, item, d, j) || Uses(nu, cur, x, j) {
        UsesHere(nodes, nu, item, d, c0, y, e, j);
      }
    }
  }

  /** The siblings of the updated part stay as they are. */
  lemma UpdateBeside(nodes: seq<Node>, nu: seq<Node>, item: Item, d: Json, c0: Cell, cur: Item)
    requires Models(nodes, item, d) && Tree(nodes, item, d) && Has(d, c0) && cur.Ref?
    requires Uses(nodes, Held(nodes[item.id], c0), Part(d, c0), cur.id)
    requires |nodes| <= |nu| && (forall j :: 0 <= j < |nodes| && j != cur.id ==> nu[j] == nodes[j])
    ensures nu[item.id] == nodes[item.id]
    ensures forall c :: Has(d, c) && c != c0 ==>
      Models(nu, Held(nodes[item.id], c), Part(d, c)) && Tree(nu, Held(nodes[item.id], c), Part(d, c))
      && forall j: nat ::
        Uses(nu, Held(nodes[item.id], c), Part(d, c), j) <==> Uses(nodes, Held(nodes[item.id], c), Part(d, c), j)
  {
    forall c | Has(d, c) && c != c0
      ensures Models(nu, Held(nodes[item.id], c), Part(d, c)) && Tree(nu, Held(nodes[item.id], c), Part(d, c))
      ensures forall j: nat ::
        Uses(nu, Held(nodes[item.id], c), Part(d, c), j) <==> Uses(nodes, Held(nodes[item.id], c), Part(d, c), j)
    {
      var sibling, part := Held(nodes[item.id], c), Part(d, c);
      forall j: nat | Uses(nodes, sibling, part, j) ensures j < |nodes| && nu[j] == nodes[j] {
        UsesExist(nodes, sibling, part, j);
      }
      Unused(nodes, nu, sibling, part);
    }
  }

  /** One level up: the part at `c0` is now `y`, the other parts are as they were. */
  ghost predicate OneChanged(nodes: seq<Node>, nu: seq<Node>, item: Item, d: Json, c0: Cell, y: Json, e: Json)
    requires Models(nodes, item, d) && Has(d, c0)
  {
    && item.Ref? && item.id < |nu| && nu[item.id] == nodes[item.id] && Has(d, c0)
    && e.Obj? == d.Obj? && e.Arr? == d.Arr?
    && (forall c :: Has(e, c) <==> Has(d, c))
    && (forall c :: Has(d, c) ==> Part(e, c) == if c == c0 then y else Part(d, c))
    && Models(nu, Held(nodes[item.id], c0), y)
    && forall c :: Has(d, c) && c != c0 ==> Models(nu, Held(nodes[item.id], c), Part(d, c))
  }

  lemma ModelsHere(nodes: seq<Node>, nu: seq<Node>, item: Item, d: Json, c0: Cell, y: Json, e: Json)
    requires Models(nodes, item, d) && Has(d, c0) && OneChanged(nodes, nu, item, d, c0, y, e)
    ensures Models(nu, item, e)
  {
  }

  /** A node of the part at `c0`, or of none, is no node of the others. */
  lemma PartsApart(nodes: seq<Node>, item: Item, d: Json, c0: Cell, j: nat)
    requires Models(nodes, item, d) && Tree(nodes, item, d) && Has(d, c0)
    requires Uses(nodes, Held(nodes[item.id], c0), Part(d, c0), j) || !Uses(nodes, item, d, j)
    ensures j != item.id && forall b :: Has(d, b) && b != c0 ==> !Uses(nodes, Held(nodes[item.id], b), Part(d, b), j)
  {
  }

  lemma TreeHere(nodes: seq<Node>, nu: seq<Node>, item: Item, d: Json, c0: Cell, y: Json, e: Json)
    requires Models(nodes, item, d) && Tree(nodes, item, d) && Has(d, c0) && OneChanged(nodes, nu, item, d, c0, y, e)
    requires Models(nu, item, e) && Tree(nu, Held(nodes[item.id], c0), y)
    requires forall c :: Has(d, c) && c != c0 ==>
      Tree(nu, Held(nodes[item.id], c), Part(d, c))
      && forall j: nat ::
        Uses(nu, Held(nodes[item.id], c), Part(d, c), j) <==> Uses(nodes, Held(nodes[item.id], c), Part(d, c), j)
    requires forall j: nat :: Uses(nu, Held(nodes[item.id], c0), y, j) ==>
      Uses(nodes, Held(nodes[item.id], c0), Part(d, c0), j) || !Uses(nodes, item, d, j)
    ensures Tree(nu, item, e)
  {
    assert Uses(nodes, item, d, item.id);
    forall c | Has(e, c) ensures Tree(nu, Held(nu[item.id], c), Part(e, c))
      ensures !Uses(nu, Held(nu[item.id], c), Part(e, c), item.id)
    {
    }
    forall a, b, j: nat | Has(e, a) && Has(e, b) && a != b && Uses(nu, Held(nu[item.id], a), Part(e, a), j)
      ensures !Uses(nu, Held(nu[item.id], b), Part(e, b), j)
    {
      if a == c0 { PartsApart(nodes, item, d, c0, j); }
      if b == c0 && Uses(nu, Held(nu[item.id], b), Part(e, b), j) { PartsApart(nodes, item, d, c0, j); }
    }
  }

  lemma UsesHere(nodes: seq<Node>, nu: seq<Node>, item: Item, d: Json, c0: Cell, y: Json, e: Json, j: nat)
    requires Models(nodes, item, d) && Has(d, c0) && OneChanged(nodes, nu, item, d, c0, y, e)
    requires forall c :: Has(d, c) && c != c0 ==>
      (Uses(nu, Held(nodes[item.id], c), Part(d, c), j) <==> Uses(nodes, Held(nodes[item.id], c), Part(d, c), j))
    requires Models(nu, item, e) && Uses(nu, item, e, j)
    ensures Uses(nodes, item, d, j) || Uses(nu, Held(nodes[item.id], c0), y, j)
  {
  }

  // ---- assigning one part ----------------------------------------------------------------------

  /** In `nu` the node `cur` has the item `f` at `c`, and is otherwise what it was; `e` has `y` there. */
  ghost predicate Assigned(nodes: seq<Node>, nu: seq<Node>, cur: Item, x: Json, c: Cell, f: Item, y: Json, e: Json)
    requires Models(nodes, cur, x)
  {
    && !Atom(x) && !Atom(e) && |nodes| <= |nu| && SameKind(nu[cur.id], e)
    && (forall j :: 0 <= j < |nodes| && j != cur.id ==> nu[j] == nodes[j])
    && (forall b :: Holds(nu[cur.id], b) <==> Has(e, b)) && (forall b :: Has(e, b) <==> Has(x, b) || b == c)
    && (forall b :: Has(e, b) ==> Part(e, b) == if b == c then y else Part(x, b))
    && (forall b :: Has(e, b) ==> Held(nu[cur.id], b) == if b == c then f else Held(nodes[cur.id], b))
    && Models(nu, f, y) && Tree(nu, f, y) && (forall j: nat :: Uses(nu, f, y, j) ==> !Uses(nodes, cur, x, j))
  }

  /** The other parts of an assigned node. */
  lemma AssignBeside(nodes: seq<Node>, nu: seq<Node>, cur: Item, x: Json, c: Cell, f: Item, y: Json, e: Json, b: Cell)
    requires Models(nodes, cur, x) && Tree(nodes, cur, x) && Assigned(nodes, nu, cur, x, c, f, y, e) && Has(x, b)
      && b != c
    ensures Models(nu, Held(nodes[cur.id], b), Part(x, b)) && Tree(nu, Held(nodes[cur.id], b), Part(x, b))
    ensures forall j: nat ::
      Uses(nu, Held(nodes[cur.id], b), Part(x, b), j) <==> Uses(nodes, Held(nodes[cur.id], b), Part(x, b), j)
  {
    forall j: nat | Uses(nodes, Held(nodes[cur.id], b), Part(x, b), j) ensures j < |nodes| && nu[j] == nodes[j] {
      UsesExist(nodes, Held(nodes[cur.id], b), Part(x, b), j);
    }
    Unused(nodes, nu, Held(nodes[cur.id], b), Part(x, b));
  }

  lemma Assign(nodes: seq<Node>, nu: seq<Node>, cur: Item, x: Json, c: Cell, f: Item, y: Json, e: Json)
    requires Models(nodes, cur, x) && Tree(nodes, cur, x) && Assigned(nodes, nu, cur, x, c, f, y, e)
    ensures Models(nu, cur, e) && Tree(nu, cur, e)
    ensures forall j: nat :: Uses(nu, cur, e, j) ==> Uses(nodes, cur, x, j) || Uses(nu, f, y, j)
  {
    forall b | Has(x, b) && b != c
      ensures Models(nu, Held(nodes[cur.id], b), Part(x, b)) && Tree(nu, Held(nodes[cur.id], b), Part(x, b))
      ensures forall j: nat ::
        Uses(nu, Held(nodes[cur.id], b), Part(x, b), j) <==> Uses(nodes, Held(nodes[cur.id], b), Part(x, b), j)
    {
      AssignBeside(nodes, nu, cur, x, c, f, y, e, b);
    }
    assert Models(nu, cur, e);
    assert Uses(nodes, cur, x, cur.id);
    forall b | Has(e, b)
      ensures Tree(nu, Held(nu[cur.id], b), Part(e, b)) && !Uses(nu, Held(nu[cur.id], b), Part(e, b), cur.id)
    {
    }
    forall a, b, j: nat | Has(e, a) && Has(e, b) && a != b && Uses(nu, Held(nu[cur.id], a), Part(e, a), j)
      ensures !Uses(nu, Held(nu[cur.id], b), Part(e, b), j)
    {
      if a != c && b != c {
        assert Has(x, a) && Has(x, b);
      } else {
        var other := if a == c then b else a;
        assert Uses(nodes, Held(nodes[cur.id], other), Part(x, other), j) ==> Uses(nodes, cur, x, j);
      }
    }
  }

  /** Assigning a part of the node that a path leads to replaces that part of the document. */
  lemma WriteAt(nodes: seq<Node>, nu: seq<Node>, root: Item, d: Json, p: seq<Cell>, cur: Item, c: Cell, f: Item,
      y: Json, e: Json)
    requires Models(nodes, root, d) && Tree(nodes, root, d) && Get(d, p).Some? && Walk(nodes, root, p) == Some(cur)
    requires Models(nodes, cur, Get(d, p).value) && Assigned(nodes, nu, cur, Get(d, p).value, c, f, y, e)
    requires forall j: nat :: Uses(nu, f, y, j) ==> !Uses(nodes, root, d, j)
    ensures Models(nu, root, Replace(d, p, e)) && Tree(nu, root, Replace(d, p, e)) && Walk(nu, root, p) == Some(cur)
    ensures Models(nu, cur, e)
    ensures forall j: nat :: Uses(nu, root, Replace(d, p, e), j) ==> Uses(nodes, root, d, j) || Uses(nu, f, y, j)
  {
    var x := Get(d, p).value;
    WalkModels(nodes, root, d, p);
    Assign(nodes, nu, cur, x, c, f, y, e);
    hide Models, Uses, Tree, Replace;
    assert Updates(nodes, nu, root, d, p, cur, e);
    UpdateAt(nodes, nu, root, d, p, cur, e);
  }

  // ---- documents -------------------------------------------------------------------------------

  lemma {:induction false} ReplaceLaws(d: Json, p: seq<Cell>, x: Json)
    requires Get(d, p).Some?
    ensures Get(Replace(d, p, x), p) == Some(x)
    ensures forall y :: Replace(Replace(d, p, x), p, y) == Replace(d, p, y)
    decreases |p|
  {
    if p != [] {
      var part := Part(d, p[0]);
      ReplaceLaws(part, p[1..], x);
      PutParts(d, p[0], Replace(part, p[1..], x));
      PutPut(d, p[0]);
    }
  }

  /** Setting below a path that exists. */
  lemma {:induction false} SetBelow(d: Json, p: seq<Cell>, rest: seq<Cell>, w: Json)
    requires Get(d, p).Some? && rest != []
    ensures var y := Set(Get(d, p).value, rest, w);
      Set(d, p + rest, w) == if y.None? then None else Some(Replace(d, p, y.value))
    decreases |p|
  {
    if p == [] {
      assert p + rest == rest;
    } else {
      assert (p + rest)[1..] == p[1..] + rest;
      SetBelow(Part(d, p[0]), p[1..], rest, w);
    }
  }

  /** A change at a path that does not change what is set below it changes nothing in the end. */
  lemma SetThroughReplace(d: Json, p: seq<Cell>, x: Json, rest: seq<Cell>, w: Json)
    requires Get(d, p).Some? && rest != [] && Set(x, rest, w) == Set(Get(d, p).value, rest, w)
    ensures Set(Replace(d, p, x), p + rest, w) == Set(d, p + rest, w)
  {
    ReplaceLaws(d, p, x);
    SetBelow(d, p, rest, w);
    SetBelow(Replace(d, p, x), p, rest, w);
  }
}
