/** build_patches as it runs: patches are nodes of one store that are updated in place, and every added probe is
    the same template node. The loop is `ShareBuild` of the module `PatchSharing`, sharing included. */
module PatchBuilder {
  import opened Text
  import opened NestedSet
  import opened NestedStore
  import opened NestedUpdate
  import opened PatchPlan
  import opened PatchSharing
  import opened PatchReading

  /** What owns nodes of the store. */
  datatype Owner = Patch(key: Key) | Template(id: nat)

  predicate Present(o: Owner, docs: map<Key, Json>, t: Templates) {
    if o.Patch? then o.key in docs else o.id in t
  }

  function DocOf(o: Owner, docs: map<Key, Json>, t: Templates): Json
    requires Present(o, docs, t)
  {
    if o.Patch? then docs[o.key] else t[o.id]
  }

  function RootOf(o: Owner, roots: map<Key, Item>): Item
    requires o.Patch? ==> o.key in roots
  {
    if o.Patch? then roots[o.key] else Ref(o.id)
  }

  /** The document stands in the store, and refers to templates only. */
  ghost predicate Rooted(nodes: seq<Node>, item: Item, d: Json, t: Templates) {
    Models(nodes, item, d) && Tree(nodes, item, d) && Closed(d, t)
  }

  /** Patches and templates stand in the store, and no node belongs to two of them. */
  ghost predicate Stored(nodes: seq<Node>, roots: map<Key, Item>, docs: map<Key, Json>, t: Templates) {
    && roots.Keys == docs.Keys
    && (forall o :: Present(o, docs, t) ==> Rooted(nodes, RootOf(o, roots), DocOf(o, docs, t), t))
    && (forall a, b, j: nat ::
          Present(a, docs, t) && Present(b, docs, t) && a != b
          && Uses(nodes, RootOf(a, roots), DocOf(a, docs, t), j) ==>
            !Uses(nodes, RootOf(b, roots), DocOf(b, docs, t), j))
  }

  // ---- what a step does to the store -----------------------------------------------------------

  /** One owner's document was written, and it took only new nodes. */
  ghost predicate Rewritten(was: seq<Node>, nodes: seq<Node>, item: Item, d: Json, e: Json) {
    && Models(was, item, d) && |was| <= |nodes| && Models(nodes, item, e) && Tree(nodes, item, e)
    && (forall j: nat :: j < |was| && !Uses(was, item, d, j) ==> nodes[j] == was[j])
    && (forall j: nat :: Uses(nodes, item, e, j) ==> Uses(was, item, d, j) || j >= |was|)
  }

  /** The others are what they were. */
  lemma OthersStay(was: seq<Node>, nodes: seq<Node>, item: Item, d: Json, e: Json, other: Item, g: Json)
    requires Rewritten(was, nodes, item, d, e) && Models(was, other, g)
    requires forall j: nat :: Uses(was, other, g, j) ==> !Uses(was, item, d, j)
    ensures Models(nodes, other, g) && (Tree(was, other, g) ==> Tree(nodes, other, g))
    ensures forall j: nat :: Uses(nodes, other, g, j) <==> Uses(was, other, g, j)
    ensures forall j: nat :: Uses(nodes, other, g, j) ==> !Uses(nodes, item, e, j)
  {
    forall j: nat | Uses(was, other, g, j) ensures j < |was| && nodes[j] == was[j] { UsesExist(was, other, g, j); }
    Unused(was, nodes, other, g);
  }

  lemma StoredWrite(was: seq<Node>, nodes: seq<Node>, roots: map<Key, Item>, docs: map<Key, Json>, t: Templates,
      o: Owner, e: Json, nu: map<Key, Json>, u: Templates)
    requires Stored(was, roots, docs, t) && Present(o, docs, t)
    requires Rewritten(was, nodes, RootOf(o, roots), DocOf(o, docs, t), e) && Closed(e, t)
    requires nu.Keys == docs.Keys && u.Keys == t.Keys
    requires forall b :: Present(b, docs, t) ==> DocOf(b, nu, u) == if b == o then e else DocOf(b, docs, t)
    ensures Stored(nodes, roots, nu, u)
  {
    hide Models, Tree, Uses, Closed;
    var item, d := RootOf(o, roots), DocOf(o, docs, t);
    ClosedKeys(e, t, u);
    forall b | Present(b, docs, t) && b != o
      ensures Rooted(nodes, RootOf(b, roots), DocOf(b, nu, u), u)
      ensures forall j: nat ::
        Uses(nodes, RootOf(b, roots), DocOf(b, nu, u), j) <==> Uses(was, RootOf(b, roots), DocOf(b, docs, t), j)
      ensures forall j: nat ::
        Uses(nodes, RootOf(b, roots), DocOf(b, nu, u), j) ==> !Uses(nodes, RootOf(o, roots), DocOf(o, nu, u), j)
    {
      OthersStay(was, nodes, item, d, e, RootOf(b, roots), DocOf(b, docs, t));
      ClosedKeys(DocOf(b, docs, t), t, u);
    }
  }

  /** A new patch is added behind everything else. */
  lemma StoredNew(was: seq<Node>, nodes: seq<Node>, roots: map<Key, Item>, docs: map<Key, Json>, t: Templates,
      key: Key, item: Item, d: Json)
    requires Stored(was, roots, docs, t) && key !in docs && was <= nodes && Rooted(nodes, item, d, t)
    requires forall j: nat :: Uses(nodes, item, d, j) ==> j >= |was|
    ensures Stored(nodes, roots[key := item], docs[key := d], t)
  {
    hide Models, Tree, Uses, Closed;
    var nu, more, o := docs[key := d], roots[key := item], Patch(key);
    forall b | Present(b, nu, t) && b != o
      ensures Rooted(nodes, RootOf(b, more), DocOf(b, nu, t), t)
      ensures forall j: nat ::
        Uses(nodes, RootOf(b, more), DocOf(b, nu, t), j) <==> Uses(was, RootOf(b, roots), DocOf(b, docs, t), j)
      ensures forall j: nat :: Uses(nodes, RootOf(b, more), DocOf(b, nu, t), j) ==> j < |was|
    {
      assert Present(b, docs, t);
      var root, doc := RootOf(b, roots), DocOf(b, docs, t);
      forall j: nat | Uses(was, root, doc, j) ensures j < |was| && nodes[j] == was[j] { UsesExist(was, root, doc, j); }
      Unused(was, nodes, root, doc);
    }
    assert forall b :: Present(b, nu, t) ==> b == o || Present(b, docs, t);
    assert RootOf(o, more) == item && DocOf(o, nu, t) == d;
  }

  /** An object of plain values and of one other object. */
  lemma StandsFlat(nodes: seq<Node>, item: Item, fields: map<string, Json>, t: Templates)
    requires item.Ref? && item.id < |nodes| && nodes[item.id].Dict? && nodes[item.id].fields.Keys == fields.Keys
    requires forall k :: k in fields ==> fields[k].Leaf? && nodes[item.id].fields[k] == Plain(fields[k].text)
    ensures Rooted(nodes, item, Obj(fields), t)
    ensures forall j: nat :: Uses(nodes, item, Obj(fields), j) <==> j == item.id
  {
  }

  lemma StandsOver(nodes: seq<Node>, item: Item, fields: map<string, Json>, inner: string, t: Templates)
    requires item.Ref? && item.id < |nodes| && nodes[item.id].Dict? && nodes[item.id].fields.Keys == fields.Keys
    requires inner in fields && Rooted(nodes, nodes[item.id].fields[inner], fields[inner], t)
    requires !Uses(nodes, nodes[item.id].fields[inner], fields[inner], item.id)
    requires forall k :: k in fields && k != inner ==>
      fields[k].Leaf? && nodes[item.id].fields[k] == Plain(fields[k].text)
    ensures Rooted(nodes, item, Obj(fields), t)
    ensures forall j: nat ::
      Uses(nodes, item, Obj(fields), j) <==>
      j == item.id || Uses(nodes, nodes[item.id].fields[inner], fields[inner], j)
  {
    var d := Obj(fields);
    assert Models(nodes, item, d);
    forall c, j: nat | Has(d, c) && Uses(nodes, Held(nodes[item.id], c), Part(d, c), j)
      ensures c == Name(inner)
    {
    }
    forall c | Has(d, c) ensures Tree(nodes, Held(nodes[item.id], c), Part(d, c)) {
      if c != Name(inner) { assert Part(d, c).Leaf?; }
    }
    assert Has(d, Name(inner));
  }

  function MetaNode(key: Key): Node {
    Dict(map["name" := Plain(key.1), "namespace" := Plain("ticketing")])
  }

  function PatchNode(key: Key, meta: nat): Node {
    var (api, kind) := if key.0 in KIND_MAP then KIND_MAP[key.0] else ("", "");
    Dict(map["apiVersion" := Plain(api), "kind" := Plain(kind), "metadata" := Ref(meta)])
  }

  function GetNode(): Node {
    Dict(map["path" := Plain("/health"), "port" := Plain("http")])
  }

  function ProbeNode(delay: string, period: string, get: nat): Node {
    Dict(map["httpGet" := Ref(get), "initialDelaySeconds" := Plain(delay), "periodSeconds" := Plain(period),
             "failureThreshold" := Plain("3")])
  }

  /** The templates, each with its httpGet object before it. */
  const TEMPLATE_NODES: seq<Node> := [GetNode(), ProbeNode("10", "10", 0), GetNode(), ProbeNode("5", "5", 2)]

  lemma NewPatchStands(nodes: seq<Node>, n: nat, item: Item, key: Key, t: Templates)
    requires n + 1 < |nodes| && nodes[n] == MetaNode(key) && nodes[n + 1] == PatchNode(key, n) && item == Ref(n + 1)
    ensures Rooted(nodes, item, NewPatch(key), t)
    ensures forall j: nat :: Uses(nodes, item, NewPatch(key), j) ==> j >= n
  {
    hide Rooted, Uses;
    var inner := NewPatch(key).fields["metadata"];
    StandsFlat(nodes, Ref(n), inner.fields, t);
    StandsOver(nodes, item, NewPatch(key).fields, "metadata", t);
  }

  lemma ProbeStands(nodes: seq<Node>, n: nat, item: Item, delay: string, period: string, t: Templates)
    requires n + 1 < |nodes| && nodes[n] == GetNode() && nodes[n + 1] == ProbeNode(delay, period, n)
    requires item == Ref(n + 1)
    ensures Rooted(nodes, item, Probe(delay, period), t)
    ensures forall j: nat :: Uses(nodes, item, Probe(delay, period), j) ==> n <= j <= n + 1
  {
    hide Rooted, Uses;
    var inner := Probe(delay, period).fields["httpGet"];
    StandsFlat(nodes, Ref(n), inner.fields, t);
    StandsOver(nodes, item, Probe(delay, period).fields, "httpGet", t);
  }

  lemma TemplatesStored()
    ensures Stored(TEMPLATE_NODES, map[], map[], PRISTINE)
  {
    hide Rooted, Uses, Probe, ProbeNode, GetNode;
    ProbeStands(TEMPLATE_NODES, 0, Ref(1), "10", "10", PRISTINE);
    ProbeStands(TEMPLATE_NODES, 2, Ref(3), "5", "5", PRISTINE);
  }

  lemma PathAlternates(rec: Rec)
    ensures Alternates(PathOf(rec))
  {
    if AddsProbe(rec) {
      ExpandAlternates(Split(BeforeLast(rec.field, "." + ProbeOf(rec.field).value, |rec.field|), '.')
                       + [ProbeOf(rec.field).value]);
    } else {
      ExpandAlternates(Split(rec.field, '.'));
    }
    hide Expand, Split, BeforeLast, EndsWith, Alternates;
  }

  /** What is assigned owns no node. */
  lemma ItemStands(nodes: seq<Node>, roots: map<Key, Item>, docs: map<Key, Json>, t: Templates, rec: Rec, v: Item)
    requires Stored(nodes, roots, docs, t) && t.Keys == PRISTINE.Keys && v == AssignedItem(rec)
    ensures Rooted(nodes, v, ItemOf(rec), t) && forall j: nat :: !Uses(nodes, v, ItemOf(rec), j)
  {
    if AddsProbe(rec) {
      var o := Template(TemplateOf(rec));
      assert Present(o, docs, t);
      assert Rooted(nodes, RootOf(o, roots), DocOf(o, docs, t), t);
    }
    hide AddsProbe, TemplateOf, PRISTINE;
  }

  /** The value of the recommendation as it is assigned: a plain value, or the template's node. */
  function AssignedItem(rec: Rec): Item {
    if AddsProbe(rec) then Ref(TemplateOf(rec)) else Plain(rec.value)
  }

  /** set_nested may be called. */
  lemma CanSet(nodes: seq<Node>, roots: map<Key, Item>, docs: map<Key, Json>, t: Templates, key: Key, v: Item, w: Json)
    requires Stored(nodes, roots, docs, t) && key in docs && Rooted(nodes, v, w, t)
    requires forall j: nat :: !Uses(nodes, v, w, j)
    ensures Rooted(nodes, roots[key], docs[key], t) && Provided(nodes, t)
    ensures ApartFrom(nodes, v, w, roots[key], docs[key], t)
  {
    hide Models, Tree, Uses, Closed;
    assert Present(Patch(key), docs, t);
    forall id | id in t ensures Rooted(nodes, Ref(id), t[id], t) { assert Present(Template(id), docs, t); }
  }

  /** What set_nested wrote is the step of `ShareStep`. */
  lemma WasSet(was: seq<Node>, nodes: seq<Node>, roots: map<Key, Item>, docs: map<Key, Json>, t: Templates, key: Key,
      path: seq<Cell>, v: Item, w: Json)
    requires Stored(was, roots, docs, t) && key in docs && path != [] && Rooted(was, v, w, t)
    requires forall j: nat :: !Uses(was, v, w, j)
    requires var (base, rest) := Find(t, None, docs[key], [], path); var doc := BaseDoc(docs[key], t, base);
      && Set(doc, rest, w).Some?
      && Written(was, nodes, BaseItem(roots[key], base), doc, Set(doc, rest, w).value, v, w)
    ensures var (base, rest) := Find(t, None, docs[key], [], path);
      var e := Set(BaseDoc(docs[key], t, base), rest, w).value;
      && !e.Shared?
      && Stored(nodes, roots, if base.None? then docs[key := e] else docs,
                if base.None? then t else t[base.value := e])
  {
    var (base, rest) := Find(t, None, docs[key], [], path);
    var o := if base.None? then Patch(key) else Template(base.value);
    var doc := BaseDoc(docs[key], t, base);
    var e := Set(doc, rest, w).value;
    hide Models, Tree, Uses, Closed, Set, Find;
    assert Present(o, docs, t) && RootOf(o, roots) == BaseItem(roots[key], base) && DocOf(o, docs, t) == doc;
    assert Rooted(was, RootOf(o, roots), DocOf(o, docs, t), t);
    ClosedSet(doc, rest, w, t);
    StoredWrite(was, nodes, roots, docs, t, o, e,
                if base.None? then docs[key := e] else docs, if base.None? then t else t[base.value := e]);
  }

  class Builder {
    const store: Documents
    var roots: map<Key, Item>
    var comments: map<Key, seq<Rec>>
    var manual: seq<Rec>
    ghost var docs: map<Key, Json>
    ghost var tpls: Templates

    ghost predicate Valid()
      reads this, store
    {
      Stored(store.nodes, roots, docs, tpls) && tpls.Keys == PRISTINE.Keys
    }

    /** What the store, the comments and the manual list amount to. */
    ghost function View(): Sharing
      reads this
    {
      Sharing(docs, tpls, comments, manual)
    }

    constructor ()
      ensures Valid() && fresh(store) && View() == NO_PATCHES
    {
      store := new Documents(TEMPLATE_NODES);
      roots, comments, manual := map[], map[], [];
      docs, tpls := map[], PRISTINE;
      new;
      TemplatesStored();
    }

    /** setdefault of a patch. */
    method AddPatch(key: Key)
      requires Valid()
      modifies this, store
      ensures Valid() && key in roots && View() == old(View()).(docs := old(docs)[key := PatchFor(old(docs), key)])
    {
      if key in roots {
        assert docs == docs[key := PatchFor(docs, key)];
        return;
      }
      ghost var was, n := store.nodes, |store.nodes|;
      store.nodes := store.nodes + [MetaNode(key), PatchNode(key, |store.nodes|)];
      var item := Ref(|store.nodes| - 1);
      NewPatchStands(store.nodes, n, item, key, tpls);
      StoredNew(was, store.nodes, roots, docs, tpls, key, item, NewPatch(key));
      roots := roots[key := item];
      docs := docs[key := NewPatch(key)];
    }

    /** One recommendation; false where the whole build raises. */
    method Apply(rec: Rec) returns (ok: bool)
      requires Valid()
      modifies this, store
      ensures ok <==> ShareStep(old(View()), rec).Some?
      ensures ok ==> Valid() && View() == ShareStep(old(View()), rec).value
    {
      hide Stored, KeyOf, PathOf, AddsProbe, Set, Find, PatchFor, Models, Tree, Uses, Closed, Alternates, TemplateOf,
        PRISTINE, Provided, ApartFrom, Written;
      var k := KeyOf(rec);
      if k.None? {
        manual := manual + [rec];
        return true;
      }
      AddPatch(k.value);
      ghost var was, d, w := store.nodes, docs[k.value], ItemOf(rec);
      var path, v := PathOf(rec), AssignedItem(rec);
      PathAlternates(rec);
      ItemStands(was, roots, docs, tpls, rec, v);
      InStored(was, roots, docs, tpls);
      CanSet(was, roots, docs, tpls, k.value, v, w);
      ok := store.SetNested(roots[k.value], path, v, d, tpls, w);
      if !ok {
        manual := if AddsProbe(rec) then manual else manual + [rec];
        return !AddsProbe(rec);
      }
      WasSet(was, store.nodes, roots, docs, tpls, k.value, path, v, w);
      ghost var (base, rest) := Find(tpls, None, d, [], path);
      ghost var e := Set(BaseDoc(d, tpls, base), rest, w).value;
      docs := if base.None? then docs[k.value := e] else docs;
      tpls := if base.None? then tpls else tpls[base.value := e];
      comments := comments[k.value := (if k.value in comments then comments[k.value] else []) + [rec]];
    }

    /** build_patches; false where it raises. */
    method BuildPatches(recs: seq<Rec>) returns (ok: bool)
      requires Valid() && View() == NO_PATCHES
      modifies this, store
      ensures ok <==> ShareBuild(recs).Some?
      ensures ok ==> Valid() && View() == ShareBuild(recs).value
    {
      hide Stored, ShareStep, PRISTINE;
      for i := 0 to |recs|
        invariant Valid() && ShareBuild(recs[..i]) == Some(View())
      {
        assert recs[..i + 1][..i] == recs[..i] && recs[..i + 1][i] == recs[i];
        ok := Apply(recs[i]);
        if !ok {
          RaisesOn(recs, i + 1);
          return;
        }
      }
      assert recs[..|recs|] == recs;
      ok := true;
    }
  }

  lemma InStored(nodes: seq<Node>, roots: map<Key, Item>, docs: map<Key, Json>, t: Templates)
    requires Stored(nodes, roots, docs, t)
    ensures roots.Keys == docs.Keys
  {
  }

  /** A build that raised early raises. */
  lemma {:induction false} RaisesOn(recs: seq<Rec>, n: nat)
    requires n <= |recs| && ShareBuild(recs[..n]).None?
    ensures ShareBuild(recs).None?
    decreases |recs|
  {
    if n == |recs| {
      assert recs[..n] == recs;
    } else {
      assert recs[..|recs| - 1][..n] == recs[..n];
      RaisesOn(recs[..|recs| - 1], n);
      hide ShareStep;
    }
  }

  // ---- reading the store -----------------------------------------------------------------------

  /** What is found in the store at a path. */
  function SeenAt(nodes: seq<Node>, item: Item, p: seq<Cell>): Option<Kind>
    decreases |p|
  {
    if item.Plain? then if p == [] then Some(Scalar(item.text)) else None
    else if item.id >= |nodes| then None
    else if p == [] then Some(if nodes[item.id].Dict? then AnObject else AList)
    else if Holds(nodes[item.id], p[0]) then SeenAt(nodes, Held(nodes[item.id], p[0]), p[1..])
    else None
  }

  /** Reading the store is reading the document, references followed. */
  lemma {:induction false} SeenIsLook(nodes: seq<Node>, t: Templates, item: Item, d: Json, p: seq<Cell>)
    requires Provided(nodes, t) && Models(nodes, item, d) && Closed(d, t)
    ensures SeenAt(nodes, item, p) == Look(t, d, p)
    decreases |p|, if d.Shared? then 1 else 0
  {
    if d.Shared? {
      SeenIsLook(nodes, t, Ref(d.id), t[d.id], p);
    } else if p != [] && Has(d, p[0]) {
      hide Provided;
      SeenIsLook(nodes, t, Held(nodes[item.id], p[0]), Part(d, p[0]), p[1..]);
    }
  }

  /** Where nothing is set below a standing probe, every path of every patch in the finished store reads what it
      reads in `Build`, and the comments and the manual list are those of `Build`. */
  lemma StoreReadsAsBuilt(recs: seq<Rec>, nodes: seq<Node>, roots: map<Key, Item>, key: Key, p: seq<Cell>)
    requires NothingBelow(recs) && ShareBuild(recs).Some? && key in roots
    requires var s := ShareBuild(recs).value; Stored(nodes, roots, s.docs, s.tpls)
    ensures Build(recs).Some? && key in Build(recs).value.patches
    ensures SeenAt(nodes, roots[key], p) == Look(map[], Build(recs).value.patches[key], p)
  {
    hide ShareBuild, Build, Look, NothingBelow, Models, Tree, Uses, Closed, PRISTINE;
    var s := ShareBuild(recs).value;
    SharingIsHarmless(recs);
    ReadsAsBuilt(recs);
    forall id | id in s.tpls ensures Rooted(nodes, Ref(id), s.tpls[id], s.tpls) {
      assert Present(Template(id), s.docs, s.tpls);
    }
    assert Present(Patch(key), s.docs, s.tpls);
    SeenIsLook(nodes, s.tpls, roots[key], s.docs[key], p);
  }
}
