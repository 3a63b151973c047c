/** The node tree as a mutable object: the arena of node records, the registry that hands out
    node ids, and the methods of `Node` that change the tree — construction and destruction,
    `add`, `insert`, `remove`, `dispose`, the two invalidation calls, `update_restyle`, the
    property setters, `set_attribute` and the size bookkeeping of `render`. */
module Nodes {
  import opened Wrappers
  import opened Seqs
  import opened Types
  import opened Rendering
  import opened NodeRecords
  import opened Arenas
  import opened Layouts
  import opened Restyles
  import opened RenderBackends

  // ---------------------------------------------------------------------------------------
  // ImGui labels

  function Digit(d: nat): (c: char)
    requires d < 10
    ensures '0' <= c <= '9'
  {
    "0123456789"[d]
  }

  /** `std::to_string` of an id: its decimal digits, most significant first. */
  function DecimalString(n: nat): (s: string)
    ensures 0 < |s| && forall i :: 0 <= i < |s| ==> '0' <= s[i] <= '9'
    ensures |s| == 1 <==> n < 10
  {
    if n < 10 then [Digit(n)] else DecimalString(n / 10) + [Digit(n % 10)]
  }

  /** The value of a string of decimal digits. */
  function DigitsValue(s: string): nat
    requires forall i :: 0 <= i < |s| ==> '0' <= s[i] <= '9'
  {
    if |s| == 0 then 0 else 10 * DigitsValue(s[..|s| - 1]) + (s[|s| - 1] as int - '0' as int)
  }

  /** The decimal string reads back as the id, so distinct ids get distinct strings. */
  lemma {:induction false} DecimalStringReadsBack(n: nat)
    ensures DigitsValue(DecimalString(n)) == n
  {
    var s := DecimalString(n);
    if n >= 10 {
      DecimalStringReadsBack(n / 10);
      assert s[..|s| - 1] == DecimalString(n / 10);
    }
  }

  /** The label a node is constructed with: `##` and its id. */
  function InitialLabel(id: NodeId): string {
    "##" + DecimalString(id)
  }

  /** The label `set_label` gives: the caption (or nothing), `##n` and the id. */
  function CaptionLabel(caption: Option<string>, id: NodeId): string {
    caption.GetOr("") + "##n" + DecimalString(id)
  }

  /** ImGui tells widgets apart by what follows the last `#`: that is the id's decimal string,
      so two nodes never share a label, whatever their captions. */
  lemma LabelsIdentifyNodes(a: Option<string>, x: NodeId, b: Option<string>, y: NodeId)
    ensures CaptionLabel(a, x) == CaptionLabel(b, y) ==> x == y
    ensures InitialLabel(x) == InitialLabel(y) ==> x == y
    ensures InitialLabel(x) != CaptionLabel(b, y)
  {
    if CaptionLabel(a, x) == CaptionLabel(b, y) {
      CaptionLabelsIdentify(a, x, b, y);
    }
    if InitialLabel(x) == InitialLabel(y) {
      InitialLabelsIdentify(x, y);
    }
    InitialIsNoCaption(x, b, y);
  }

  lemma CaptionLabelsIdentify(a: Option<string>, x: NodeId, b: Option<string>, y: NodeId)
    requires CaptionLabel(a, x) == CaptionLabel(b, y)
    ensures x == y
  {
    TailIdentifiesDigits(CaptionLabel(a, x), a.GetOr("") + "##n", DecimalString(x), b.GetOr("") + "##n",
                         DecimalString(y));
    DecimalStringReadsBack(x);
    DecimalStringReadsBack(y);
  }

  lemma InitialLabelsIdentify(x: NodeId, y: NodeId)
    requires InitialLabel(x) == InitialLabel(y)
    ensures x == y
  {
    assert DecimalString(x) == InitialLabel(x)[2..] && DecimalString(y) == InitialLabel(y)[2..];
    DecimalStringReadsBack(x);
    DecimalStringReadsBack(y);
  }

  /** A constructed label has no `n` where a `set_label` label has the one after its `##`. */
  lemma InitialIsNoCaption(x: NodeId, b: Option<string>, y: NodeId)
    ensures InitialLabel(x) != CaptionLabel(b, y)
  {
    var l := CaptionLabel(b, y);
    var k := |b.GetOr("")| + 2;
    assert l[k] == 'n';
    if k < |InitialLabel(x)| {
      assert InitialLabel(x)[k] == DecimalString(x)[k - 2];
    }
  }

  /** Two splittings of one string into a prefix ending in `#` and a digit string agree on
      the digits. */
  lemma TailIdentifiesDigits(s: string, p1: string, d1: string, p2: string, d2: string)
    requires s == p1 + d1 && s == p2 + d2
    requires 0 < |p1| && p1[|p1| - 1] !in "0123456789" && 0 < |p2| && p2[|p2| - 1] !in "0123456789"
    requires forall i :: 0 <= i < |d1| ==> '0' <= d1[i] <= '9'
    requires forall i :: 0 <= i < |d2| ==> '0' <= d2[i] <= '9'
    ensures d1 == d2
  {
    var j1, j2 := |p1| - 1, |p2| - 1;
    assert s[j1] == p1[j1] && s[j2] == p2[j2];
    forall i | |p2| <= i < |s| ensures '0' <= s[i] <= '9' {
      assert s[i] == d2[i - |p2|];
    }
    forall i | |p1| <= i < |s| ensures '0' <= s[i] <= '9' {
      assert s[i] == d1[i - |p1|];
    }
    assert |p1| == |p2|;
    assert d1 == s[|p1|..] && d2 == s[|p2|..];
  }

  // ---------------------------------------------------------------------------------------
  // the tree

  /** The registry: every live node has a label, a rank and an id below the next fresh one;
      the pool holds distinct released ids, none of them live. */
  ghost predicate RegistryOf(nodes: Arena, labels: map<NodeId, string>, rank: map<NodeId, nat>,
                             pool: seq<NodeId>, maxId: nat)
  {
    labels.Keys == nodes.Keys && rank.Keys == nodes.Keys &&
    (forall x :: x in nodes ==> x < maxId) &&
    (forall i :: 0 <= i < |pool| ==> pool[i] < maxId && pool[i] !in nodes) &&
    (forall i, j :: 0 <= i < j < |pool| ==> pool[i] != pool[j])
  }

  /** `registry::add` hands out an id that is not live, and the registry stays sound. */
  lemma RegistryAdd(nodes: Arena, labels: map<NodeId, string>, rank: map<NodeId, nat>, pool: seq<NodeId>,
                    maxId: nat, rec: NodeRec, text: string)
    requires RegistryOf(nodes, labels, rank, pool, maxId)
    ensures |pool| == 0 ==>
              maxId !in nodes &&
              RegistryOf(nodes[maxId := rec], labels[maxId := text], rank[maxId := 0], pool, maxId + 1)
    ensures |pool| > 0 ==>
              pool[|pool| - 1] !in nodes &&
              RegistryOf(nodes[pool[|pool| - 1] := rec], labels[pool[|pool| - 1] := text],
                         rank[pool[|pool| - 1] := 0], pool[..|pool| - 1], maxId)
  {
  }

  /** `registry::release` of a live id keeps the registry sound. */
  lemma RegistryRelease(nodes: Arena, labels: map<NodeId, string>, rank: map<NodeId, nat>, pool: seq<NodeId>,
                        maxId: nat, r: Arena, id: NodeId)
    requires RegistryOf(nodes, labels, rank, pool, maxId) && id in nodes && r.Keys == nodes.Keys - {id}
    ensures RegistryOf(r, labels - {id}, rank - {id}, pool + [id], maxId)
  {
  }

  /** A closed, coherent arena with a sound registry. */
  ghost predicate TreeValid(nodes: Arena, labels: map<NodeId, string>, rank: map<NodeId, nat>, bound: nat,
                            pool: seq<NodeId>, maxId: nat)
  {
    Closed(nodes, rank, bound) && Coherent(nodes) && RegistryOf(nodes, labels, rank, pool, maxId)
  }

  /** Destroying a node that no child list holds keeps the tree valid. */
  lemma ReleaseValid(nodes: Arena, labels: map<NodeId, string>, rank: map<NodeId, nat>, bound: nat,
                     pool: seq<NodeId>, maxId: nat, id: NodeId, nodes': Arena)
    requires TreeValid(nodes, labels, rank, bound, pool, maxId) && id in nodes
    requires forall x :: x in nodes ==> id !in nodes[x].children
    requires nodes' == Orphan(nodes, nodes[id].children) - {id}
    ensures TreeValid(nodes', labels - {id}, rank - {id}, bound, pool + [id], maxId)
  {
    assert nodes'.Keys == nodes.Keys - {id};
    ReleaseKeepsClosed(nodes, rank, bound, id);
    RegistryRelease(nodes, labels, rank, pool, maxId, nodes', id);
  }

  /** Valid, except that node `e` may lack coherence. */
  ghost predicate TreeValidExcept(nodes: Arena, labels: map<NodeId, string>, rank: map<NodeId, nat>, bound: nat,
                                  pool: seq<NodeId>, maxId: nat, e: NodeId)
  {
    Closed(nodes, rank, bound) && CoherentExcept(nodes, e) && RegistryOf(nodes, labels, rank, pool, maxId)
  }

  /** `set_needs_update` on the one node that may lack coherence makes the tree valid. */
  lemma InvalidateValid(nodes: Arena, labels: map<NodeId, string>, rank: map<NodeId, nat>, bound: nat,
                        pool: seq<NodeId>, maxId: nat, id: NodeId, nodes': Arena)
    requires TreeValidExcept(nodes, labels, rank, bound, pool, maxId, id) && id in nodes
    requires nodes' == Invalidate(nodes, rank, bound, id)
    ensures TreeValid(nodes', labels, rank, bound, pool, maxId)
  {
    SameShapeClosed(nodes, nodes', rank, bound);
    InvalidateRestoresCoherence(nodes, rank, bound, id);
  }

  /** An accepted `add` or `insert` links the node into a tree that stays valid under the new
      ranking, except for the node's own coherence, which the `set_needs_restyle` that follows
      restores. */
  lemma LinkValid(nodes: Arena, labels: map<NodeId, string>, rank: map<NodeId, nat>, bound: nat,
                  pool: seq<NodeId>, maxId: nat, p: NodeId, c: NodeId, index: nat)
    requires TreeValid(nodes, labels, rank, bound, pool, maxId) && p in nodes && c in nodes
    requires index <= |nodes[p].children| && BeforeAdd(nodes, rank, p, c).Pass?
    ensures TreeValidExcept(Link(nodes, p, c, index), labels, Rerank(nodes, rank, p, c), bound + rank[c] + 1,
                            pool, maxId, c)
  {
    LinkKeepsClosed(nodes, rank, bound, p, c, index);
    LinkKeepsCoherentExcept(nodes, p, c, index);
  }

  /** `remove`'s unlinking keeps the tree valid. */
  lemma UnlinkValid(nodes: Arena, labels: map<NodeId, string>, rank: map<NodeId, nat>, bound: nat,
                    pool: seq<NodeId>, maxId: nat, p: NodeId, c: NodeId)
    requires TreeValid(nodes, labels, rank, bound, pool, maxId) && p in nodes && c in nodes
    ensures TreeValid(Unlink(nodes, p, c), labels, rank, bound, pool, maxId)
    ensures LayersOf(Unlink(nodes, p, c)) == LayersOf(nodes)
  {
    UnlinkKeepsClosed(nodes, rank, bound, p, c);
    UnlinkShape(nodes, p, c);
    SameLayers(nodes, Unlink(nodes, p, c));
  }

  /** Replacing a node's record by one with the same links, layer and flags keeps the tree
      valid, except that the node's coherence is lost when its visibility changes. */
  lemma StoreValid(nodes: Arena, labels: map<NodeId, string>, rank: map<NodeId, nat>, bound: nat,
                   pool: seq<NodeId>, maxId: nat, id: NodeId, rec: NodeRec)
    requires TreeValid(nodes, labels, rank, bound, pool, maxId) && id in nodes
    requires rec.parent == nodes[id].parent && rec.children == nodes[id].children
    requires rec.layer == nodes[id].layer
    requires rec.needsUpdate == nodes[id].needsUpdate && rec.needsRestyle == nodes[id].needsRestyle
    ensures TreeValidExcept(nodes[id := rec], labels, rank, bound, pool, maxId, id)
    ensures rec.visible == nodes[id].visible ==> TreeValid(nodes[id := rec], labels, rank, bound, pool, maxId)
    ensures LayersOf(nodes[id := rec]) == LayersOf(nodes)
  {
    StoreKeeps(nodes, nodes[id := rec], rank, bound, id, rec);
  }

  /** The arena part of StoreValid, for any `m` that is `nodes` with `id`'s record replaced. */
  lemma StoreKeeps(nodes: Arena, m: Arena, rank: map<NodeId, nat>, bound: nat, id: NodeId, rec: NodeRec)
    requires Closed(nodes, rank, bound) && Coherent(nodes) && id in nodes
    requires m.Keys == nodes.Keys && m[id] == rec && forall y :: y in nodes && y != id ==> m[y] == nodes[y]
    requires rec.parent == nodes[id].parent && rec.children == nodes[id].children
    requires rec.layer == nodes[id].layer
    requires rec.needsUpdate == nodes[id].needsUpdate && rec.needsRestyle == nodes[id].needsRestyle
    ensures Closed(m, rank, bound) && CoherentExcept(m, id)
    ensures rec.visible == nodes[id].visible ==> Coherent(m)
    ensures LayersOf(m) == LayersOf(nodes)
  {
    SameLinksClosed(nodes, m, rank, bound);
    forall y | y in m && (y != id || rec.visible == nodes[id].visible) ensures NodeCoherent(m, y) {
      assert NodeCoherent(nodes, y);
    }
    SameLayers(nodes, m);
  }

  /** `update_restyle` keeps the tree valid. */
  lemma RestyleValid(nodes: Arena, labels: map<NodeId, string>, rank: map<NodeId, nat>, bound: nat,
                     pool: seq<NodeId>, maxId: nat, id: NodeId, force: bool, ctx: Context, style: ImStyle)
    requires TreeValid(nodes, labels, rank, bound, pool, maxId) && id in nodes
    ensures TreeValid(Restyle(nodes, rank, id, force, ctx, style).nodes, labels, rank, bound, pool, maxId)
  {
    SameShapeClosed(nodes, Restyle(nodes, rank, id, force, ctx, style).nodes, rank, bound);
    RestyleKeepsCoherent(nodes, rank, id, force, ctx, style);
  }

  /** `set_needs_update` sets only `needs_update` flags: the node's own, and possibly some of
      other nodes'; every other field of every record is kept. */
  lemma InvalidateTouchesOnlyUpdateFlags(m: Arena, rank: map<NodeId, nat>, bound: nat, id: NodeId)
    requires Closed(m, rank, bound) && id in m
    ensures Invalidate(m, rank, bound, id).Keys == m.Keys
    ensures Invalidate(m, rank, bound, id)[id] == m[id].(needsUpdate := true)
    ensures forall y :: y in m ==>
              Invalidate(m, rank, bound, id)[y] == m[y].(needsUpdate := Invalidate(m, rank, bound, id)[y].needsUpdate)
  {
    InvalidateMarksUnmarkedPrefix(m, rank, bound, id);
  }

  /** Changing a label keeps the tree valid: the registry only needs a label per node. */
  lemma RelabelValid(nodes: Arena, labels: map<NodeId, string>, rank: map<NodeId, nat>, bound: nat,
                     pool: seq<NodeId>, maxId: nat, id: NodeId, text: string)
    requires TreeValid(nodes, labels, rank, bound, pool, maxId) && id in nodes
    ensures TreeValid(nodes, labels[id := text], rank, bound, pool, maxId)
  {
  }

  /** The attributes `set_attribute` knows. */
  const AttributeNames: set<string> := {"label", "width", "height"}

  /** All nodes of one thread: the records by id, their ImGui labels, and the registry's pool
      of released ids and next fresh id. The ranking and its bound exist only for the proofs:
      they witness that every walk down the child lists and up the parent links ends. */
  class Tree {
    var nodes: Arena
    var imguiLabels: map<NodeId, string>
    var pool: seq<NodeId>
    var maxId: nat
    ghost var rank: map<NodeId, nat>
    ghost var bound: nat

    ghost predicate Registry()
      reads this
    {
      RegistryOf(nodes, imguiLabels, rank, pool, maxId)
    }

    ghost predicate Valid()
      reads this
    {
      TreeValid(nodes, imguiLabels, rank, bound, pool, maxId)
    }

    /** Valid, except that node `e` may lack coherence (between a change and the
        `set_needs_update` that follows it). */
    ghost predicate ValidExcept(e: NodeId)
      reads this
    {
      TreeValidExcept(nodes, imguiLabels, rank, bound, pool, maxId, e)
    }

    /** Every layer of the tree keeps a target exactly when it keeps a backend. */
    ghost predicate LayersValid()
      reads this, LayersOf(nodes)
    {
      forall l :: l in LayersOf(nodes) ==> l.Valid()
    }

    /** The backends the tree's layers hold. */
    ghost function Backends(): set<RenderBackend>
      reads this, LayersOf(nodes)
    {
      BackendsOf(LayersOf(nodes))
    }

    /** An empty tree with a fresh registry. */
    constructor()
      ensures Valid() && nodes == map[] && pool == [] && maxId == 0
    {
      nodes := map[];
      imguiLabels := map[];
      pool := [];
      maxId := 0;
      rank := map[];
      bound := 0;
    }

    /** The `Node` constructor with `registry::add`: the id is the last released one if any (the
        pool is a stack), the next fresh one otherwise; the new record has no parent and no
        children and needs an update and a restyle. */
    method Create(layer: Option<RenderLayer>, width: LayoutLength, height: LayoutLength,
                  layout: Option<LayoutProps>) returns (id: NodeId)
      requires Valid()
      modifies this
      ensures Valid()
      ensures id !in old(nodes)
      ensures |old(pool)| == 0 ==> id == old(maxId) && maxId == old(maxId) + 1 && pool == []
      ensures |old(pool)| > 0 ==> id == old(pool)[|old(pool)| - 1] && maxId == old(maxId) &&
                                  pool == old(pool)[..|old(pool)| - 1]
      ensures nodes == old(nodes)[id := NewRec(layer, width, height, layout)]
      ensures imguiLabels == old(imguiLabels)[id := InitialLabel(id)]
    {
      if |pool| == 0 {
        id := maxId;
        maxId := maxId + 1;
      } else {
        id := pool[|pool| - 1];
        pool := pool[..|pool| - 1];
      }
      RegistryAdd(nodes, imguiLabels, rank, old(pool), old(maxId), NewRec(layer, width, height, layout),
                  InitialLabel(id));
      FreshKeepsClosed(nodes, rank, bound, id, NewRec(layer, width, height, layout));
      nodes := nodes[id := NewRec(layer, width, height, layout)];
      imguiLabels := imguiLabels[id := InitialLabel(id)];
      rank := rank[id := 0];
      bound := bound + 1;
    }

    /** `registry::count`. */
    function NodeCount(): (n: nat)
      reads this
      requires Registry()
      ensures n == |imguiLabels|
    {
      |nodes|
    }

    /** The loop of the `Node` destructor: every listed child loses its parent. */
    method ClearParents(ks: seq<NodeId>)
      requires forall k :: k in ks ==> k in nodes
      modifies this`nodes
      ensures nodes == Orphan(old(nodes), ks)
    {
      var i := 0;
      while i < |ks|
        invariant 0 <= i <= |ks|
        invariant nodes.Keys == old(nodes).Keys
        invariant Orphan(nodes, ks[i..]) == Orphan(old(nodes), ks)
      {
        assert ks[i..][1..] == ks[i + 1..];
        nodes := nodes[ks[i] := nodes[ks[i]].(parent := None)];
        i := i + 1;
      }
      assert ks[|ks|..] == [];
    }

    /** The `Node` destructor with `registry::release`, run when no child list holds the node
        any more: its children lose their parent, its id goes onto the pool and its record and
        label leave the tree. */
    method Destroy(id: NodeId)
      requires Valid() && id in nodes && forall x :: x in nodes ==> id !in nodes[x].children
      modifies this`nodes, this`imguiLabels, this`rank, this`pool
      ensures Valid()
      ensures nodes == Orphan(old(nodes), old(nodes)[id].children) - {id}
      ensures pool == old(pool) + [id]
      ensures imguiLabels == old(imguiLabels) - {id}
    {
      ClearParents(nodes[id].children);
      ReleaseValid(old(nodes), imguiLabels, rank, bound, pool, maxId, id, nodes - {id});
      Release(id);
    }

    /** `registry::release` once the destructor's loop has run: the id goes onto the pool and
        the node's record and label leave the tree. */
    method Release(id: NodeId)
      requires TreeValid(nodes - {id}, imguiLabels - {id}, rank - {id}, bound, pool + [id], maxId)
      modifies this`nodes, this`imguiLabels, this`rank, this`pool
      ensures Valid()
      ensures nodes == old(nodes) - {id} && pool == old(pool) + [id]
      ensures imguiLabels == old(imguiLabels) - {id}
    {
      nodes, imguiLabels, rank, pool := nodes - {id}, imguiLabels - {id}, rank - {id}, pool + [id];
    }

    /** The first loop of `set_needs_update`: the nearest layer from the node upward is set
        dirty, and nothing else changes. */
    method DirtyNearestLayer(id: NodeId)
      requires Closed(nodes, rank, bound) && id in nodes
      modifies LayersOf(nodes)
      ensures Views(LayersOf(nodes)) ==
                MarkDirty(old(Views(LayersOf(nodes))), LayerSet(NearestLayer(nodes, rank, bound, Some(id))))
    {
      ghost var ls := LayersOf(nodes);
      ghost var target := NearestLayer(nodes, rank, bound, Some(id));
      var it: Option<NodeId> := Some(id);
      while it.Some?
        invariant it.Some? ==> it.value in nodes
        invariant NearestLayer(nodes, rank, bound, it) == target
        invariant Views(ls) == old(Views(ls))
        decreases if it.Some? then bound - rank[it.value] else 0
      {
        var x := it.value;
        if nodes[x].layer.Some? {
          var l := nodes[x].layer.value;
          l.SetDirty();
          return;
        }
        it := nodes[x].parent;
      }
      MarkDirtyNothing(Views(ls));
    }

    /** The second loop of `set_needs_update`: from `it` upward, every node is marked until one
        that already is. */
    method MarkUpFrom(it: Option<NodeId>)
      requires Closed(nodes, rank, bound) && (it.Some? ==> it.value in nodes)
      modifies this`nodes
      ensures nodes == MarkUp(old(nodes), rank, bound, it)
    {
      var at := it;
      while at.Some?
        invariant at.Some? ==> at.value in nodes
        invariant Closed(nodes, rank, bound)
        invariant MarkUp(nodes, rank, bound, at) == MarkUp(old(nodes), rank, bound, it)
        decreases if at.Some? then bound - rank[at.value] else 0
      {
        var x := at.value;
        if nodes[x].needsUpdate {
          break;
        }
        SameShapeClosed(nodes, Mark(nodes, x), rank, bound);
        nodes := nodes[x := nodes[x].(needsUpdate := true)];
        at := nodes[x].parent;
      }
    }

    /** `set_needs_update`: first the nearest layer from the node upward is marked dirty, then
        the node and its ancestors up to the first one already marked are marked. Called on the
        one node that may lack coherence, it leaves the whole tree coherent. */
    method SetNeedsUpdate(id: NodeId)
      requires ValidExcept(id) && id in nodes
      modifies this`nodes, LayersOf(nodes)
      ensures Valid()
      ensures nodes == Invalidate(old(nodes), rank, bound, id)
      ensures Views(LayersOf(old(nodes))) ==
                MarkDirty(old(Views(LayersOf(nodes))), LayerSet(NearestLayer(old(nodes), rank, bound, Some(id))))
      ensures LayersValid() <==> old(LayersValid())
    {
      ghost var ls := LayersOf(nodes);
      DirtyNearestLayer(id);
      MarkDirtyKeepsValid(ls, LayerSet(NearestLayer(nodes, rank, bound, Some(id))));
      label dirtied:
      MarkSelfAndUp(id);
      ViewsFramed@dirtied(ls);
      SameLayers(old(nodes), nodes);
    }

    /** The node part of `set_needs_update`: the node is marked, then the second loop runs
        from its parent. */
    method MarkSelfAndUp(id: NodeId)
      requires ValidExcept(id) && id in nodes
      modifies this`nodes
      ensures Valid()
      ensures nodes == Invalidate(old(nodes), rank, bound, id)
    {
      SameShapeClosed(nodes, Mark(nodes, id), rank, bound);
      nodes := nodes[id := nodes[id].(needsUpdate := true)];
      MarkUpFrom(nodes[id].parent);
      InvalidateValid(old(nodes), imguiLabels, rank, bound, pool, maxId, id, nodes);
    }

    /** `set_needs_restyle`: mark the node for a restyle, then `set_needs_update`. */
    method SetNeedsRestyle(id: NodeId)
      requires ValidExcept(id) && id in nodes
      modifies this`nodes, LayersOf(nodes)
      ensures Valid() && Closed(MarkRestyle(old(nodes), id), rank, bound)
      ensures nodes == Invalidate(MarkRestyle(old(nodes), id), rank, bound, id)
      ensures Views(LayersOf(old(nodes))) ==
                MarkDirty(old(Views(LayersOf(nodes))), LayerSet(NearestLayer(old(nodes), rank, bound, Some(id))))
    {
      SameShapeClosed(nodes, MarkRestyle(nodes, id), rank, bound);
      NearestLayerReadsLayers(nodes, MarkRestyle(nodes, id), rank, bound, Some(id));
      SameLayers(nodes, MarkRestyle(nodes, id));
      MarkRestyleKeepsCoherentExcept(nodes, id);
      ghost var ls := LayersOf(nodes);
      nodes := nodes[id := nodes[id].(needsRestyle := true)];
      ViewsFramed(ls);
      SetNeedsUpdate(id);
    }

    // -------------------------------------------------------------------------------------
    // building the tree

    /** `insert(index, c)` on `p`: the corrected `before_add` (no parent yet, and `c` does not
        reach `p`), then `c` gets `p` as its parent and is inserted at `index` among `p`'s
        children, then `set_needs_restyle` on `c`. A refused node leaves everything as it
        was. */
    method Insert(p: NodeId, index: nat, c: NodeId) returns (r: Outcome<string>)
      requires Valid() && p in nodes && c in nodes && index <= |nodes[p].children|
      modifies this`nodes, this`rank, this`bound, LayersOf(nodes)
      ensures Valid()
      ensures r == BeforeAdd(old(nodes), old(rank), p, c)
      ensures r.Fail? ==>
                nodes == old(nodes) && rank == old(rank) && bound == old(bound) &&
                Views(LayersOf(old(nodes))) == old(Views(LayersOf(nodes)))
      ensures r.Pass? ==>
                Closed(Link(old(nodes), p, c, index), rank, bound) &&
                Closed(MarkRestyle(Link(old(nodes), p, c, index), c), rank, bound) &&
                nodes == Invalidate(MarkRestyle(Link(old(nodes), p, c, index), c), rank, bound, c) &&
                Views(LayersOf(old(nodes))) ==
                  MarkDirty(old(Views(LayersOf(nodes))),
                            LayerSet(NearestLayer(Link(old(nodes), p, c, index), rank, bound, Some(c))))
    {
      r := BeforeAdd(nodes, rank, p, c);
      if r.Fail? {
        return;
      }
      Attach(p, index, c);
    }

    /** What `insert` does once the node is accepted: link it, then `set_needs_restyle` on
        it. */
    method Attach(p: NodeId, index: nat, c: NodeId)
      requires Valid() && p in nodes && c in nodes && index <= |nodes[p].children|
      requires BeforeAdd(nodes, rank, p, c).Pass?
      modifies this`nodes, this`rank, this`bound, LayersOf(nodes)
      ensures Valid()
      ensures Closed(Link(old(nodes), p, c, index), rank, bound)
      ensures Closed(MarkRestyle(Link(old(nodes), p, c, index), c), rank, bound)
      ensures nodes == Invalidate(MarkRestyle(Link(old(nodes), p, c, index), c), rank, bound, c)
      ensures Views(LayersOf(old(nodes))) ==
                MarkDirty(old(Views(LayersOf(nodes))),
                          LayerSet(NearestLayer(Link(old(nodes), p, c, index), rank, bound, Some(c))))
    {
      ghost var ls := LayersOf(nodes);
      LinkChild(p, index, c);
      ViewsFramed(ls);
      SetNeedsRestyle(c);
    }

    /** The linking step of `insert`: `c` gets `p` as its parent and is inserted at `index`
        among `p`'s children. */
    method LinkChild(p: NodeId, index: nat, c: NodeId)
      requires Valid() && p in nodes && c in nodes && index <= |nodes[p].children|
      requires BeforeAdd(nodes, rank, p, c).Pass?
      modifies this`nodes, this`rank, this`bound
      ensures ValidExcept(c) && LayersOf(nodes) == LayersOf(old(nodes))
      ensures nodes == Link(old(nodes), p, c, index)
    {
      ghost var rank' := Rerank(nodes, rank, p, c);
      LinkValid(nodes, imguiLabels, rank, bound, pool, maxId, p, c, index);
      SameLayers(nodes, Link(nodes, p, c, index));
      nodes, rank, bound := Link(nodes, p, c, index), rank', bound + rank[c] + 1;
    }

    /** `add(c)` on `p`: `insert` at the end of `p`'s children. */
    method Add(p: NodeId, c: NodeId) returns (r: Outcome<string>)
      requires Valid() && p in nodes && c in nodes
      modifies this`nodes, this`rank, this`bound, LayersOf(nodes)
      ensures Valid()
      ensures r == BeforeAdd(old(nodes), old(rank), p, c)
      ensures r.Fail? ==>
                nodes == old(nodes) && rank == old(rank) && bound == old(bound) &&
                Views(LayersOf(old(nodes))) == old(Views(LayersOf(nodes)))
      ensures r.Pass? ==>
                var linked := Link(old(nodes), p, c, |old(nodes)[p].children|);
                Closed(linked, rank, bound) && Closed(MarkRestyle(linked, c), rank, bound) &&
                nodes == Invalidate(MarkRestyle(linked, c), rank, bound, c) &&
                Views(LayersOf(old(nodes))) ==
                  MarkDirty(old(Views(LayersOf(nodes))), LayerSet(NearestLayer(linked, rank, bound, Some(c))))
    {
      r := Insert(p, |nodes[p].children|, c);
    }

    /** `dispose`: the node's own layer is reset, then every child is disposed in turn. Every
        layer the node reaches hands its target to its backend's deferred delete and drops
        it; nothing else of any layer changes, and the backends only gain pending
        deletions. */
    method Dispose(id: NodeId, ghost bs: set<RenderBackend>)
      requires Ranked(nodes, rank) && id in nodes && LayersValid() && Backends() <= bs
      modifies LayersOf(nodes), bs
      ensures LayersValid() && Backends() <= bs
      ensures Views(LayersOf(nodes)) == DropTargets(old(Views(LayersOf(nodes))), SubLayers(nodes, rank, id))
      ensures AllDeferred(old(BackendViews(bs)), BackendViews(bs))
      decreases rank[id], 1
    {
      ghost var ls := LayersOf(nodes);
      ResetOwnLayer(id, bs);
      ghost var views := Views(ls);
      ghost var backends := BackendViews(bs);
      DisposeChildren(id, bs);
      DropTargetsComposes(old(Views(ls)), LayerSet(nodes[id].layer), SubLayersAny(nodes, rank, nodes[id].children, rank[id]));
      AllDeferredTrans(old(BackendViews(bs)), backends, BackendViews(bs));
    }

    /** The first step of `dispose`: the node's own layer, if any, is reset. */
    method ResetOwnLayer(id: NodeId, ghost bs: set<RenderBackend>)
      requires id in nodes && LayersValid() && Backends() <= bs
      modifies LayersOf(nodes), bs
      ensures LayersValid() && Backends() <= bs
      ensures Views(LayersOf(nodes)) == DropTargets(old(Views(LayersOf(nodes))), LayerSet(nodes[id].layer))
      ensures AllDeferred(old(BackendViews(bs)), BackendViews(bs))
    {
      ghost var ls := LayersOf(nodes);
      var layer := nodes[id].layer;
      if layer.Some? {
        var l := layer.value;
        l.Reset();
        ResetOne(ResetSite(ls, bs, l));
      } else {
        DropTargetsNothing(Views(ls));
        AllDeferredRefl(BackendViews(bs));
      }
    }

    /** The loop of `dispose`: every child is disposed in turn. */
    method DisposeChildren(id: NodeId, ghost bs: set<RenderBackend>)
      requires Ranked(nodes, rank) && id in nodes && LayersValid() && Backends() <= bs
      modifies LayersOf(nodes), bs
      ensures LayersValid() && Backends() <= bs
      ensures Views(LayersOf(nodes)) ==
                DropTargets(old(Views(LayersOf(nodes))), SubLayersAny(nodes, rank, nodes[id].children, rank[id]))
      ensures AllDeferred(old(BackendViews(bs)), BackendViews(bs))
      decreases rank[id], 0
    {
      ghost var ls := LayersOf(nodes);
      var ks := nodes[id].children;
      DropTargetsNothing(Views(ls));
      AllDeferredRefl(BackendViews(bs));
      SubLayersPrefixEnds(nodes, rank, ks, rank[id]);
      var i := 0;
      while i < |ks|
        invariant 0 <= i <= |ks|
        invariant LayersValid() && Backends() <= bs
        invariant Views(ls) == DropTargets(old(Views(ls)), SubLayersPrefix(nodes, rank, ks, i, rank[id]))
        invariant AllDeferred(old(BackendViews(bs)), BackendViews(bs))
      {
        SubLayersPrefixStep(nodes, rank, ks, i, rank[id]);
        ghost var done := SubLayersPrefix(nodes, rank, ks, i, rank[id]);
        ghost var sub := SubLayers(nodes, rank, ks[i]);
        ghost var backends := BackendViews(bs);
        Dispose(ks[i], bs);
        DropTargetsComposes(old(Views(ls)), done, sub);
        AllDeferredTrans(old(BackendViews(bs)), backends, BackendViews(bs));
        i := i + 1;
      }
    }

    /** `remove(c)` on `p`: `c` is disposed, loses its parent and is erased (every occurrence)
        from `p`'s children, then `set_needs_update` on `p`. Whether `c` was a child of `p` is
        not checked. */
    method Remove(p: NodeId, c: NodeId)
      requires Valid() && LayersValid() && p in nodes && c in nodes
      modifies this`nodes, LayersOf(nodes), Backends()
      ensures Valid() && LayersValid()
      ensures Closed(Unlink(old(nodes), p, c), rank, bound)
      ensures nodes == Invalidate(Unlink(old(nodes), p, c), rank, bound, p)
      ensures Views(LayersOf(old(nodes))) ==
                MarkDirty(DropTargets(old(Views(LayersOf(nodes))), SubLayers(old(nodes), rank, c)),
                          LayerSet(NearestLayer(Unlink(old(nodes), p, c), rank, bound, Some(p))))
    {
      Detach(p, c, Backends());
      SetNeedsUpdate(p);
    }

    /** `remove` before its `set_needs_update`: `c` is disposed, then unlinked from `p`. */
    method Detach(p: NodeId, c: NodeId, ghost bs: set<RenderBackend>)
      requires Valid() && LayersValid() && p in nodes && c in nodes && Backends() <= bs
      modifies this`nodes, LayersOf(nodes), bs
      ensures Valid() && LayersValid() && LayersOf(nodes) == LayersOf(old(nodes))
      ensures Closed(Unlink(old(nodes), p, c), rank, bound)
      ensures nodes == Unlink(old(nodes), p, c)
      ensures Views(LayersOf(nodes)) == DropTargets(old(Views(LayersOf(nodes))), SubLayers(old(nodes), rank, c))
      ensures AllDeferred(old(BackendViews(bs)), BackendViews(bs))
    {
      ghost var ls := LayersOf(nodes);
      Dispose(c, bs);
      label disposed:
      UnlinkChild(p, c);
      ViewsFramed@disposed(ls);
    }

    /** The unlinking step of `remove`: `c` loses its parent and every occurrence of it leaves
        `p`'s children. */
    method UnlinkChild(p: NodeId, c: NodeId)
      requires Valid() && p in nodes && c in nodes
      modifies this`nodes
      ensures Valid() && LayersOf(nodes) == LayersOf(old(nodes))
      ensures nodes == Unlink(old(nodes), p, c)
    {
      UnlinkValid(nodes, imguiLabels, rank, bound, pool, maxId, p, c);
      nodes := nodes[c := nodes[c].(parent := None)];
      nodes := nodes[p := nodes[p].(children := Without(nodes[p].children, c))];
    }

    // -------------------------------------------------------------------------------------
    // setters

    /** Store `rec` as the record of `id`, keeping its links, layer and flags. */
    method Store(id: NodeId, rec: NodeRec)
      requires Valid() && id in nodes
      requires rec.parent == nodes[id].parent && rec.children == nodes[id].children
      requires rec.layer == nodes[id].layer
      requires rec.needsUpdate == nodes[id].needsUpdate && rec.needsRestyle == nodes[id].needsRestyle
      modifies this`nodes
      ensures ValidExcept(id) && (rec.visible == old(nodes)[id].visible ==> Valid())
      ensures nodes == old(nodes)[id := rec] && LayersOf(nodes) == LayersOf(old(nodes))
      ensures NearestLayer(nodes, rank, bound, Some(id)) == NearestLayer(old(nodes), rank, bound, Some(id))
    {
      StoreValid(nodes, imguiLabels, rank, bound, pool, maxId, id, rec);
      NearestLayerReadsLayers(nodes, nodes[id := rec], rank, bound, Some(id));
      nodes := nodes[id := rec];
    }

    /** Store `rec` as the record of `id`, then `set_needs_restyle` on it: what `set_visible`,
        `set_width` and `set_height` do when the value changes. */
    method StoreAndRestyle(id: NodeId, rec: NodeRec)
      requires Valid() && id in nodes
      requires rec.parent == nodes[id].parent && rec.children == nodes[id].children
      requires rec.layer == nodes[id].layer
      requires rec.needsUpdate == nodes[id].needsUpdate && rec.needsRestyle == nodes[id].needsRestyle
      modifies this`nodes, LayersOf(nodes)
      ensures Valid() && Closed(MarkRestyle(old(nodes)[id := rec], id), rank, bound)
      ensures nodes == Invalidate(MarkRestyle(old(nodes)[id := rec], id), rank, bound, id)
      ensures Views(LayersOf(old(nodes))) ==
                MarkDirty(old(Views(LayersOf(nodes))), LayerSet(NearestLayer(old(nodes), rank, bound, Some(id))))
    {
      ghost var ls := LayersOf(nodes);
      Store(id, rec);
      ViewsFramed(ls);
      SetNeedsRestyle(id);
    }

    /** Store `rec` as the record of `id`, then `set_needs_update` on it: the tail of
        `set_label` and of the layout setters. */
    method StoreAndUpdate(id: NodeId, rec: NodeRec)
      requires Valid() && id in nodes
      requires rec.parent == nodes[id].parent && rec.children == nodes[id].children
      requires rec.layer == nodes[id].layer && rec.visible == nodes[id].visible
      requires rec.needsUpdate == nodes[id].needsUpdate && rec.needsRestyle == nodes[id].needsRestyle
      modifies this`nodes, LayersOf(nodes)
      ensures Valid() && Closed(old(nodes)[id := rec], rank, bound)
      ensures nodes == Invalidate(old(nodes)[id := rec], rank, bound, id)
      ensures Views(LayersOf(old(nodes))) ==
                MarkDirty(old(Views(LayersOf(nodes))), LayerSet(NearestLayer(old(nodes), rank, bound, Some(id))))
    {
      ghost var ls := LayersOf(nodes);
      Store(id, rec);
      ViewsFramed(ls);
      SetNeedsUpdate(id);
    }

    /** `set_visible`: nothing happens when the value is unchanged; otherwise it is stored and
        the node restyled. */
    method SetVisible(id: NodeId, visible: bool)
      requires Valid() && id in nodes
      modifies this`nodes, LayersOf(nodes)
      ensures Valid() && nodes[id].visible == visible
      ensures old(nodes)[id].visible == visible ==>
                nodes == old(nodes) && Views(LayersOf(old(nodes))) == old(Views(LayersOf(nodes)))
      ensures old(nodes)[id].visible != visible ==>
                Closed(MarkRestyle(old(nodes)[id := old(nodes)[id].(visible := visible)], id), rank, bound) &&
                nodes == Invalidate(MarkRestyle(old(nodes)[id := old(nodes)[id].(visible := visible)], id), rank, bound, id) &&
                Views(LayersOf(old(nodes))) ==
                  MarkDirty(old(Views(LayersOf(nodes))), LayerSet(NearestLayer(old(nodes), rank, bound, Some(id))))
    {
      if nodes[id].visible == visible {
        return;
      }
      StoreAndRestyle(id, nodes[id].(visible := visible));
    }

    /** `set_width`: nothing happens when the new length equals the stored one; otherwise it is
        stored and the node restyled. */
    method SetWidth(id: NodeId, width: LayoutLength)
      requires Valid() && id in nodes
      modifies this`nodes, LayersOf(nodes)
      ensures Valid() && nodes[id].width == width
      ensures LayoutLengthEquals(old(nodes)[id].width, width) ==>
                nodes == old(nodes) && Views(LayersOf(old(nodes))) == old(Views(LayersOf(nodes)))
      ensures !LayoutLengthEquals(old(nodes)[id].width, width) ==>
                Closed(MarkRestyle(old(nodes)[id := old(nodes)[id].(width := width)], id), rank, bound) &&
                nodes == Invalidate(MarkRestyle(old(nodes)[id := old(nodes)[id].(width := width)], id), rank, bound, id) &&
                Views(LayersOf(old(nodes))) ==
                  MarkDirty(old(Views(LayersOf(nodes))), LayerSet(NearestLayer(old(nodes), rank, bound, Some(id))))
    {
      if LayoutLengthEquals(nodes[id].width, width) {
        return;
      }
      StoreAndRestyle(id, nodes[id].(width := width));
      InvalidateTouchesOnlyUpdateFlags(MarkRestyle(old(nodes)[id := old(nodes)[id].(width := width)], id), rank, bound, id);
    }

    /** `set_height`: nothing happens when the new length equals the stored one; otherwise it
        is stored and the node restyled. */
    method SetHeight(id: NodeId, height: LayoutLength)
      requires Valid() && id in nodes
      modifies this`nodes, LayersOf(nodes)
      ensures Valid() && nodes[id].height == height
      ensures LayoutLengthEquals(old(nodes)[id].height, height) ==>
                nodes == old(nodes) && Views(LayersOf(old(nodes))) == old(Views(LayersOf(nodes)))
      ensures !LayoutLengthEquals(old(nodes)[id].height, height) ==>
                Closed(MarkRestyle(old(nodes)[id := old(nodes)[id].(height := height)], id), rank, bound) &&
                nodes == Invalidate(MarkRestyle(old(nodes)[id := old(nodes)[id].(height := height)], id), rank, bound, id) &&
                Views(LayersOf(old(nodes))) ==
                  MarkDirty(old(Views(LayersOf(nodes))), LayerSet(NearestLayer(old(nodes), rank, bound, Some(id))))
    {
      if LayoutLengthEquals(nodes[id].height, height) {
        return;
      }
      StoreAndRestyle(id, nodes[id].(height := height));
      InvalidateTouchesOnlyUpdateFlags(MarkRestyle(old(nodes)[id := old(nodes)[id].(height := height)], id), rank, bound, id);
    }

    /** `set_label`: the caption is stored, the ImGui label rebuilt from it and the id, then
        `set_needs_update`. */
    method SetLabel(id: NodeId, caption: Option<string>)
      requires Valid() && id in nodes
      modifies this`nodes, this`imguiLabels, LayersOf(nodes)
      ensures Valid() && nodes[id].caption == caption
      ensures imguiLabels == old(imguiLabels)[id := CaptionLabel(caption, id)]
      ensures Closed(old(nodes)[id := old(nodes)[id].(caption := caption)], rank, bound)
      ensures nodes == Invalidate(old(nodes)[id := old(nodes)[id].(caption := caption)], rank, bound, id)
      ensures Views(LayersOf(old(nodes))) ==
                MarkDirty(old(Views(LayersOf(nodes))), LayerSet(NearestLayer(old(nodes), rank, bound, Some(id))))
    {
      ghost var ls := LayersOf(nodes);
      RelabelValid(nodes, imguiLabels, rank, bound, pool, maxId, id, CaptionLabel(caption, id));
      imguiLabels := imguiLabels[id := CaptionLabel(caption, id)];
      ViewsFramed(ls);
      StoreAndUpdate(id, nodes[id].(caption := caption));
      InvalidateTouchesOnlyUpdateFlags(old(nodes)[id := old(nodes)[id].(caption := caption)], rank, bound, id);
    }

    /** `set_position`: the position is stored; nothing is invalidated. */
    method SetPosition(id: NodeId, position: Position)
      requires Valid() && id in nodes
      modifies this`nodes
      ensures Valid()
      ensures nodes == old(nodes)[id := old(nodes)[id].(position := position)]
    {
      StoreValid(nodes, imguiLabels, rank, bound, pool, maxId, id, nodes[id].(position := position));
      nodes := nodes[id := nodes[id].(position := position)];
    }

    /** The layout setters (`set_direction`, `set_justify_content`, `set_align_items`,
        `set_spacing`, `set_padding`): the property is stored, then `set_needs_update`. */
    method SetLayoutProps(id: NodeId, props: LayoutProps)
      requires Valid() && id in nodes && nodes[id].layout.Some?
      modifies this`nodes, LayersOf(nodes)
      ensures Valid() && nodes[id].layout == Some(props)
      ensures Closed(old(nodes)[id := old(nodes)[id].(layout := Some(props))], rank, bound)
      ensures nodes == Invalidate(old(nodes)[id := old(nodes)[id].(layout := Some(props))], rank, bound, id)
      ensures Views(LayersOf(old(nodes))) ==
                MarkDirty(old(Views(LayersOf(nodes))), LayerSet(NearestLayer(old(nodes), rank, bound, Some(id))))
    {
      StoreAndUpdate(id, nodes[id].(layout := Some(props)));
      InvalidateTouchesOnlyUpdateFlags(old(nodes)[id := old(nodes)[id].(layout := Some(props))], rank, bound, id);
    }

    /** `set_attribute(name, value)`: `label` sets the caption to `value`; `width` and `height`
        parse `value` with `parse` (the layout-length parser, which throws on malformed text)
        and set that length; any other name is refused. A refused call changes nothing. */
    method SetAttribute(id: NodeId, name: string, value: string, parse: string -> Result<LayoutLength, string>)
      returns (r: Outcome<string>)
      requires Valid() && id in nodes
      modifies this`nodes, this`imguiLabels, LayersOf(nodes)
      ensures Valid()
      ensures r.Fail? <==> name !in AttributeNames || (name != "label" && parse(value).Failure?)
      ensures name !in AttributeNames ==> r == Fail("attribute " + name + " not found")
      ensures name in AttributeNames && name != "label" && parse(value).Failure? ==> r == Fail(parse(value).error)
      ensures r.Fail? ==>
                nodes == old(nodes) && imguiLabels == old(imguiLabels) &&
                Views(LayersOf(old(nodes))) == old(Views(LayersOf(nodes)))
      ensures name == "label" ==>
                nodes[id].caption == Some(value) && imguiLabels == old(imguiLabels)[id := CaptionLabel(Some(value), id)]
      ensures name == "width" && parse(value).Success? ==>
                nodes[id].width == parse(value).value && imguiLabels == old(imguiLabels)
      ensures name == "height" && parse(value).Success? ==>
                nodes[id].height == parse(value).value && imguiLabels == old(imguiLabels)
    {
      if name == "label" {
        SetLabel(id, Some(value));
        r := Pass;
      } else if name == "width" || name == "height" {
        r := SetParsedLength(id, name == "width", parse(value));
      } else {
        r := Fail("attribute " + name + " not found");
      }
    }

    /** The `width` and `height` entries of `set_attribute`: a parse failure is passed on and
        changes nothing; a parsed length is set on the width (`horizontal`) or the height. */
    method SetParsedLength(id: NodeId, horizontal: bool, parsed: Result<LayoutLength, string>)
      returns (r: Outcome<string>)
      requires Valid() && id in nodes
      modifies this`nodes, LayersOf(nodes)
      ensures Valid()
      ensures parsed.Failure? ==>
                r == Fail(parsed.error) && nodes == old(nodes) &&
                Views(LayersOf(old(nodes))) == old(Views(LayersOf(nodes)))
      ensures parsed.Success? ==> r == Pass
      ensures parsed.Success? && horizontal ==> nodes[id].width == parsed.value
      ensures parsed.Success? && !horizontal ==> nodes[id].height == parsed.value
    {
      if parsed.Failure? {
        return Fail(parsed.error);
      }
      if horizontal {
        SetWidth(id, parsed.value);
      } else {
        SetHeight(id, parsed.value);
      }
      r := Pass;
    }

    /** The guards and size bookkeeping of `render(context, width, height)`: an invisible node,
        or a rectangle of negative area, is not traversed; otherwise a changed size is stored
        and `render_impl` runs (`drawn`). */
    method Render(id: NodeId, width: real, height: real) returns (drawn: bool, resized: bool)
      requires Valid() && id in nodes
      modifies this`nodes
      ensures Valid()
      ensures drawn <==> old(nodes)[id].visible && width * height >= 0.0
      ensures resized <==> drawn && old(nodes)[id].size != Extent(width, height)
      ensures drawn ==> nodes[id].size == Extent(width, height)
      ensures nodes == if resized then old(nodes)[id := old(nodes)[id].(size := Extent(width, height))] else old(nodes)
    {
      drawn, resized := false, false;
      if !nodes[id].visible {
        return;
      }
      if width * height < 0.0 {
        return;
      }
      var size := Extent(width, height);
      if size != nodes[id].size {
        Store(id, nodes[id].(size := size));
        resized := true;
      }
      drawn := true;
    }

    // -------------------------------------------------------------------------------------
    // restyling

    /** `update_restyle(force)` on `id`, in place: the arena ends as the traversal function
        leaves it and exactly the layers it collects are set dirty (RestyleValid: a valid tree
        stays valid). */
    method UpdateRestyle(id: NodeId, force: bool, ctx: Context, style: ImStyle)
      requires Ranked(nodes, rank) && id in nodes
      modifies this`nodes, LayersOf(nodes)
      ensures nodes == Restyle(old(nodes), rank, id, force, ctx, style).nodes
      ensures Views(LayersOf(old(nodes))) ==
                MarkDirty(old(Views(LayersOf(nodes))), Restyle(old(nodes), rank, id, force, ctx, style).dirtied)
      decreases rank[id], 3
    {
      var restyle := nodes[id].needsRestyle || force;
      var update := nodes[id].needsUpdate || force;
      if !update {
        RestyleOutcome(nodes, rank, id, force, ctx, style);
        MarkDirtyNothing(Views(LayersOf(nodes)));
        return;
      }
      ghost var m := nodes;
      ghost var own := if restyle && nodes[id].layer.Some? then {nodes[id].layer.value} else {};
      ghost var kids := RestyleKids(nodes, rank, nodes[id].children, restyle, ctx, style, rank[id]);
      RestyleNode(id, restyle, ctx, style);
      RestyleSteps(m, rank, id, force, ctx, style, kids.nodes, nodes[id], own, kids.dirtied);
    }

    /** A restyle that did not prune, with `restyle` the or-ed restyle flag: the node's own layer
        is set dirty when it restyles, the children's loop runs, then the content is updated and
        both flags are cleared. */
    method RestyleNode(id: NodeId, restyle: bool, ctx: Context, style: ImStyle)
      requires Ranked(nodes, rank) && id in nodes
      modifies this`nodes, LayersOf(nodes)
      ensures var kids := RestyleKids(old(nodes), rank, old(nodes)[id].children, restyle, ctx, style, rank[id]);
              id in kids.nodes &&
              nodes == kids.nodes[id := Content(kids.nodes[id], KidRecs(kids.nodes, kids.nodes[id].children), ctx, style)
                                          .(needsUpdate := false, needsRestyle := false)] &&
              Views(LayersOf(old(nodes))) ==
                MarkDirty(old(Views(LayersOf(nodes))),
                          (if restyle && old(nodes)[id].layer.Some? then {old(nodes)[id].layer.value} else {}) + kids.dirtied)
      decreases rank[id], 2
    {
      ghost var ls := LayersOf(nodes);
      ghost var v0 := Views(ls);
      ghost var own := if restyle && nodes[id].layer.Some? then {nodes[id].layer.value} else {};
      ghost var kids := RestyleKids(nodes, rank, nodes[id].children, restyle, ctx, style, rank[id]);
      MarkOwnLayer(id, restyle);
      ghost var v1 := Views(ls);
      RestyleChildren(nodes[id].children, restyle, ctx, style, rank[id]);
      ghost var v2 := Views(ls);
      assert v2 == MarkDirty(v1, kids.dirtied) && v1 == MarkDirty(v0, own);
      MarkDirtyComposes(v0, own, kids.dirtied);
      assert id in nodes && nodes == kids.nodes;
      label restyled:
      FinishRestyle(id, ctx, style);
      ViewsFramed@restyled(ls);
      assert Views(ls) == v2;
      assert v2 == MarkDirty(v0, own + kids.dirtied);
      assert ls == LayersOf(old(nodes)) && v0 == old(Views(LayersOf(nodes)));
      assert rank == old(rank);
      assert kids == RestyleKids(old(nodes), rank, old(nodes)[id].children, restyle, ctx, style, rank[id]);
      assert own == (if restyle && old(nodes)[id].layer.Some? then {old(nodes)[id].layer.value} else {});
    }

    /** The first step of a restyle that did not prune: a pending restyle sets the node's own
        layer dirty. */
    method MarkOwnLayer(id: NodeId, restyle: bool)
      requires id in nodes
      modifies LayersOf(nodes)
      ensures Views(LayersOf(nodes)) ==
                MarkDirty(old(Views(LayersOf(nodes))),
                          if restyle && nodes[id].layer.Some? then {nodes[id].layer.value} else {})
    {
      ghost var ls := LayersOf(nodes);
      if restyle && nodes[id].layer.Some? {
        var l := nodes[id].layer.value;
        ghost var before := Views(ls);
        l.SetDirty();
        DirtiedOne(before, Views(ls), l);
      } else {
        MarkDirtyNothing(Views(ls));
      }
    }

    /** The last step of a restyle that did not prune: `update_content`, then both flags are
        cleared. */
    method FinishRestyle(id: NodeId, ctx: Context, style: ImStyle)
      requires id in nodes && forall k :: k in nodes[id].children ==> k in nodes
      modifies this`nodes
      ensures nodes == old(nodes)[id := Content(old(nodes)[id], KidRecs(old(nodes), old(nodes)[id].children), ctx, style)
                                          .(needsUpdate := false, needsRestyle := false)]
    {
      var self := nodes[id];
      if self.layout.Some? {
        var w, h := UpdateContent(self, self.layout.value.direction, KidRecs(nodes, self.children), ctx, style);
        self := self.(automaticWidth := w, automaticHeight := h);
      }
      nodes := nodes[id := self.(needsUpdate := false, needsRestyle := false)];
    }

    /** One turn of the children's loop: a visible child is restyled, any other skipped. */
    method RestyleIfShown(k: NodeId, force: bool, ctx: Context, style: ImStyle)
      requires Ranked(nodes, rank) && k in nodes
      modifies this`nodes, LayersOf(nodes)
      ensures nodes == RestyleIfVisible(old(nodes), rank, k, force, ctx, style).nodes
      ensures Views(LayersOf(old(nodes))) ==
                MarkDirty(old(Views(LayersOf(nodes))), RestyleIfVisible(old(nodes), rank, k, force, ctx, style).dirtied)
      decreases rank[k], 4
    {
      if nodes[k].visible {
        UpdateRestyle(k, force, ctx, style);
      } else {
        MarkDirtyNothing(Views(LayersOf(nodes)));
      }
    }

    /** The loop of `update_restyle` over the children, front to back: each visible one is
        restyled in turn. */
    method RestyleChildren(ks: seq<NodeId>, force: bool, ctx: Context, style: ImStyle, ghost bound: nat)
      requires Ranked(nodes, rank) && forall k :: k in ks ==> k in nodes && rank[k] < bound
      modifies this`nodes, LayersOf(nodes)
      ensures nodes == RestyleKids(old(nodes), rank, ks, force, ctx, style, bound).nodes
      ensures Views(LayersOf(old(nodes))) ==
                MarkDirty(old(Views(LayersOf(nodes))), RestyleKids(old(nodes), rank, ks, force, ctx, style, bound).dirtied)
      decreases bound, 1
    {
      ghost var ls := LayersOf(nodes);
      ghost var base := Views(ls);
      ghost var whole := RestyleKids(nodes, rank, ks, force, ctx, style, bound);
      ghost var dirt: set<RenderLayer> := {};
      MarkDirtyNothing(base);
      KidsLeftStart(nodes, rank, ks, force, ctx, style, bound);
      var i := 0;
      while i < |ks|
        invariant KidsLeft(nodes, rank, ks, i, force, ctx, style, bound, dirt, whole)
        invariant nodes.Keys == old(nodes).Keys && LayersOf(nodes) == ls
        invariant Views(ls) == MarkDirty(base, dirt)
      {
        dirt := RestyleChildAt(ks, i, force, ctx, style, bound, dirt, whole, base);
        i := i + 1;
      }
      KidsLeftEnd(nodes, rank, ks, force, ctx, style, bound, dirt, whole);
    }

    /** One turn of the loop in `RestyleChildren`: restyles `ks[i]` if it is visible and keeps
        the loop's account of what is left to do and which layers are dirty so far. */
    method RestyleChildAt(ks: seq<NodeId>, i: nat, force: bool, ctx: Context, style: ImStyle, ghost bound: nat,
                          ghost dirt: set<RenderLayer>, ghost whole: Restyled, ghost base: map<RenderLayer, LayerView>)
        returns (ghost dirt': set<RenderLayer>)
      requires KidsLeft(nodes, rank, ks, i, force, ctx, style, bound, dirt, whole) && i < |ks|
      requires Views(LayersOf(nodes)) == MarkDirty(base, dirt)
      modifies this`nodes, LayersOf(nodes)
      ensures KidsLeft(nodes, rank, ks, i + 1, force, ctx, style, bound, dirt', whole)
      ensures nodes.Keys == old(nodes).Keys && LayersOf(nodes) == old(LayersOf(nodes))
      ensures Views(LayersOf(nodes)) == MarkDirty(base, dirt')
      decreases bound, 0
    {
      ghost var step := RestyleIfVisible(nodes, rank, ks[i], force, ctx, style);
      RestyleKidsAdvance(nodes, rank, ks, i, force, ctx, style, bound, dirt, whole);
      ghost var prev := nodes;
      RestyleIfShown(ks[i], force, ctx, style);
      SameLayers(prev, nodes);
      MarkDirtyComposes(base, dirt, step.dirtied);
      dirt' := dirt + step.dirtied;
    }
  }
}
