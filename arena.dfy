/** The node tree as an arena: a map from registry id to node record. This module holds the
    shape of the tree (which child lists and parent links may exist), the invalidation walk of
    `set_needs_update` as functions of the arena, and the linking and unlinking done by `add`,
    `insert` and `remove`. */
module Arenas {
  import opened Wrappers
  import opened Seqs
  import opened Types
  import opened Rendering
  import opened NodeRecords

  type Arena = map<NodeId, NodeRec>

  // ---------------------------------------------------------------------------------------
  // shape

  /** Every listed child exists and has a lower rank than the node that lists it, so walking
      down the child lists always ends. */
  predicate Ranked(m: Arena, rank: map<NodeId, nat>) {
    (forall x :: x in m ==> x in rank) &&
    (forall x, c :: x in m && c in m[x].children ==> c in m && rank[c] < rank[x])
  }

  /** A node's parent exists and lists it among its children. The converse need not hold:
      `remove` of a node that is not a child clears the node's parent but leaves it in its
      real parent's list. */
  predicate Linked(m: Arena) {
    forall x {:trigger m[x].parent} :: x in m && m[x].parent.Some? ==>
      m[x].parent.value in m && x in m[m[x].parent.value].children
  }

  /** Ranked and linked, with every rank below a bound, so walking up the parent links
      always ends too. */
  predicate Closed(m: Arena, rank: map<NodeId, nat>, bound: nat) {
    Ranked(m, rank) && Linked(m) && (forall x :: x in m ==> rank[x] < bound)
  }

  /** Two arenas with the same ids, parents, children, visibility and layers. */
  predicate SameShape(m: Arena, m': Arena) {
    m'.Keys == m.Keys &&
    forall x :: x in m ==>
      m'[x].parent == m[x].parent && m'[x].children == m[x].children &&
      m'[x].visible == m[x].visible && m'[x].layer == m[x].layer
  }

  lemma SameShapeClosed(m: Arena, m': Arena, rank: map<NodeId, nat>, bound: nat)
    requires Closed(m, rank, bound) && SameShape(m, m')
    ensures Closed(m', rank, bound)
  {
  }

  /** Closedness reads only the ids, parents and children. */
  lemma SameLinksClosed(m: Arena, m': Arena, rank: map<NodeId, nat>, bound: nat)
    requires Closed(m, rank, bound) && m'.Keys == m.Keys
    requires forall x :: x in m ==> m'[x].parent == m[x].parent && m'[x].children == m[x].children
    ensures Closed(m', rank, bound)
  {
    SameLinksRanked(m, m', rank);
    SameLinksLinked(m, m');
  }

  lemma SameLinksRanked(m: Arena, m': Arena, rank: map<NodeId, nat>)
    requires Ranked(m, rank) && m'.Keys == m.Keys
    requires forall x :: x in m ==> m'[x].children == m[x].children
    ensures Ranked(m', rank)
  {
    forall x, c | x in m' && c in m'[x].children ensures c in m' && rank[c] < rank[x] {
      assert c in m[x].children;
    }
  }

  lemma SameLinksLinked(m: Arena, m': Arena)
    requires Linked(m) && m'.Keys == m.Keys
    requires forall x :: x in m ==> m'[x].parent == m[x].parent && m'[x].children == m[x].children
    ensures Linked(m')
  {
    forall x | x in m' && m'[x].parent.Some?
      ensures m'[x].parent.value in m' && x in m'[m'[x].parent.value].children
    {
      assert m[x].parent == m'[x].parent;
    }
  }

  lemma SameShapeTrans(a: Arena, b: Arena, c: Arena)
    requires SameShape(a, b) && SameShape(b, c)
    ensures SameShape(a, c)
  {
  }

  /** Replacing one record by one with the same links, visibility and layer keeps the shape. */
  lemma SameShapeStore(m: Arena, id: NodeId, rec: NodeRec)
    requires id in m && rec.parent == m[id].parent && rec.children == m[id].children
    requires rec.visible == m[id].visible && rec.layer == m[id].layer
    ensures SameShape(m, m[id := rec])
  {
  }

  lemma SameShapeRanked(m: Arena, m': Arena, rank: map<NodeId, nat>)
    requires Ranked(m, rank) && SameShape(m, m')
    ensures Ranked(m', rank)
  {
  }

  lemma SameShapeLinked(m: Arena, m': Arena)
    requires Linked(m) && SameShape(m, m')
    ensures Linked(m')
  {
  }

  /** Whether `t` can be reached from `x` through child lists (`x` reaches itself). */
  function Reaches(m: Arena, ghost rank: map<NodeId, nat>, x: NodeId, t: NodeId): bool
    requires Ranked(m, rank) && x in m
    decreases rank[x], 1
  {
    x == t || ReachesAny(m, rank, m[x].children, t, rank[x])
  }

  /** Whether `t` can be reached from one of `ks`. */
  function ReachesAny(m: Arena, ghost rank: map<NodeId, nat>, ks: seq<NodeId>, t: NodeId,
                      ghost r: nat): bool
    requires Ranked(m, rank) && forall k :: k in ks ==> k in m && rank[k] < r
    decreases r, 0, |ks|
  {
    if |ks| == 0 then false
    else Reaches(m, rank, ks[0], t) || ReachesAny(m, rank, ks[1..], t, r)
  }

  /** Reaching `t` from a member of `ks` is reaching it from `ks`. */
  lemma {:induction false} ReachesAnyMember(m: Arena, rank: map<NodeId, nat>, ks: seq<NodeId>,
                                            t: NodeId, r: nat, i: nat)
    requires Ranked(m, rank) && forall k :: k in ks ==> k in m && rank[k] < r
    requires i < |ks| && Reaches(m, rank, ks[i], t)
    ensures ReachesAny(m, rank, ks, t, r)
    decreases |ks|
  {
    if i > 0 {
      var tail := ks[1..];
      assert tail[i - 1] == ks[i];
      ReachesAnyMember(m, rank, tail, t, r, i - 1);
    }
  }

  /** A node reaches whatever its children reach. */
  lemma ReachesThroughChild(m: Arena, rank: map<NodeId, nat>, x: NodeId, c: NodeId, t: NodeId)
    requires Ranked(m, rank) && x in m && c in m[x].children && Reaches(m, rank, c, t)
    ensures Reaches(m, rank, x, t)
  {
    var ks := m[x].children;
    var i :| 0 <= i < |ks| && ks[i] == c;
    ReachesAnyMember(m, rank, ks, t, rank[x], i);
  }

  /** Nothing with a lower rank than `t` reaches `t`, except `t` itself. */
  lemma {:induction false} ReachesOnlyUpward(m: Arena, rank: map<NodeId, nat>, x: NodeId, t: NodeId)
    requires Ranked(m, rank) && x in m && t in m && Reaches(m, rank, x, t)
    ensures rank[t] <= rank[x]
    decreases rank[x], 1
  {
    if x != t {
      ReachesAnyOnlyUpward(m, rank, m[x].children, t, rank[x]);
    }
  }

  lemma {:induction false} ReachesAnyOnlyUpward(m: Arena, rank: map<NodeId, nat>, ks: seq<NodeId>,
                                                t: NodeId, r: nat)
    requires Ranked(m, rank) && t in m && forall k :: k in ks ==> k in m && rank[k] < r
    requires ReachesAny(m, rank, ks, t, r)
    ensures rank[t] < r
    decreases r, 0, |ks|
  {
    if Reaches(m, rank, ks[0], t) {
      ReachesOnlyUpward(m, rank, ks[0], t);
    } else {
      ReachesAnyOnlyUpward(m, rank, ks[1..], t, r);
    }
  }

  // ---------------------------------------------------------------------------------------
  // the walk up the parent links

  /** `it`, its parent, its grandparent and so on up to a root. */
  function Ancestors(m: Arena, ghost rank: map<NodeId, nat>, ghost bound: nat, it: Option<NodeId>): (cs: seq<NodeId>)
    requires Closed(m, rank, bound) && (it.Some? ==> it.value in m)
    ensures forall i :: 0 <= i < |cs| ==> cs[i] in m
    ensures it.None? <==> |cs| == 0
    decreases if it.Some? then bound - rank[it.value] else 0
  {
    match it
    case None => []
    case Some(x) => [x] + Ancestors(m, rank, bound, m[x].parent)
  }

  /** Every node of `cs` has a higher rank than `x`. */
  predicate RanksAbove(rank: map<NodeId, nat>, x: NodeId, cs: seq<NodeId>) {
    x in rank && forall j :: 0 <= j < |cs| ==> cs[j] in rank && rank[x] < rank[cs[j]]
  }

  /** Every proper ancestor of `x` has a higher rank than `x`. */
  lemma {:induction false} AncestorsOverParent(m: Arena, rank: map<NodeId, nat>, bound: nat, x: NodeId)
    requires Closed(m, rank, bound) && x in m
    ensures RanksAbove(rank, x, Ancestors(m, rank, bound, m[x].parent))
    decreases bound - rank[x]
  {
    var p := m[x].parent;
    if p.Some? {
      var q := p.value;
      assert x in m[q].children;
      assert rank[x] < rank[q];
      AncestorsOverParent(m, rank, bound, q);
      var cs := Ancestors(m, rank, bound, p);
      var tail := Ancestors(m, rank, bound, m[q].parent);
      assert RanksAbove(rank, q, tail);
      assert cs == [q] + tail;
      forall j | 0 <= j < |cs| ensures rank[x] < rank[cs[j]] {
        if j > 0 {
          assert cs[j] == tail[j - 1];
          assert 0 <= j - 1 < |tail|;
          assert rank[q] < rank[tail[j - 1]];
        } else {
          assert cs[j] == q;
        }
      }
    }
  }

  /** The walk only reads parent links. */
  lemma {:induction false} AncestorsReadParents(m: Arena, m': Arena, rank: map<NodeId, nat>, bound: nat,
                                                it: Option<NodeId>)
    requires Closed(m, rank, bound) && Closed(m', rank, bound) && m'.Keys == m.Keys
    requires forall x :: x in m ==> m'[x].parent == m[x].parent
    requires it.Some? ==> it.value in m
    ensures Ancestors(m', rank, bound, it) == Ancestors(m, rank, bound, it)
    decreases if it.Some? then bound - rank[it.value] else 0
  {
    if it.Some? {
      AncestorsReadParents(m, m', rank, bound, m[it.value].parent);
    }
  }

  /** The index of the first node of `cs` already marked `needs_update` (`|cs|` if none). */
  function StopAt(m: Arena, cs: seq<NodeId>): (k: nat)
    requires forall i :: 0 <= i < |cs| ==> cs[i] in m
    ensures k <= |cs|
    ensures forall j :: 0 <= j < k ==> !m[cs[j]].needsUpdate
    ensures k < |cs| ==> m[cs[k]].needsUpdate
  {
    if |cs| == 0 then 0 else if m[cs[0]].needsUpdate then 0 else 1 + StopAt(m, cs[1..])
  }

  /** The index of the first node of `cs` that owns a render layer (`|cs|` if none). */
  function LayerAt(m: Arena, cs: seq<NodeId>): (k: nat)
    requires forall i :: 0 <= i < |cs| ==> cs[i] in m
    ensures k <= |cs|
    ensures forall j :: 0 <= j < k ==> m[cs[j]].layer.None?
    ensures k < |cs| ==> m[cs[k]].layer.Some?
  {
    if |cs| == 0 then 0 else if m[cs[0]].layer.Some? then 0 else 1 + LayerAt(m, cs[1..])
  }

  /** The first loop of `set_needs_update`: the layer of the first node, from `it` upward,
      that owns one. */
  function NearestLayer(m: Arena, ghost rank: map<NodeId, nat>, ghost bound: nat, it: Option<NodeId>): Option<RenderLayer>
    requires Closed(m, rank, bound) && (it.Some? ==> it.value in m)
    decreases if it.Some? then bound - rank[it.value] else 0
  {
    match it
    case None => None
    case Some(x) => if m[x].layer.Some? then m[x].layer else NearestLayer(m, rank, bound, m[x].parent)
  }

  /** The nearest layer is the layer of the nearest ancestor-or-self owning one; there is none
      exactly when no node on the way to the root owns a layer. */
  lemma {:induction false} NearestLayerIsFirstOnWay(m: Arena, rank: map<NodeId, nat>, bound: nat, it: Option<NodeId>)
    requires Closed(m, rank, bound) && (it.Some? ==> it.value in m)
    ensures var cs := Ancestors(m, rank, bound, it);
      var k := LayerAt(m, cs);
      NearestLayer(m, rank, bound, it) == (if k < |cs| then m[cs[k]].layer else None)
    decreases if it.Some? then bound - rank[it.value] else 0
  {
    if it.Some? {
      var x := it.value;
      var cs := Ancestors(m, rank, bound, it);
      assert cs[1..] == Ancestors(m, rank, bound, m[x].parent);
      if m[x].layer.None? {
        NearestLayerIsFirstOnWay(m, rank, bound, m[x].parent);
      }
    }
  }

  /** The nearest layer is one of the arena's layers. */
  lemma {:induction false} NearestLayerIsALayer(m: Arena, rank: map<NodeId, nat>, bound: nat, it: Option<NodeId>)
    requires Closed(m, rank, bound) && (it.Some? ==> it.value in m)
    ensures var l := NearestLayer(m, rank, bound, it); l.Some? ==> l.value in LayersOf(m)
    decreases if it.Some? then bound - rank[it.value] else 0
  {
    if it.Some? && m[it.value].layer.None? {
      NearestLayerIsALayer(m, rank, bound, m[it.value].parent);
    }
  }

  /** The nearest layer depends only on the parent links and the layers. */
  lemma {:induction false} NearestLayerReadsLayers(m: Arena, m': Arena, rank: map<NodeId, nat>, bound: nat,
                                                   it: Option<NodeId>)
    requires Closed(m, rank, bound) && Closed(m', rank, bound) && (it.Some? ==> it.value in m)
    requires m'.Keys == m.Keys
    requires forall x :: x in m ==> m'[x].parent == m[x].parent && m'[x].layer == m[x].layer
    ensures NearestLayer(m', rank, bound, it) == NearestLayer(m, rank, bound, it)
    decreases if it.Some? then bound - rank[it.value] else 0
  {
    if it.Some? && m[it.value].layer.None? {
      NearestLayerReadsLayers(m, m', rank, bound, m[it.value].parent);
    }
  }

  /** The layers owned by nodes of the arena. */
  function LayersOf(m: Arena): set<RenderLayer> {
    set x | x in m && m[x].layer.Some? :: m[x].layer.value
  }

  /** Arenas that agree on ids and layers have the same layers. */
  lemma SameLayers(m: Arena, m': Arena)
    requires m'.Keys == m.Keys && forall x :: x in m ==> m'[x].layer == m[x].layer
    ensures LayersOf(m') == LayersOf(m)
  {
    forall l | l in LayersOf(m) ensures l in LayersOf(m') {
      var x :| x in m && m[x].layer == Some(l);
      assert m'[x].layer == Some(l);
    }
    forall l | l in LayersOf(m') ensures l in LayersOf(m) {
      var x :| x in m' && m'[x].layer == Some(l);
      assert m[x].layer == Some(l);
    }
  }

  /** The arena with `x` marked `needs_update`. */
  function Mark(m: Arena, x: NodeId): (r: Arena)
    requires x in m
    ensures SameShape(m, r)
  {
    m[x := m[x].(needsUpdate := true)]
  }

  /** The arena with `x` marked `needs_restyle`. */
  function MarkRestyle(m: Arena, x: NodeId): (r: Arena)
    requires x in m
    ensures SameShape(m, r)
  {
    m[x := m[x].(needsRestyle := true)]
  }

  /** The second loop of `set_needs_update`: from `it` upward, mark every node until one that
      is already marked. */
  function MarkUp(m: Arena, ghost rank: map<NodeId, nat>, ghost bound: nat, it: Option<NodeId>): (r: Arena)
    requires Closed(m, rank, bound) && (it.Some? ==> it.value in m)
    ensures SameShape(m, r)
    decreases if it.Some? then bound - rank[it.value] else 0
  {
    match it
    case None => m
    case Some(x) =>
      if m[x].needsUpdate then m
      else
        SameShapeClosed(m, Mark(m, x), rank, bound);
        MarkUp(Mark(m, x), rank, bound, m[x].parent)
  }

  /** The node state `set_needs_update` leaves: the node marked, then its ancestors marked up
      to the first already marked one. */
  function Invalidate(m: Arena, ghost rank: map<NodeId, nat>, ghost bound: nat, x: NodeId): (r: Arena)
    requires Closed(m, rank, bound) && x in m
    ensures SameShape(m, r)
  {
    SameShapeClosed(m, Mark(m, x), rank, bound);
    MarkUp(Mark(m, x), rank, bound, m[x].parent)
  }

  /** The nodes from `it` upward before the first one already marked `needs_update`. */
  function UnmarkedWay(m: Arena, ghost rank: map<NodeId, nat>, ghost bound: nat, it: Option<NodeId>): seq<NodeId>
    requires Closed(m, rank, bound) && (it.Some? ==> it.value in m)
  {
    var cs := Ancestors(m, rank, bound, it);
    cs[..StopAt(m, cs)]
  }

  /** `r` is `m` with exactly the nodes of `s` marked `needs_update`. */
  predicate MarksExactly(m: Arena, r: Arena, s: seq<NodeId>) {
    r.Keys == m.Keys &&
    forall y :: y in m ==> r[y] == (if y in s then m[y].(needsUpdate := true) else m[y])
  }

  /** The walk up marks exactly the ancestors before the first already marked one; that one
      and every node above it, and every node off the way, are left as they were. */
  lemma {:induction false} MarkUpMarksUnmarkedPrefix(m: Arena, rank: map<NodeId, nat>, bound: nat, it: Option<NodeId>)
    requires Closed(m, rank, bound) && (it.Some? ==> it.value in m)
    ensures MarksExactly(m, MarkUp(m, rank, bound, it), UnmarkedWay(m, rank, bound, it))
    decreases if it.Some? then bound - rank[it.value] else 0
  {
    if it.Some? && !m[it.value].needsUpdate {
      var x := it.value;
      SameShapeClosed(m, Mark(m, x), rank, bound);
      UnmarkedWayStep(m, rank, bound, x);
      MarkUpMarksUnmarkedPrefix(Mark(m, x), rank, bound, m[x].parent);
      MarksExactlyCons(m, MarkUp(Mark(m, x), rank, bound, m[x].parent), x,
                       UnmarkedWay(Mark(m, x), rank, bound, m[x].parent));
    } else if it.Some? {
      assert StopAt(m, Ancestors(m, rank, bound, it)) == 0;
    }
  }

  /** One step of the walk up: an unmarked `x` comes first, and the rest of the way is the
      same whether or not `x` has been marked. */
  lemma UnmarkedWayStep(m: Arena, rank: map<NodeId, nat>, bound: nat, x: NodeId)
    requires Closed(m, rank, bound) && x in m && !m[x].needsUpdate
    ensures Closed(Mark(m, x), rank, bound)
    ensures UnmarkedWay(m, rank, bound, Some(x)) == [x] + UnmarkedWay(Mark(m, x), rank, bound, m[x].parent)
    ensures x !in UnmarkedWay(Mark(m, x), rank, bound, m[x].parent)
  {
    var m1 := Mark(m, x);
    SameShapeClosed(m, m1, rank, bound);
    var up := Ancestors(m, rank, bound, m[x].parent);
    AncestorsReadParents(m, m1, rank, bound, m[x].parent);
    AncestorsOverParent(m, rank, bound, x);
    StopAtIgnores(m, m1, up);
    UnmarkedWayCons(m, rank, bound, x);
    PrefixAbove(rank, x, up, StopAt(m, up));
  }

  /** The walk up from an unmarked `x` is `x`, then the walk up from its parent. */
  lemma UnmarkedWayCons(m: Arena, rank: map<NodeId, nat>, bound: nat, x: NodeId)
    requires Closed(m, rank, bound) && x in m && !m[x].needsUpdate
    ensures var up := Ancestors(m, rank, bound, m[x].parent);
      UnmarkedWay(m, rank, bound, Some(x)) == [x] + up[..StopAt(m, up)]
  {
    var cs := Ancestors(m, rank, bound, Some(x));
    var up := Ancestors(m, rank, bound, m[x].parent);
    assert cs == [x] + up;
    assert cs[1..] == up;
    assert cs[..1 + StopAt(m, up)] == [x] + up[..StopAt(m, up)];
  }

  /** No prefix of nodes ranked above `x` holds `x`. */
  lemma PrefixAbove(rank: map<NodeId, nat>, x: NodeId, cs: seq<NodeId>, k: nat)
    requires RanksAbove(rank, x, cs) && k <= |cs|
    ensures x !in cs[..k]
  {
    forall j | 0 <= j < k ensures cs[..k][j] != x {
      assert cs[..k][j] == cs[j];
    }
  }

  /** Marking `x` and then exactly `s` is marking exactly `[x] + s`. */
  lemma MarksExactlyCons(m: Arena, r: Arena, x: NodeId, s: seq<NodeId>)
    requires x in m && x !in s && MarksExactly(Mark(m, x), r, s)
    ensures MarksExactly(m, r, [x] + s)
  {
    var m1 := Mark(m, x);
    forall y | y in m
      ensures r[y] == (if y in [x] + s then m[y].(needsUpdate := true) else m[y])
    {
      if y != x {
        assert m1[y] == m[y];
      }
    }
  }

  /** `StopAt` only reads the nodes it is given. */
  lemma {:induction false} StopAtIgnores(m: Arena, m': Arena, cs: seq<NodeId>)
    requires forall i :: 0 <= i < |cs| ==> cs[i] in m && cs[i] in m' && m'[cs[i]].needsUpdate == m[cs[i]].needsUpdate
    ensures StopAt(m', cs) == StopAt(m, cs)
  {
    if |cs| > 0 {
      StopAtIgnores(m, m', cs[1..]);
    }
  }

  /** `set_needs_update` marks the node itself and then exactly its ancestors before the
      first already marked one, and leaves every other node as it was. */
  lemma InvalidateMarksUnmarkedPrefix(m: Arena, rank: map<NodeId, nat>, bound: nat, x: NodeId)
    requires Closed(m, rank, bound) && x in m
    ensures MarksExactly(m, Invalidate(m, rank, bound, x), [x] + UnmarkedWay(m, rank, bound, m[x].parent))
  {
    var m1 := Mark(m, x);
    var way := UnmarkedWay(m, rank, bound, m[x].parent);
    MarkKeepsWay(m, rank, bound, x);
    MarkUpMarksUnmarkedPrefix(m1, rank, bound, m[x].parent);
    var m2 := MarkUp(m1, rank, bound, m[x].parent);
    assert MarksExactly(m1, m2, way);
    assert Invalidate(m, rank, bound, x) == m2;
    MarkMarksExactly(m, x);
    MarksCompose(m, m1, m2, [x], way);
  }

  /** Marking one node marks exactly that node. */
  lemma MarkMarksExactly(m: Arena, x: NodeId)
    requires x in m
    ensures MarksExactly(m, Mark(m, x), [x])
  {
  }

  /** Marking a node leaves the way up from its parent as it was: the node is not on it. */
  lemma MarkKeepsWay(m: Arena, rank: map<NodeId, nat>, bound: nat, x: NodeId)
    requires Closed(m, rank, bound) && x in m
    ensures Closed(Mark(m, x), rank, bound) && Mark(m, x)[x].parent == m[x].parent
    ensures UnmarkedWay(Mark(m, x), rank, bound, m[x].parent) == UnmarkedWay(m, rank, bound, m[x].parent)
  {
    var m1 := Mark(m, x);
    SameShapeClosed(m, m1, rank, bound);
    var up := Ancestors(m, rank, bound, m[x].parent);
    AncestorsReadParents(m, m1, rank, bound, m[x].parent);
    AncestorsOverParent(m, rank, bound, x);
    assert x !in up;
    forall i | 0 <= i < |up| ensures up[i] in m && up[i] in m1 && m1[up[i]].needsUpdate == m[up[i]].needsUpdate {
      assert up[i] != x;
    }
    StopAtIgnores(m, m1, up);
  }

  /** Marking `a`, then `b`, marks exactly `a + b`. */
  lemma MarksCompose(m: Arena, m1: Arena, m2: Arena, a: seq<NodeId>, b: seq<NodeId>)
    requires MarksExactly(m, m1, a) && MarksExactly(m1, m2, b)
    ensures MarksExactly(m, m2, a + b)
  {
  }

  // ---------------------------------------------------------------------------------------
  // the two dirty flags

  /** A restyle is always also an update, and a visible node that needs an update is seen by
      its parent: the parent needs an update too. This is what lets `set_needs_update` stop at
      the first ancestor that is already marked. */
  predicate NodeCoherent(m: Arena, x: NodeId)
    requires x in m
  {
    (m[x].needsRestyle ==> m[x].needsUpdate) &&
    (m[x].parent.Some? && m[x].visible && m[x].needsUpdate && m[x].parent.value in m ==>
       m[m[x].parent.value].needsUpdate)
  }

  predicate Coherent(m: Arena) {
    forall x {:trigger NodeCoherent(m, x)} :: x in m ==> NodeCoherent(m, x)
  }

  /** Coherent everywhere except possibly at `e`. */
  predicate CoherentExcept(m: Arena, e: NodeId) {
    forall x {:trigger NodeCoherent(m, x)} :: x in m && x != e ==> NodeCoherent(m, x)
  }

  /** Marking a node for a restyle can only cost that node its coherence. */
  lemma MarkRestyleKeepsCoherentExcept(m: Arena, x: NodeId)
    requires x in m && CoherentExcept(m, x)
    ensures CoherentExcept(MarkRestyle(m, x), x)
  {
    var m' := MarkRestyle(m, x);
    forall y | y in m' && y != x ensures NodeCoherent(m', y) {
      assert NodeCoherent(m, y);
    }
  }

  /** Marking upward from the parent of a marked node `x` restores coherence when `x` was the
      only node that lacked it. */
  lemma {:induction false} MarkUpRestoresCoherence(m: Arena, rank: map<NodeId, nat>, bound: nat, x: NodeId)
    requires Closed(m, rank, bound) && x in m && m[x].needsUpdate && CoherentExcept(m, x)
    ensures Coherent(MarkUp(m, rank, bound, m[x].parent))
    decreases bound - rank[x]
  {
    var it := m[x].parent;
    if it.Some? && !m[it.value].needsUpdate {
      var p := it.value;
      var m1 := Mark(m, p);
      SameShapeClosed(m, m1, rank, bound);
      MarkParentKeepsCoherentExcept(m, x, p);
      assert m1[p].parent == m[p].parent;
      MarkUpRestoresCoherence(m1, rank, bound, p);
    } else {
      assert NodeCoherent(m, x);
    }
  }

  /** Marking the parent of the one node that may lack coherence moves the exception up to the
      parent. */
  lemma MarkParentKeepsCoherentExcept(m: Arena, x: NodeId, p: NodeId)
    requires x in m && p in m && m[x].parent == Some(p) && m[x].needsUpdate && CoherentExcept(m, x)
    ensures CoherentExcept(Mark(m, p), p)
  {
    var m1 := Mark(m, p);
    forall y | y in m1 && y != p ensures NodeCoherent(m1, y) {
      assert NodeCoherent(m, y) || y == x;
    }
  }

  /** `set_needs_update` on the one node that may lack coherence makes the arena coherent. */
  lemma InvalidateRestoresCoherence(m: Arena, rank: map<NodeId, nat>, bound: nat, x: NodeId)
    requires Closed(m, rank, bound) && x in m && CoherentExcept(m, x)
    ensures Coherent(Invalidate(m, rank, bound, x))
  {
    var m1 := Mark(m, x);
    SameShapeClosed(m, m1, rank, bound);
    forall y | y in m1 && y != x ensures NodeCoherent(m1, y) {
      assert NodeCoherent(m, y);
    }
    MarkUpRestoresCoherence(m1, rank, bound, x);
  }

  /** Every node of `cs` but the last is visible. */
  predicate VisibleBelowTop(m: Arena, cs: seq<NodeId>) {
    forall i :: 0 <= i < |cs| - 1 ==> cs[i] in m && m[cs[i]].visible
  }

  /** Every node of `cs` needs an update. */
  predicate AllMarked(m: Arena, cs: seq<NodeId>) {
    forall i :: 0 <= i < |cs| ==> cs[i] in m && m[cs[i]].needsUpdate
  }

  /** In a coherent arena, a node that needs an update has every ancestor marked as far as the
      way up stays visible: a traversal from the root that descends through marked, visible
      nodes reaches it. */
  lemma {:induction false} MarkedUpToRoot(m: Arena, rank: map<NodeId, nat>, bound: nat, x: NodeId)
    requires Closed(m, rank, bound) && Coherent(m) && x in m && m[x].needsUpdate
    requires VisibleBelowTop(m, Ancestors(m, rank, bound, Some(x)))
    ensures AllMarked(m, Ancestors(m, rank, bound, Some(x)))
    decreases bound - rank[x]
  {
    var cs := Ancestors(m, rank, bound, Some(x));
    var p := m[x].parent;
    if p.Some? {
      var q := p.value;
      assert NodeCoherent(m, x);
      var up := Ancestors(m, rank, bound, Some(q));
      assert cs == [x] + up;
      assert |up| > 0 && cs[0] == x;
      assert m[x].visible;
      forall i | 0 <= i < |up| - 1 ensures up[i] in m && m[up[i]].visible {
        assert up[i] == cs[i + 1];
      }
      MarkedUpToRoot(m, rank, bound, q);
      assert AllMarked(m, up);
      forall i | 0 <= i < |cs| ensures cs[i] in m && m[cs[i]].needsUpdate {
        if i > 0 {
          assert cs[i] == up[i - 1];
        }
      }
    }
  }

  // ---------------------------------------------------------------------------------------
  // linking and unlinking

  /** `before_add` as written: the only check is that the node has no parent yet. */
  function BeforeAddAccepts(m: Arena, c: NodeId): bool
    requires c in m
  {
    m[c].parent.None?
  }

  /** The arena with `c` inserted into `p`'s children at `index` and `p` made its parent. */
  function Link(m: Arena, p: NodeId, c: NodeId, index: nat): (r: Arena)
    requires p in m && c in m && index <= |m[p].children|
    ensures r.Keys == m.Keys
  {
    var m1 := m[c := m[c].(parent := Some(p))];
    var ks := m1[p].children;
    m1[p := m1[p].(children := ks[..index] + [c] + ks[index..])]
  }

  /** `add` as written, without the invalidation that follows: rejected when the node already
      has a parent, linked at the end of the children otherwise. */
  function AddAsWritten(m: Arena, p: NodeId, c: NodeId): (r: Result<Arena, string>)
    requires p in m && c in m
    ensures r.Success? <==> m[c].parent.None?
  {
    if !BeforeAddAccepts(m, c) then Failure("node is already assigned")
    else Success(Link(m, p, c, |m[p].children|))
  }

  /** Two parentless nodes 0 and 1 with no children. */
  function TwoRoots(): (m: Arena)
    ensures m.Keys == {0, 1} && m[0].parent.None? && m[1].parent.None?
  {
    var rec := NewRec(None, LayoutLength(None, 0.0, 0.0), LayoutLength(None, 0.0, 0.0), None);
    map[0 := rec, 1 := rec]
  }

  /** As written, `r.add(c)` followed by `c.add(r)` is accepted, because `r` still has no
      parent; each node then lists the other as a child, and no ranking of the child lists
      exists: every later downward walk (`update_restyle`, `dispose`) would recurse forever. */
  lemma AddAsWrittenCreatesCycle()
    ensures var m := TwoRoots();
      AddAsWritten(m, 0, 1).Success? &&
      var m1 := AddAsWritten(m, 0, 1).value;
      AddAsWritten(m1, 1, 0).Success? &&
      var m2 := AddAsWritten(m1, 1, 0).value;
      1 in m2[0].children && 0 in m2[1].children &&
      forall rank :: !Ranked(m2, rank)
  {
    var m := TwoRoots();
    var m1 := AddAsWritten(m, 0, 1).value;
    assert m1[0].children == [1];
    var m2 := AddAsWritten(m1, 1, 0).value;
    assert m2[1].children == [0];
    assert m2[0].children == [1];
    NoRankingWithCycle(m2, 0, 1);
  }

  /** Two nodes that list each other (or one node that lists itself) admit no ranking. */
  lemma NoRankingWithCycle(m: Arena, a: NodeId, b: NodeId)
    requires a in m && b in m && b in m[a].children && a in m[b].children
    ensures forall rank :: !Ranked(m, rank)
  {
  }

  /** As written, a parentless node may even be added to itself. */
  lemma AddAsWrittenSelfLoop()
    ensures var m := TwoRoots();
      AddAsWritten(m, 0, 0).Success? &&
      var m1 := AddAsWritten(m, 0, 0).value;
      0 in m1[0].children && forall rank :: !Ranked(m1, rank)
  {
    var m := TwoRoots();
    var m1 := AddAsWritten(m, 0, 0).value;
    assert m1[0].children == [0];
    NoRankingWithCycle(m1, 0, 0);
  }

  /** `before_add` with the check the tree needs: the node must have no parent yet, and it must
      not reach the new parent through child lists, which would close a cycle. */
  function BeforeAdd(m: Arena, ghost rank: map<NodeId, nat>, p: NodeId, c: NodeId): (r: Outcome<string>)
    requires Ranked(m, rank) && p in m && c in m
    ensures r.Pass? <==> AddAsWritten(m, p, c).Success? && !Reaches(m, rank, c, p)
    ensures r.Pass? ==> p != c
  {
    if !BeforeAddAccepts(m, c) then Fail("node is already assigned")
    else if Reaches(m, rank, c, p) then Fail("node would contain itself")
    else Pass
  }

  /** Whatever `x` reaches sits no higher than `x` in any ranking of an arena whose child lists
      include those of `m`. */
  lemma {:induction false} ReachesDescendsIn(m: Arena, rank: map<NodeId, nat>, m': Arena, rank': map<NodeId, nat>,
                                             x: NodeId, t: NodeId)
    requires Ranked(m, rank) && x in m && t in m && Reaches(m, rank, x, t)
    requires m.Keys <= m'.Keys && forall y, z :: y in m && z in m[y].children ==> z in m'[y].children
    ensures Ranked(m', rank') ==> rank'[t] <= rank'[x]
    decreases rank[x], 1
  {
    if x != t {
      ReachesAnyDescendsIn(m, rank, m', rank', m[x].children, t, x);
    }
  }

  lemma {:induction false} ReachesAnyDescendsIn(m: Arena, rank: map<NodeId, nat>, m': Arena, rank': map<NodeId, nat>,
                                                ks: seq<NodeId>, t: NodeId, x: NodeId)
    requires Ranked(m, rank) && x in m && t in m && forall k :: k in ks ==> k in m[x].children
    requires m.Keys <= m'.Keys && forall y, z :: y in m && z in m[y].children ==> z in m'[y].children
    requires ReachesAny(m, rank, ks, t, rank[x])
    ensures Ranked(m', rank') ==> rank'[t] < rank'[x]
    decreases rank[x], 0, |ks|
  {
    if Reaches(m, rank, ks[0], t) {
      ReachesDescendsIn(m, rank, m', rank', ks[0], t);
    } else {
      ReachesAnyDescendsIn(m, rank, m', rank', ks[1..], t, x);
    }
  }

  /** Linking a node under one of its own descendants (or under itself) leaves no ranking at
      all: the refusal the corrected check adds is exactly what keeps every walk finite. */
  lemma LinkUnderDescendantHasNoRanking(m: Arena, rank: map<NodeId, nat>, p: NodeId, c: NodeId, index: nat)
    requires Ranked(m, rank) && p in m && c in m && index <= |m[p].children| && Reaches(m, rank, c, p)
    ensures forall rank' :: !Ranked(Link(m, p, c, index), rank')
  {
    var m' := Link(m, p, c, index);
    var ks := m[p].children;
    assert m'[p].children == ks[..index] + [c] + ks[index..];
    assert ks == ks[..index] + ks[index..];
    assert forall y, z :: y in m && z in m[y].children ==> z in m'[y].children;
    forall rank' ensures !Ranked(m', rank') {
      ReachesDescendsIn(m, rank, m', rank', c, p);
    }
  }

  /** The ranking after linking `c` under `p`: every node that reaches `p` moves up by
      `rank[c] + 1`, so the new edge and every old edge still go downhill. */
  ghost function Rerank(m: Arena, rank: map<NodeId, nat>, p: NodeId, c: NodeId): map<NodeId, nat>
    requires Ranked(m, rank) && c in m
  {
    map y | y in rank :: if y in m && Reaches(m, rank, y, p) then rank[y] + rank[c] + 1 else rank[y]
  }

  /** The corrected `add`/`insert` (the node has no parent and does not reach the new parent)
      keeps the arena closed under the new ranking. */
  lemma LinkKeepsClosed(m: Arena, rank: map<NodeId, nat>, bound: nat, p: NodeId, c: NodeId, index: nat)
    requires Closed(m, rank, bound) && p in m && c in m && index <= |m[p].children|
    requires m[c].parent.None? && !Reaches(m, rank, c, p)
    ensures Closed(Link(m, p, c, index), Rerank(m, rank, p, c), bound + rank[c] + 1)
  {
    assert Reaches(m, rank, c, c);
    LinkChildren(m, p, c, index);
    LinkKeepsRanked(m, rank, Link(m, p, c, index), p, c);
    LinkKeepsLinked(m, p, c, index);
  }

  /** `m'` is `m` with `c` added to `p`'s children and `p` made `c`'s parent, and nothing else
      in the shape changed. */
  ghost predicate LinkEffect(m: Arena, m': Arena, p: NodeId, c: NodeId)
    requires p in m && c in m
  {
    m'.Keys == m.Keys &&
    (forall y :: y in m && y != p ==> m'[y].children == m[y].children) &&
    (forall z :: z in m'[p].children <==> z == c || z in m[p].children) &&
    (forall y :: y in m && y != c ==> m'[y].parent == m[y].parent) &&
    m'[c].parent == Some(p)
  }

  /** Linking only adds `c` to `p`'s children. */
  lemma LinkChildren(m: Arena, p: NodeId, c: NodeId, index: nat)
    requires p in m && c in m && index <= |m[p].children| && p != c
    ensures LinkEffect(m, Link(m, p, c, index), p, c)
  {
    var ks := m[p].children;
    var m' := Link(m, p, c, index);
    assert m'[p].children == ks[..index] + [c] + ks[index..];
    assert ks == ks[..index] + ks[index..];
  }

  lemma LinkKeepsRanked(m: Arena, rank: map<NodeId, nat>, m': Arena, p: NodeId, c: NodeId)
    requires Ranked(m, rank) && p in m && c in m && p != c
    requires !Reaches(m, rank, c, p) && LinkEffect(m, m', p, c)
    ensures Ranked(m', Rerank(m, rank, p, c))
  {
    var rank' := Rerank(m, rank, p, c);
    forall x, z | x in m' && z in m'[x].children ensures z in m' && rank'[z] < rank'[x] {
      LinkEdgeDownhill(m, rank, m', p, c, x, z);
    }
  }

  /** Every edge of the linked arena goes downhill under the new ranking. */
  lemma LinkEdgeDownhill(m: Arena, rank: map<NodeId, nat>, m': Arena, p: NodeId, c: NodeId, x: NodeId, z: NodeId)
    requires Ranked(m, rank) && p in m && c in m && p != c && !Reaches(m, rank, c, p)
    requires LinkEffect(m, m', p, c) && x in m' && z in m'[x].children
    ensures z in m' && Rerank(m, rank, p, c)[z] < Rerank(m, rank, p, c)[x]
  {
    var rank' := Rerank(m, rank, p, c);
    assert Reaches(m, rank, p, p);
    assert x in m && x in rank;
    var up := Reaches(m, rank, x, p);
    assert rank'[x] == if up then rank[x] + rank[c] + 1 else rank[x];
    if x == p && z == c {
      assert rank'[c] == rank[c];
    } else {
      assert z in m[x].children;
      assert z in m && z in rank && rank[z] < rank[x];
      var zup := Reaches(m, rank, z, p);
      if zup {
        ReachesThroughChild(m, rank, x, z, p);
      }
      assert rank'[z] == if zup then rank[z] + rank[c] + 1 else rank[z];
    }
  }

  lemma LinkKeepsLinked(m: Arena, p: NodeId, c: NodeId, index: nat)
    requires Linked(m) && p in m && c in m && index <= |m[p].children| && p != c
    requires LinkEffect(m, Link(m, p, c, index), p, c)
    ensures Linked(Link(m, p, c, index))
  {
  }

  /** Linking can only cost the linked node its coherence: its new parent may be unmarked. */
  lemma LinkKeepsCoherentExcept(m: Arena, p: NodeId, c: NodeId, index: nat)
    requires Coherent(m) && p in m && c in m && index <= |m[p].children| && p != c
    ensures CoherentExcept(Link(m, p, c, index), c)
  {
    var m' := Link(m, p, c, index);
    forall y | y in m' && y != c ensures NodeCoherent(m', y) {
      assert NodeCoherent(m, y);
    }
  }

  /** `set_needs_update` leaves the node's parent marked. */
  lemma InvalidateMarksParent(m: Arena, rank: map<NodeId, nat>, bound: nat, x: NodeId)
    requires Closed(m, rank, bound) && x in m && m[x].parent.Some?
    ensures Invalidate(m, rank, bound, x)[m[x].parent.value].needsUpdate
  {
    var q := m[x].parent.value;
    InvalidateMarksUnmarkedPrefix(m, rank, bound, x);
    if !m[q].needsUpdate {
      assert Ancestors(m, rank, bound, Some(q))[0] == q;
      assert UnmarkedWay(m, rank, bound, Some(q))[0] == q;
    }
  }

  /** Once the linked arena is closed under some ranking (`LinkKeepsClosed` gives one for an
      accepted `add` or `insert`), marking the node for a restyle and `set_needs_update` on it
      leave the arena closed and make it coherent again. */
  lemma AttachKeepsCoherent(m: Arena, rank: map<NodeId, nat>, bound: nat, p: NodeId, c: NodeId, index: nat)
    requires Coherent(m) && p in m && c in m && index <= |m[p].children| && p != c
    requires Closed(Link(m, p, c, index), rank, bound)
    ensures Closed(MarkRestyle(Link(m, p, c, index), c), rank, bound)
    ensures Coherent(Invalidate(MarkRestyle(Link(m, p, c, index), c), rank, bound, c))
  {
    var linked := Link(m, p, c, index);
    SameShapeClosed(linked, MarkRestyle(linked, c), rank, bound);
    LinkKeepsCoherentExcept(m, p, c, index);
    MarkRestyleKeepsCoherentExcept(linked, c);
    InvalidateRestoresCoherence(MarkRestyle(linked, c), rank, bound, c);
  }

  /** After an accepted `add` or `insert`, the node sits at `index` among the parent's
      children and has the parent as its parent; it needs a restyle and an update, and the
      parent needs an update; no other child list and no other parent changed. */
  lemma AttachEffect(m: Arena, rank: map<NodeId, nat>, bound: nat, p: NodeId, c: NodeId, index: nat)
    requires p in m && c in m && index <= |m[p].children| && p != c
    requires Closed(Link(m, p, c, index), rank, bound)
    ensures Closed(MarkRestyle(Link(m, p, c, index), c), rank, bound)
    ensures var r := Invalidate(MarkRestyle(Link(m, p, c, index), c), rank, bound, c);
      r.Keys == m.Keys &&
      r[c].parent == Some(p) && r[c].needsRestyle && r[c].needsUpdate && r[p].needsUpdate &&
      r[p].children == m[p].children[..index] + [c] + m[p].children[index..] &&
      (forall y :: y in m && y != p ==> r[y].children == m[y].children) &&
      (forall y :: y in m && y != c ==> r[y].parent == m[y].parent)
  {
    var linked := Link(m, p, c, index);
    var marked := MarkRestyle(linked, c);
    SameShapeClosed(linked, marked, rank, bound);
    var r := Invalidate(marked, rank, bound, c);
    InvalidateMarksParent(marked, rank, bound, c);
    InvalidateMarksUnmarkedPrefix(marked, rank, bound, c);
    assert r[c] == marked[c].(needsUpdate := true);
    assert SameShape(marked, r) && SameShape(linked, marked);
    LinkChildren(m, p, c, index);
  }

  /** The arena after `remove`'s unlinking: the node's parent cleared, every occurrence of it
      erased from `p`'s children. */
  function Unlink(m: Arena, p: NodeId, c: NodeId): (r: Arena)
    requires p in m && c in m
    ensures r.Keys == m.Keys
  {
    var m1 := m[c := m[c].(parent := None)];
    m1[p := m1[p].(children := Without(m1[p].children, c))]
  }

  /** Unlinking keeps the arena closed under the same ranking, and coherent. */
  lemma UnlinkKeepsClosed(m: Arena, rank: map<NodeId, nat>, bound: nat, p: NodeId, c: NodeId)
    requires Closed(m, rank, bound) && p in m && c in m
    ensures Closed(Unlink(m, p, c), rank, bound)
    ensures Coherent(m) ==> Coherent(Unlink(m, p, c))
  {
    UnlinkShape(m, p, c);
    UnlinkKeepsRanked(m, rank, p, c);
    UnlinkKeepsLinked(m, p, c);
    if Coherent(m) {
      UnlinkKeepsCoherent(m, p, c);
    }
  }

  /** `m'` is `m` with `c` erased from `p`'s children and `c`'s parent cleared, and nothing
      else about the nodes changed. */
  ghost predicate UnlinkEffect(m: Arena, m': Arena, p: NodeId, c: NodeId)
    requires p in m && c in m
  {
    m'.Keys == m.Keys &&
    (forall y :: y in m && y != p ==> m'[y].children == m[y].children) &&
    m'[p].children == Without(m[p].children, c) &&
    (forall y :: y in m && y != c ==> m'[y].parent == m[y].parent) &&
    m'[c].parent == None &&
    (forall y :: y in m ==> m'[y].visible == m[y].visible && m'[y].needsUpdate == m[y].needsUpdate &&
                            m'[y].needsRestyle == m[y].needsRestyle && m'[y].layer == m[y].layer)
  }

  /** Unlinking only shortens `p`'s children and clears `c`'s parent. */
  lemma UnlinkShape(m: Arena, p: NodeId, c: NodeId)
    requires p in m && c in m
    ensures UnlinkEffect(m, Unlink(m, p, c), p, c)
  {
    var m1 := m[c := m[c].(parent := None)];
    var m' := m1[p := m1[p].(children := Without(m1[p].children, c))];
    assert Unlink(m, p, c) == m';
    assert m1[p].children == m[p].children;
    forall y | y in m
      ensures m'[y].visible == m[y].visible && m'[y].needsUpdate == m[y].needsUpdate
      ensures m'[y].needsRestyle == m[y].needsRestyle && m'[y].layer == m[y].layer
      ensures y != p ==> m'[y].children == m[y].children
      ensures y != c ==> m'[y].parent == m[y].parent
    {
      if y == p {
      } else if y == c {
      } else {
        assert m'[y] == m[y];
      }
    }
  }

  lemma UnlinkKeepsRanked(m: Arena, rank: map<NodeId, nat>, p: NodeId, c: NodeId)
    requires Ranked(m, rank) && p in m && c in m
    requires UnlinkEffect(m, Unlink(m, p, c), p, c)
    ensures Ranked(Unlink(m, p, c), rank)
  {
    FewerChildrenKeepRanked(m, Unlink(m, p, c), rank, p, c);
  }

  /** Erasing `c` from `p`'s children, and changing no other child list, keeps the ranking. */
  lemma FewerChildrenKeepRanked(m: Arena, m': Arena, rank: map<NodeId, nat>, p: NodeId, c: NodeId)
    requires Ranked(m, rank) && p in m && m'.Keys == m.Keys
    requires forall y :: y in m && y != p ==> m'[y].children == m[y].children
    requires m'[p].children == Without(m[p].children, c)
    ensures Ranked(m', rank)
  {
    WithoutMembers(m[p].children, c);
    forall x, k | x in m' && k in m'[x].children ensures k in m' && rank[k] < rank[x] {
      assert k in m[x].children;
    }
  }

  lemma UnlinkKeepsLinked(m: Arena, p: NodeId, c: NodeId)
    requires Linked(m) && p in m && c in m
    requires UnlinkEffect(m, Unlink(m, p, c), p, c)
    ensures Linked(Unlink(m, p, c))
  {
    var m' := Unlink(m, p, c);
    forall y | y in m' && m'[y].parent.Some?
      ensures m'[y].parent.value in m' && y in m'[m'[y].parent.value].children
    {
      var q := m[y].parent.value;
      if q == p {
        var s := m[p].children;
        var i :| 0 <= i < |s| && s[i] == y;
        assert s[i] != c;
      }
    }
  }

  lemma UnlinkKeepsCoherent(m: Arena, p: NodeId, c: NodeId)
    requires Coherent(m) && p in m && c in m
    requires UnlinkEffect(m, Unlink(m, p, c), p, c)
    ensures Coherent(Unlink(m, p, c))
  {
    var m' := Unlink(m, p, c);
    forall y | y in m' ensures NodeCoherent(m', y) {
      assert NodeCoherent(m, y);
    }
  }

  // ---------------------------------------------------------------------------------------
  // disposing and destroying

  /** A new record with no parent and no children, under a fresh id of rank 0, keeps the arena
      closed; it keeps it coherent when its restyle flag implies its update flag. */
  lemma FreshKeepsClosed(m: Arena, rank: map<NodeId, nat>, bound: nat, id: NodeId, rec: NodeRec)
    requires Closed(m, rank, bound) && id !in m && rec.parent.None? && rec.children == []
    ensures Closed(m[id := rec], rank[id := 0], bound + 1)
    ensures Coherent(m) && (rec.needsRestyle ==> rec.needsUpdate) ==> Coherent(m[id := rec])
  {
    var m' := m[id := rec];
    assert forall x :: x in m ==> m'[x] == m[x];
    if Coherent(m) && (rec.needsRestyle ==> rec.needsUpdate) {
      forall x | x in m' ensures NodeCoherent(m', x) {
        if x != id {
          assert NodeCoherent(m, x);
        }
      }
    }
  }

  /** The layers `dispose` resets: the node's own, then those below each child in turn. */
  function SubLayers(m: Arena, ghost rank: map<NodeId, nat>, id: NodeId): set<RenderLayer>
    requires Ranked(m, rank) && id in m
    decreases rank[id], 1
  {
    (if m[id].layer.Some? then {m[id].layer.value} else {}) + SubLayersAny(m, rank, m[id].children, rank[id])
  }

  function SubLayersAny(m: Arena, ghost rank: map<NodeId, nat>, ks: seq<NodeId>, ghost r: nat): set<RenderLayer>
    requires Ranked(m, rank) && forall k :: k in ks ==> k in m && rank[k] < r
    decreases r, 0, |ks|
  {
    if |ks| == 0 then {} else SubLayers(m, rank, ks[0]) + SubLayersAny(m, rank, ks[1..], r)
  }

  /** The layers `dispose` resets are exactly the layers of the nodes the node reaches. */
  lemma {:induction false} SubLayersAreReachable(m: Arena, rank: map<NodeId, nat>, id: NodeId, l: RenderLayer)
    requires Ranked(m, rank) && id in m
    ensures l in SubLayers(m, rank, id) <==>
              exists y :: y in m && Reaches(m, rank, id, y) && m[y].layer == Some(l)
    decreases rank[id], 1
  {
    SubLayersAnyAreReachable(m, rank, m[id].children, rank[id], l);
    if l in SubLayers(m, rank, id) && m[id].layer == Some(l) {
      assert Reaches(m, rank, id, id);
    }
  }

  lemma {:induction false} SubLayersAnyAreReachable(m: Arena, rank: map<NodeId, nat>, ks: seq<NodeId>, r: nat,
                                                    l: RenderLayer)
    requires Ranked(m, rank) && forall k :: k in ks ==> k in m && rank[k] < r
    ensures l in SubLayersAny(m, rank, ks, r) <==>
              exists y :: y in m && ReachesAny(m, rank, ks, y, r) && m[y].layer == Some(l)
    decreases r, 0, |ks|
  {
    if |ks| > 0 {
      SubLayersAreReachable(m, rank, ks[0], l);
      SubLayersAnyAreReachable(m, rank, ks[1..], r, l);
    }
  }

  /** The layers below a concatenation of child lists are those below each part. */
  lemma {:induction false} SubLayersAnyAppend(m: Arena, rank: map<NodeId, nat>, a: seq<NodeId>, b: seq<NodeId>,
                                              r: nat)
    requires Ranked(m, rank) && forall k :: k in a + b ==> k in m && rank[k] < r
    ensures SubLayersAny(m, rank, a + b, r) == SubLayersAny(m, rank, a, r) + SubLayersAny(m, rank, b, r)
    decreases |a|
  {
    if |a| == 0 {
      assert a + b == b;
    } else {
      assert (a + b)[1..] == a[1..] + b;
      SubLayersAnyAppend(m, rank, a[1..], b, r);
    }
  }

  /** The layers below the first `i` of the nodes `ks`. */
  function SubLayersPrefix(m: Arena, ghost rank: map<NodeId, nat>, ks: seq<NodeId>, i: nat, ghost r: nat): set<RenderLayer>
    requires Ranked(m, rank) && i <= |ks| && forall k :: k in ks ==> k in m && rank[k] < r
  {
    SubLayersAny(m, rank, ks[..i], r)
  }

  /** The prefix grows by the layers below the next node, and covers every node at the end. */
  lemma SubLayersPrefixStep(m: Arena, rank: map<NodeId, nat>, ks: seq<NodeId>, i: nat, r: nat)
    requires Ranked(m, rank) && i < |ks| && forall k :: k in ks ==> k in m && rank[k] < r
    ensures SubLayersPrefix(m, rank, ks, i + 1, r) == SubLayersPrefix(m, rank, ks, i, r) + SubLayers(m, rank, ks[i])
  {
    assert ks[..i + 1] == ks[..i] + [ks[i]];
    SubLayersAnyAppend(m, rank, ks[..i], [ks[i]], r);
  }

  lemma SubLayersPrefixEnds(m: Arena, rank: map<NodeId, nat>, ks: seq<NodeId>, r: nat)
    requires Ranked(m, rank) && forall k :: k in ks ==> k in m && rank[k] < r
    ensures SubLayersPrefix(m, rank, ks, 0, r) == {}
    ensures SubLayersPrefix(m, rank, ks, |ks|, r) == SubLayersAny(m, rank, ks, r)
  {
    assert ks[..|ks|] == ks;
  }

  /** The arena after the destructor's loop: every listed child has its parent cleared. */
  function Orphan(m: Arena, ks: seq<NodeId>): (r: Arena)
    requires forall k :: k in ks ==> k in m
    ensures r.Keys == m.Keys
  {
    if |ks| == 0 then m else Orphan(m[ks[0] := m[ks[0]].(parent := None)], ks[1..])
  }

  /** Orphaning clears the parent of exactly the listed nodes and changes nothing else. */
  lemma {:induction false} OrphanAt(m: Arena, ks: seq<NodeId>)
    requires forall k :: k in ks ==> k in m
    ensures forall y :: y in m ==> Orphan(m, ks)[y] == (if y in ks then m[y].(parent := None) else m[y])
  {
    if |ks| > 0 {
      var m1 := m[ks[0] := m[ks[0]].(parent := None)];
      OrphanAt(m1, ks[1..]);
      assert forall y :: y in ks <==> y == ks[0] || y in ks[1..];
    }
  }

  /** Destroying a node no child list holds: its children lose their parent and its record
      leaves the arena; the arena stays closed and coherent under the ranking without it. */
  lemma ReleaseKeepsClosed(m: Arena, rank: map<NodeId, nat>, bound: nat, id: NodeId)
    requires Closed(m, rank, bound) && id in m && forall x :: x in m ==> id !in m[x].children
    ensures Closed(Orphan(m, m[id].children) - {id}, rank - {id}, bound)
    ensures Coherent(m) ==> Coherent(Orphan(m, m[id].children) - {id})
  {
    var r := Orphan(m, m[id].children) - {id};
    ReleaseShape(m, id, r);
    ReleaseKeepsRanked(m, rank, id, r);
    ReleaseKeepsLinked(m, id, r);
    ReleaseKeepsBound(m, rank, bound, id, r);
    if Coherent(m) {
      ReleaseKeepsCoherent(m, id, r);
    }
  }

  lemma ReleaseKeepsBound(m: Arena, rank: map<NodeId, nat>, bound: nat, id: NodeId, r: Arena)
    requires (forall x :: x in m ==> x in rank && rank[x] < bound) && r.Keys == m.Keys - {id}
    ensures forall x :: x in r ==> x in rank - {id} && (rank - {id})[x] < bound
  {
  }

  /** `r` is `m` without `id`, with the parents of `id`'s children cleared, and nothing else
      about the nodes changed. */
  ghost predicate ReleaseEffect(m: Arena, id: NodeId, r: Arena)
    requires id in m
  {
    r.Keys == m.Keys - {id} &&
    forall x :: x in r ==>
      r[x].children == m[x].children && r[x].visible == m[x].visible &&
      r[x].needsUpdate == m[x].needsUpdate && r[x].needsRestyle == m[x].needsRestyle &&
      r[x].parent == (if x in m[id].children then None else m[x].parent)
  }

  lemma ReleaseShape(m: Arena, id: NodeId, r: Arena)
    requires id in m && (forall k :: k in m[id].children ==> k in m)
    requires r == Orphan(m, m[id].children) - {id}
    ensures ReleaseEffect(m, id, r)
  {
    OrphanAt(m, m[id].children);
  }

  lemma ReleaseKeepsRanked(m: Arena, rank: map<NodeId, nat>, id: NodeId, r: Arena)
    requires Ranked(m, rank) && id in m && forall x :: x in m ==> id !in m[x].children
    requires ReleaseEffect(m, id, r)
    ensures Ranked(r, rank - {id})
  {
  }

  lemma ReleaseKeepsLinked(m: Arena, id: NodeId, r: Arena)
    requires Linked(m) && id in m && ReleaseEffect(m, id, r)
    ensures Linked(r)
  {
    forall x | x in r && r[x].parent.Some?
      ensures r[x].parent.value in r && x in r[r[x].parent.value].children
    {
      assert m[x].parent == r[x].parent;
    }
  }

  lemma ReleaseKeepsCoherent(m: Arena, id: NodeId, r: Arena)
    requires Coherent(m) && id in m && ReleaseEffect(m, id, r)
    ensures Coherent(r)
  {
    forall x | x in r ensures NodeCoherent(r, x) {
      assert NodeCoherent(m, x);
    }
  }
}
