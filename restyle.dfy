/** `update_restyle` as a function of the arena: the pruning traversal that walks down from a
    node through its visible children, marks layers dirty for restyled nodes, recomputes the
    automatic size of layout nodes and clears both dirty flags; and what it leaves behind. */
module Restyles {
  import opened Wrappers
  import opened Types
  import opened Rendering
  import opened NodeRecords
  import opened Arenas
  import opened Layouts

  /** The arena after a traversal, and the layers it marked dirty on the way. */
  datatype Restyled = Restyled(nodes: Arena, dirtied: set<RenderLayer>)

  /** The records of `ks`, in order. */
  function KidRecs(m: Arena, ks: seq<NodeId>): (r: seq<NodeRec>)
    requires forall k :: k in ks ==> k in m
    ensures |r| == |ks| && forall i :: 0 <= i < |ks| ==> r[i] == m[ks[i]]
  {
    seq(|ks|, i requires 0 <= i < |ks| => m[ks[i]])
  }

  /** `update_content`: a layout node recomputes its automatic size from its children; every
      other node keeps its record (the base implementation is empty). */
  function Content(self: NodeRec, kids: seq<NodeRec>, ctx: Context, style: ImStyle): NodeRec {
    match self.layout
    case None => self
    case Some(props) =>
      self.(automaticWidth := AutoWidth(self, props.direction, kids, ctx, style),
            automaticHeight := AutoHeight(self, props.direction, kids, ctx, style))
  }

  /** `update_restyle(force)` on `id`. `force` is or-ed into both flags; without an update
      pending the subtree is left alone. Otherwise a pending restyle marks the node's own layer
      dirty, every visible child is restyled (forced when this node restyles), the content is
      updated and both flags are cleared. The or-ed flags are held aside until the end: no
      step of the traversal reads the flags of a node above the one it visits. */
  function Restyle(m: Arena, ghost rank: map<NodeId, nat>, id: NodeId, force: bool, ctx: Context,
                   style: ImStyle): (r: Restyled)
    requires Ranked(m, rank) && id in m
    ensures SameShape(m, r.nodes)
    ensures r.dirtied <= LayersOf(m)
    decreases rank[id], 1
  {
    var rec := m[id];
    var restyle := rec.needsRestyle || force;
    var update := rec.needsUpdate || force;
    if !update then Restyled(m, {})
    else
      var own: set<RenderLayer> := if restyle && rec.layer.Some? then {rec.layer.value} else {};
      var kids := RestyleKids(m, rank, rec.children, restyle, ctx, style, rank[id]);
      var mk := kids.nodes;
      SameShapeRanked(m, mk, rank);
      var self := Content(mk[id], KidRecs(mk, mk[id].children), ctx, style);
      var r := mk[id := self.(needsUpdate := false, needsRestyle := false)];
      SameShapeStore(mk, id, self.(needsUpdate := false, needsRestyle := false));
      SameShapeTrans(m, mk, r);
      SameLayers(m, mk);
      Restyled(r, own + kids.dirtied)
  }

  /** The loop over the children, front to back: each visible one is restyled in turn on what
      the ones before it left. */
  function RestyleKids(m: Arena, ghost rank: map<NodeId, nat>, ks: seq<NodeId>, force: bool, ctx: Context,
                       style: ImStyle, ghost bound: nat): (r: Restyled)
    requires Ranked(m, rank) && forall k :: k in ks ==> k in m && rank[k] < bound
    ensures SameShape(m, r.nodes)
    ensures r.dirtied <= LayersOf(m)
    decreases bound, 0, |ks|
  {
    if |ks| == 0 then Restyled(m, {})
    else
      var first := RestyleIfVisible(m, rank, ks[0], force, ctx, style);
      SameShapeRanked(m, first.nodes, rank);
      var rest := RestyleKids(first.nodes, rank, ks[1..], force, ctx, style, bound);
      SameShapeTrans(m, first.nodes, rest.nodes);
      SameLayers(m, first.nodes);
      Restyled(rest.nodes, first.dirtied + rest.dirtied)
  }

  /** One turn of the loop: the child is restyled when it is visible and skipped
      otherwise. */
  function RestyleIfVisible(m: Arena, ghost rank: map<NodeId, nat>, k: NodeId, force: bool, ctx: Context,
                            style: ImStyle): (r: Restyled)
    requires Ranked(m, rank) && k in m
    ensures SameShape(m, r.nodes)
    ensures r.dirtied <= LayersOf(m)
    decreases rank[k], 2
  {
    if m[k].visible then Restyle(m, rank, k, force, ctx, style) else Restyled(m, {})
  }

  // ---------------------------------------------------------------------------------------
  // one call

  /** Without a pending update and without force, nothing changes; otherwise the node ends
      with both flags cleared, and its layer is dirty when it restyled. */
  lemma RestyleOutcome(m: Arena, rank: map<NodeId, nat>, id: NodeId, force: bool, ctx: Context, style: ImStyle)
    requires Ranked(m, rank) && id in m
    ensures !(m[id].needsUpdate || force) ==> Restyle(m, rank, id, force, ctx, style) == Restyled(m, {})
    ensures (m[id].needsUpdate || force) ==>
              !Restyle(m, rank, id, force, ctx, style).nodes[id].needsUpdate &&
              !Restyle(m, rank, id, force, ctx, style).nodes[id].needsRestyle
    ensures (m[id].needsUpdate || force) && (m[id].needsRestyle || force) && m[id].layer.Some? ==>
              m[id].layer.value in Restyle(m, rank, id, force, ctx, style).dirtied
  {
  }

  /** Restyling leaves the node clean, so a second unforced restyle right after changes
      nothing. */
  lemma SecondRestyleIsNoop(m: Arena, rank: map<NodeId, nat>, id: NodeId, force: bool, ctx: Context, style: ImStyle)
    requires Ranked(m, rank) && id in m
    ensures Ranked(Restyle(m, rank, id, force, ctx, style).nodes, rank)
    ensures Restyle(Restyle(m, rank, id, force, ctx, style).nodes, rank, id, false, ctx, style) ==
              Restyled(Restyle(m, rank, id, force, ctx, style).nodes, {})
  {
    SameShapeRanked(m, Restyle(m, rank, id, force, ctx, style).nodes, rank);
    RestyleOutcome(m, rank, id, force, ctx, style);
  }

  /** With no visible child, the loop over the children changes nothing. */
  lemma {:induction false} HiddenKidsAreSkipped(m: Arena, rank: map<NodeId, nat>, ks: seq<NodeId>, force: bool,
                                                ctx: Context, style: ImStyle, bound: nat)
    requires Ranked(m, rank) && forall k :: k in ks ==> k in m && rank[k] < bound
    requires forall k :: k in ks ==> !m[k].visible
    ensures RestyleKids(m, rank, ks, force, ctx, style, bound) == Restyled(m, {})
    decreases |ks|
  {
    if |ks| > 0 {
      HiddenKidsAreSkipped(m, rank, ks[1..], force, ctx, style, bound);
    }
  }

  // ---------------------------------------------------------------------------------------
  // what a traversal leaves behind

  /** `x` and, below it, every visible child that `x` owns (whose parent is `x`), have neither
      flag set. */
  ghost predicate CleanBelow(m: Arena, rank: map<NodeId, nat>, x: NodeId)
    requires Ranked(m, rank) && x in m
    decreases rank[x]
  {
    !m[x].needsUpdate && !m[x].needsRestyle &&
    forall c :: c in m[x].children && m[c].visible && m[c].parent == Some(x) ==> CleanBelow(m, rank, c)
  }

  /** Neither flag is set in `m'` where it was not set in `m`. */
  ghost predicate NeverMarks(m: Arena, m': Arena)
    requires m'.Keys == m.Keys
  {
    forall y :: y in m ==>
      (m'[y].needsUpdate ==> m[y].needsUpdate) && (m'[y].needsRestyle ==> m[y].needsRestyle)
  }

  /** Every node of `m'` is as it was in `m` or is clean below. */
  ghost predicate Settles(m: Arena, m': Arena, rank: map<NodeId, nat>) {
    SameShape(m, m') && Ranked(m', rank) &&
    forall y :: y in m ==> m'[y] == m[y] || CleanBelow(m', rank, y)
  }

  lemma SettlesNeverMarks(m: Arena, m': Arena, rank: map<NodeId, nat>)
    requires Settles(m, m', rank)
    ensures NeverMarks(m, m')
  {
    forall y | y in m
      ensures (m'[y].needsUpdate ==> m[y].needsUpdate) && (m'[y].needsRestyle ==> m[y].needsRestyle)
    {
      if m'[y] != m[y] {
        assert CleanBelow(m', rank, y);
      }
    }
  }

  /** Cleanness below a node survives a change that sets no flag. */
  lemma {:induction false} CleanBelowStays(m: Arena, m': Arena, rank: map<NodeId, nat>, x: NodeId)
    requires Ranked(m, rank) && Ranked(m', rank) && SameShape(m, m') && NeverMarks(m, m')
    requires x in m && CleanBelow(m, rank, x)
    ensures CleanBelow(m', rank, x)
    decreases rank[x]
  {
    forall c | c in m'[x].children && m'[c].visible && m'[c].parent == Some(x)
      ensures CleanBelow(m', rank, c)
    {
      CleanBelowStays(m, m', rank, c);
    }
  }

  lemma SettlesTransitive(m: Arena, m1: Arena, m2: Arena, rank: map<NodeId, nat>)
    requires Settles(m, m1, rank) && Settles(m1, m2, rank)
    ensures Settles(m, m2, rank)
  {
    SettlesNeverMarks(m1, m2, rank);
    forall y | y in m ensures m2[y] == m[y] || CleanBelow(m2, rank, y) {
      if m2[y] != m[y] && m2[y] == m1[y] {
        CleanBelowStays(m1, m2, rank, y);
      }
    }
  }

  /** In a coherent arena an unmarked node is clean below: a visible owned child needing an
      update would have marked it. */
  lemma {:induction false} UnmarkedIsCleanBelow(m: Arena, rank: map<NodeId, nat>, x: NodeId)
    requires Ranked(m, rank) && Coherent(m) && x in m && !m[x].needsUpdate
    ensures CleanBelow(m, rank, x)
    decreases rank[x]
  {
    assert NodeCoherent(m, x);
    forall c | c in m[x].children && m[c].visible && m[c].parent == Some(x)
      ensures CleanBelow(m, rank, c)
    {
      assert NodeCoherent(m, c);
      UnmarkedIsCleanBelow(m, rank, c);
    }
  }

  /** A visible child owned by a node that is clean below needs no update. */
  lemma OwnedChildOfClean(m: Arena, rank: map<NodeId, nat>, q: NodeId, y: NodeId)
    requires Ranked(m, rank) && q in m && y in m[q].children && m[y].visible && m[y].parent == Some(q)
    ensures CleanBelow(m, rank, q) ==> !m[y].needsUpdate
  {
    if CleanBelow(m, rank, q) {
      assert CleanBelow(m, rank, y);
    }
  }

  /** A traversal that only settles nodes keeps a linked arena coherent: a node left marked by
      it still has its parent marked, since a parent that was cleaned was cleaned with all its
      visible owned children. */
  lemma SettlesKeepsCoherent(m: Arena, m': Arena, rank: map<NodeId, nat>)
    requires Linked(m) && Coherent(m) && Settles(m, m', rank)
    ensures Coherent(m')
  {
    forall y | y in m' ensures NodeCoherent(m', y) {
      assert NodeCoherent(m, y);
      if m'[y] != m[y] {
        assert CleanBelow(m', rank, y);
      } else if m'[y].parent.Some? && m'[y].visible && m'[y].needsUpdate {
        var q := m[y].parent.value;
        assert q in m && y in m[q].children;
        assert m'[q] == m[q] || CleanBelow(m', rank, q);
        OwnedChildOfClean(m', rank, q, y);
      }
    }
  }

  /** On a coherent, linked arena, `update_restyle` only settles nodes, and when it did not
      prune, the node ends clean below. */
  lemma {:induction false} RestyleSettles(m: Arena, rank: map<NodeId, nat>, id: NodeId, force: bool,
                                          ctx: Context, style: ImStyle)
    requires Ranked(m, rank) && Linked(m) && Coherent(m) && id in m
    ensures Settles(m, Restyle(m, rank, id, force, ctx, style).nodes, rank)
    ensures (m[id].needsUpdate || force) ==> CleanBelow(Restyle(m, rank, id, force, ctx, style).nodes, rank, id)
    decreases rank[id], 1
  {
    var rec := m[id];
    var restyle := rec.needsRestyle || force;
    if rec.needsUpdate || force {
      var mk := RestyleKids(m, rank, rec.children, restyle, ctx, style, rank[id]).nodes;
      RestyleKidsSettle(m, rank, rec.children, restyle, ctx, style, rank[id]);
      SameShapeRanked(m, mk, rank);
      var self := Content(mk[id], KidRecs(mk, mk[id].children), ctx, style);
      var done := self.(needsUpdate := false, needsRestyle := false);
      RestyleUnfold(m, rank, id, force, ctx, style, mk, done);
      FinishSettles(m, mk, rank, id, done);
    } else {
      assert Settles(m, m, rank);
    }
  }

  /** The arena a restyle that did not prune leaves: the children's loop, then the node's
      content updated and its flags cleared. */
  lemma RestyleUnfold(m: Arena, rank: map<NodeId, nat>, id: NodeId, force: bool, ctx: Context, style: ImStyle,
                      mk: Arena, done: NodeRec)
    requires Ranked(m, rank) && id in m && (m[id].needsUpdate || force)
    requires mk == RestyleKids(m, rank, m[id].children, m[id].needsRestyle || force, ctx, style, rank[id]).nodes
    requires Ranked(mk, rank) && id in mk
    requires done == Content(mk[id], KidRecs(mk, mk[id].children), ctx, style).(needsUpdate := false, needsRestyle := false)
    ensures Restyle(m, rank, id, force, ctx, style).nodes == mk[id := done]
  {
  }

  /** A restyle that did not prune, assembled from its parts: the children's loop leaves `mk`
      and marks `kids`, the node's own layer is marked when it restyles, and the node's record
      becomes `done`. */
  lemma RestyleSteps(m: Arena, rank: map<NodeId, nat>, id: NodeId, force: bool, ctx: Context, style: ImStyle,
                     mk: Arena, done: NodeRec, own: set<RenderLayer>, kids: set<RenderLayer>)
    requires Ranked(m, rank) && id in m && (m[id].needsUpdate || force)
    requires mk == RestyleKids(m, rank, m[id].children, m[id].needsRestyle || force, ctx, style, rank[id]).nodes
    requires kids == RestyleKids(m, rank, m[id].children, m[id].needsRestyle || force, ctx, style, rank[id]).dirtied
    requires own == if (m[id].needsRestyle || force) && m[id].layer.Some? then {m[id].layer.value} else {}
    requires id in mk
    requires done == Content(mk[id], KidRecs(mk, mk[id].children), ctx, style).(needsUpdate := false, needsRestyle := false)
    ensures Restyle(m, rank, id, force, ctx, style) == Restyled(mk[id := done], own + kids)
  {
  }

  /** Clearing both flags of a node whose visible children are all clean below makes it clean
      below too, and keeps the arena settled. */
  lemma FinishSettles(m: Arena, mk: Arena, rank: map<NodeId, nat>, id: NodeId, done: NodeRec)
    requires Ranked(m, rank) && Settles(m, mk, rank) && id in m
    requires done.parent == mk[id].parent && done.children == mk[id].children
    requires done.visible == mk[id].visible && done.layer == mk[id].layer
    requires !done.needsUpdate && !done.needsRestyle
    requires forall c :: c in m[id].children && m[c].visible ==> CleanBelow(mk, rank, c)
    ensures Settles(m, mk[id := done], rank)
    ensures CleanBelow(mk[id := done], rank, id)
  {
    assert forall c :: c in mk[id].children && mk[c].visible ==> CleanBelow(mk, rank, c);
    ClearSettles(mk, mk[id := done], rank, id, done);
    SettlesTransitive(m, mk, mk[id := done], rank);
  }

  /** The step of FinishSettles within the arena the children's loop left: `r` is `mk` with
      the record of `id` replaced by `done`. */
  lemma ClearSettles(mk: Arena, r: Arena, rank: map<NodeId, nat>, id: NodeId, done: NodeRec)
    requires Ranked(mk, rank) && id in mk
    requires r.Keys == mk.Keys && r[id] == done && forall y :: y in mk && y != id ==> r[y] == mk[y]
    requires done.parent == mk[id].parent && done.children == mk[id].children
    requires done.visible == mk[id].visible && done.layer == mk[id].layer
    requires !done.needsUpdate && !done.needsRestyle
    requires forall c :: c in mk[id].children && mk[c].visible ==> CleanBelow(mk, rank, c)
    ensures Settles(mk, r, rank)
    ensures CleanBelow(r, rank, id)
  {
    assert SameShape(mk, r);
    SameShapeRanked(mk, r, rank);
    assert NeverMarks(mk, r);
    forall c | c in r[id].children && r[c].visible && r[c].parent == Some(id)
      ensures CleanBelow(r, rank, c)
    {
      CleanBelowStays(mk, r, rank, c);
    }
  }

  /** One turn of the loop settles the arena, keeps it linked and coherent, and leaves the
      child clean below when it is visible. */
  lemma RestyleIfVisibleSettles(m: Arena, rank: map<NodeId, nat>, k: NodeId, force: bool,
                                ctx: Context, style: ImStyle)
    requires Ranked(m, rank) && Linked(m) && Coherent(m) && k in m
    ensures Settles(m, RestyleIfVisible(m, rank, k, force, ctx, style).nodes, rank)
    ensures Linked(RestyleIfVisible(m, rank, k, force, ctx, style).nodes)
    ensures Coherent(RestyleIfVisible(m, rank, k, force, ctx, style).nodes)
    ensures m[k].visible ==> CleanBelow(RestyleIfVisible(m, rank, k, force, ctx, style).nodes, rank, k)
    decreases rank[k], 2
  {
    var m1 := RestyleIfVisible(m, rank, k, force, ctx, style).nodes;
    if m[k].visible {
      RestyleSettles(m, rank, k, force, ctx, style);
      if !(m[k].needsUpdate || force) {
        UnmarkedIsCleanBelow(m, rank, k);
      }
    } else {
      assert Settles(m, m1, rank);
    }
    SameShapeLinked(m, m1);
    SettlesKeepsCoherent(m, m1, rank);
  }

  /** The loop over the children only settles nodes and leaves every visible child clean
      below. */
  lemma {:induction false} RestyleKidsSettle(m: Arena, rank: map<NodeId, nat>, ks: seq<NodeId>, force: bool,
                                             ctx: Context, style: ImStyle, bound: nat)
    requires Ranked(m, rank) && Linked(m) && Coherent(m)
    requires forall k :: k in ks ==> k in m && rank[k] < bound
    ensures Settles(m, RestyleKids(m, rank, ks, force, ctx, style, bound).nodes, rank)
    ensures forall k :: k in ks && m[k].visible ==>
              CleanBelow(RestyleKids(m, rank, ks, force, ctx, style, bound).nodes, rank, k)
    decreases bound, 0, |ks|
  {
    if |ks| == 0 {
      assert Settles(m, m, rank);
    } else {
      var m1 := RestyleIfVisible(m, rank, ks[0], force, ctx, style).nodes;
      RestyleIfVisibleSettles(m, rank, ks[0], force, ctx, style);
      RestyleKidsSettle(m1, rank, ks[1..], force, ctx, style, bound);
      var m2 := RestyleKids(m1, rank, ks[1..], force, ctx, style, bound).nodes;
      RestyleKidsStep(m, rank, ks, force, ctx, style, bound);
      CombineTurns(m, m1, m2, rank, ks);
    }
  }

  /** One turn of the loop, then the rest of it. */
  lemma RestyleKidsStep(m: Arena, rank: map<NodeId, nat>, ks: seq<NodeId>, force: bool,
                        ctx: Context, style: ImStyle, bound: nat)
    requires Ranked(m, rank) && |ks| > 0 && forall k :: k in ks ==> k in m && rank[k] < bound
    ensures Ranked(RestyleIfVisible(m, rank, ks[0], force, ctx, style).nodes, rank)
    ensures RestyleKids(m, rank, ks, force, ctx, style, bound).nodes ==
              RestyleKids(RestyleIfVisible(m, rank, ks[0], force, ctx, style).nodes, rank, ks[1..], force, ctx, style, bound).nodes
  {
    SameShapeRanked(m, RestyleIfVisible(m, rank, ks[0], force, ctx, style).nodes, rank);
  }

  /** The loop from position `i` on is the turn at `i` followed by the loop from `i + 1`. */
  lemma RestyleKidsUnfold(m: Arena, rank: map<NodeId, nat>, ks: seq<NodeId>, i: nat, force: bool,
                          ctx: Context, style: ImStyle, bound: nat)
    requires Ranked(m, rank) && i < |ks| && forall k :: k in ks ==> k in m && rank[k] < bound
    ensures Ranked(RestyleIfVisible(m, rank, ks[i], force, ctx, style).nodes, rank)
    ensures var step := RestyleIfVisible(m, rank, ks[i], force, ctx, style);
            var rest := RestyleKids(step.nodes, rank, ks[i + 1..], force, ctx, style, bound);
            RestyleKids(m, rank, ks[i..], force, ctx, style, bound) == Restyled(rest.nodes, step.dirtied + rest.dirtied)
  {
    assert ks[i..][0] == ks[i] && ks[i..][1..] == ks[i + 1..];
    SameShapeRanked(m, RestyleIfVisible(m, rank, ks[i], force, ctx, style).nodes, rank);
  }

  /** The account the children's loop keeps at `i`: what is left to do from `i` on, together
      with the layers marked so far, still adds up to the whole loop. */
  ghost predicate KidsLeft(m: Arena, rank: map<NodeId, nat>, ks: seq<NodeId>, i: nat, force: bool,
                           ctx: Context, style: ImStyle, bound: nat, dirt: set<RenderLayer>, whole: Restyled)
  {
    Ranked(m, rank) && i <= |ks| && (forall k :: k in ks ==> k in m && rank[k] < bound) &&
    RestyleKids(m, rank, ks[i..], force, ctx, style, bound).nodes == whole.nodes &&
    dirt + RestyleKids(m, rank, ks[i..], force, ctx, style, bound).dirtied == whole.dirtied
  }

  /** Before the first turn nothing is marked and the whole loop is left. */
  lemma KidsLeftStart(m: Arena, rank: map<NodeId, nat>, ks: seq<NodeId>, force: bool,
                      ctx: Context, style: ImStyle, bound: nat)
    requires Ranked(m, rank) && forall k :: k in ks ==> k in m && rank[k] < bound
    ensures KidsLeft(m, rank, ks, 0, force, ctx, style, bound, {}, RestyleKids(m, rank, ks, force, ctx, style, bound))
  {
    assert ks[0..] == ks;
  }

  /** After the last turn the arena is the loop's result and the marks are all of its marks. */
  lemma KidsLeftEnd(m: Arena, rank: map<NodeId, nat>, ks: seq<NodeId>, force: bool,
                    ctx: Context, style: ImStyle, bound: nat, dirt: set<RenderLayer>, whole: Restyled)
    requires KidsLeft(m, rank, ks, |ks|, force, ctx, style, bound, dirt, whole)
    ensures m == whole.nodes && dirt == whole.dirtied
  {
    assert ks[|ks|..] == [];
  }

  /** The children's loop, run in place, after the turn at `i`: the account moves on to `i + 1`
      with the turn's marks added. */
  lemma RestyleKidsAdvance(m: Arena, rank: map<NodeId, nat>, ks: seq<NodeId>, i: nat, force: bool,
                           ctx: Context, style: ImStyle, bound: nat, dirt: set<RenderLayer>, whole: Restyled)
    requires KidsLeft(m, rank, ks, i, force, ctx, style, bound, dirt, whole) && i < |ks|
    ensures var step := RestyleIfVisible(m, rank, ks[i], force, ctx, style);
            step.nodes.Keys == m.Keys &&
            KidsLeft(step.nodes, rank, ks, i + 1, force, ctx, style, bound, dirt + step.dirtied, whole)
  {
    RestyleKidsUnfold(m, rank, ks, i, force, ctx, style, bound);
    var step := RestyleIfVisible(m, rank, ks[i], force, ctx, style);
    var rest := RestyleKids(step.nodes, rank, ks[i + 1..], force, ctx, style, bound);
    assert dirt + (step.dirtied + rest.dirtied) == (dirt + step.dirtied) + rest.dirtied;
  }

  /** The first turn and the rest of the loop together. */
  lemma CombineTurns(m: Arena, m1: Arena, m2: Arena, rank: map<NodeId, nat>, ks: seq<NodeId>)
    requires Ranked(m, rank) && |ks| > 0 && forall k :: k in ks ==> k in m
    requires Settles(m, m1, rank) && Settles(m1, m2, rank)
    requires m[ks[0]].visible ==> CleanBelow(m1, rank, ks[0])
    requires forall k :: k in ks[1..] && m1[k].visible ==> CleanBelow(m2, rank, k)
    ensures Settles(m, m2, rank)
    ensures forall k :: k in ks && m[k].visible ==> CleanBelow(m2, rank, k)
  {
    SettlesTransitive(m, m1, m2, rank);
    SettlesNeverMarks(m1, m2, rank);
    forall j | j in ks && m[j].visible ensures CleanBelow(m2, rank, j) {
      if j == ks[0] {
        CleanBelowStays(m1, m2, rank, j);
      } else {
        assert j in ks[1..];
      }
    }
  }

  /** `update_restyle` keeps a linked, coherent arena coherent. */
  lemma RestyleKeepsCoherent(m: Arena, rank: map<NodeId, nat>, id: NodeId, force: bool, ctx: Context, style: ImStyle)
    requires Ranked(m, rank) && Linked(m) && Coherent(m) && id in m
    ensures Coherent(Restyle(m, rank, id, force, ctx, style).nodes)
  {
    RestyleSettles(m, rank, id, force, ctx, style);
    SettlesKeepsCoherent(m, Restyle(m, rank, id, force, ctx, style).nodes, rank);
  }
}
