/** The flex layout of a `Layout` node: the automatic content size (`update_content`) and the
    placement of the children along the main axis with grow/shrink, cross-axis alignment and
    justification (`render_impl`). ImGui's style (`FramePadding`, `ItemSpacing`) and the cursor
    position the layout starts from are parameters; the result of a render pass is the sequence
    of rectangles the in-flow children are rendered into, in child order. */
module Layouts {
  import opened Types
  import opened Rendering
  import opened NodeRecords

  datatype Vec2 = Vec2(x: real, y: real)

  /** The two ImGui style values the layout reads. */
  datatype ImStyle = ImStyle(framePadding: Vec2, itemSpacing: Vec2)

  /** A child takes part in the flow when it is visible and not absolutely positioned. */
  predicate InFlow(k: NodeRec) {
    k.visible && k.position != Absolute
  }

  /** The children that take part in the flow, in order. */
  function Flow(kids: seq<NodeRec>): (r: seq<NodeRec>)
    ensures |r| <= |kids|
  {
    if kids == [] then []
    else
      var k := kids[|kids| - 1];
      Flow(kids[..|kids| - 1]) + (if InFlow(k) then [k] else [])
  }

  /** Extending the children by one adds that child to the flow exactly when it is in flow. */
  lemma FlowSnoc(kids: seq<NodeRec>, i: nat)
    requires i < |kids|
    ensures Flow(kids[..i + 1]) == Flow(kids[..i]) + (if InFlow(kids[i]) then [kids[i]] else [])
  {
    assert kids[..i + 1][..i] == kids[..i];
  }

  /** Every in-flow child is in the flow, and the flow keeps the children's order: the flow of
      a concatenation is the concatenation of the flows. */
  lemma {:induction false} FlowAppend(a: seq<NodeRec>, b: seq<NodeRec>)
    ensures Flow(a + b) == Flow(a) + Flow(b)
  {
    if b == [] {
      assert a + b == a;
    } else {
      assert (a + b)[..|a + b| - 1] == a + b[..|b| - 1];
      FlowAppend(a, b[..|b| - 1]);
    }
  }

  // ---------------------------------------------------------------------------------------
  // update_content

  /** A child's contextual width (`widths` true) or height. */
  function SizeOf(k: NodeRec, widths: bool, content: real, ctx: Context): real {
    if widths then ContextualWidth(k, content, ctx) else ContextualHeight(k, content, ctx)
  }

  /** The contextual widths (`widths` true) or heights of the given children. */
  function Sizes(ks: seq<NodeRec>, widths: bool, content: real, ctx: Context): (r: seq<real>)
    ensures |r| == |ks|
  {
    if ks == [] then []
    else
      var k := ks[|ks| - 1];
      Sizes(ks[..|ks| - 1], widths, content, ctx) + [SizeOf(k, widths, content, ctx)]
  }

  function Sum(xs: seq<real>): real {
    if xs == [] then 0.0 else Sum(xs[..|xs| - 1]) + xs[|xs| - 1]
  }

  /** The gaps between n consecutive items. */
  function Gaps(n: nat, gap: real): real {
    if n <= 1 then 0.0 else Gaps(n - 1, gap) + gap
  }

  /** The gaps as the source's vertical scan adds them: `(n - 1) * gap` when there are at least
      two items. */
  lemma GapsFormula(n: nat, gap: real)
    ensures Gaps(n, gap) == (if n > 1 then (n - 1) as real * gap else 0.0)
  {
    if n > 1 {
      GapsCount(n, gap);
    }
  }

  /** n items have n - 1 gaps. */
  lemma {:induction false} GapsCount(n: nat, gap: real)
    requires n >= 1
    ensures Gaps(n, gap) == (n - 1) as real * gap
  {
    if n > 1 {
      GapsCount(n - 1, gap);
      assert (n - 1) as real * gap == (n - 2) as real * gap + gap;
    }
  }

  /** The items laid end to end with a gap between consecutive ones. */
  function SumWithGaps(xs: seq<real>, gap: real): real {
    if xs == [] then 0.0
    else if |xs| == 1 then xs[0]
    else SumWithGaps(xs[..|xs| - 1], gap) + gap + xs[|xs| - 1]
  }

  /** Stacking is the plain sum plus one gap between each pair of neighbours. */
  lemma {:induction false} SumWithGapsIsSumPlusGaps(xs: seq<real>, gap: real)
    ensures SumWithGaps(xs, gap) == Sum(xs) + Gaps(|xs|, gap)
  {
    if |xs| == 1 {
      assert xs[..0] == [];
    } else if |xs| > 1 {
      SumWithGapsIsSumPlusGaps(xs[..|xs| - 1], gap);
    }
  }

  lemma SumWithGapsSnoc(xs: seq<real>, x: real, gap: real)
    ensures SumWithGaps(xs + [x], gap) == (if xs == [] then x else SumWithGaps(xs, gap) + gap + x)
  {
    assert (xs + [x])[..|xs|] == xs;
  }

  lemma SizesSnoc(ks: seq<NodeRec>, k: NodeRec, widths: bool, content: real, ctx: Context)
    ensures Sizes(ks + [k], widths, content, ctx) == Sizes(ks, widths, content, ctx) +
              [SizeOf(k, widths, content, ctx)]
  {
    assert (ks + [k])[..|ks|] == ks;
  }

  lemma MaxOrZeroSnoc(xs: seq<real>, x: real)
    ensures MaxOrZero(xs + [x]) == (if x > MaxOrZero(xs) then x else MaxOrZero(xs))
  {
    assert (xs + [x])[..|xs|] == xs;
  }

  /** The largest item, or 0 when every item is below 0 or there is none (the accumulator of
      `std::max` starts at 0). */
  function MaxOrZero(xs: seq<real>): real {
    if xs == [] then 0.0
    else
      var m0 := MaxOrZero(xs[..|xs| - 1]);
      if xs[|xs| - 1] > m0 then xs[|xs| - 1] else m0
  }

  /** The maximum is at least 0, covers every item, and is 0 or one of the items. */
  lemma {:induction false} MaxOrZeroIsMax(xs: seq<real>)
    ensures MaxOrZero(xs) >= 0.0
    ensures forall i :: 0 <= i < |xs| ==> xs[i] <= MaxOrZero(xs)
    ensures MaxOrZero(xs) == 0.0 || exists i :: 0 <= i < |xs| && xs[i] == MaxOrZero(xs)
  {
    if xs != [] {
      var init := xs[..|xs| - 1];
      MaxOrZeroIsMax(init);
      assert forall i :: 0 <= i < |init| ==> init[i] == xs[i];
    }
  }

  /** The automatic width `update_content` leaves behind: unchanged when the node has a width
      basis; otherwise the in-flow children's widths (at content 0) stacked with `ItemSpacing.y`
      gaps for a horizontal layout, their maximum for a vertical one, plus twice the horizontal
      frame padding. */
  function AutoWidth(self: NodeRec, dir: Direction, kids: seq<NodeRec>, ctx: Context, style: ImStyle): real {
    if self.width.basis.Some? then self.automaticWidth
    else if dir == Vertical then
      MaxOrZero(Sizes(Flow(kids), true, 0.0, ctx)) + style.framePadding.x * 2.0
    else
      SumWithGaps(Sizes(Flow(kids), true, 0.0, ctx), style.itemSpacing.y) + style.framePadding.x * 2.0
  }

  /** The automatic height: unchanged when the node has a height basis; otherwise the in-flow
      children's heights stacked with `ItemSpacing.y` gaps for a vertical layout, their maximum
      for a horizontal one, plus twice the vertical frame padding. */
  function AutoHeight(self: NodeRec, dir: Direction, kids: seq<NodeRec>, ctx: Context, style: ImStyle): real {
    if self.height.basis.Some? then self.automaticHeight
    else if dir == Vertical then
      SumWithGaps(Sizes(Flow(kids), false, 0.0, ctx), style.itemSpacing.y) + style.framePadding.y * 2.0
    else
      MaxOrZero(Sizes(Flow(kids), false, 0.0, ctx)) + style.framePadding.y * 2.0
  }

  /** One step of the stacking loop: an in-flow child adds a gap (unless it is the first) and
      its size; any other child changes nothing. */
  lemma StackStep(kids: seq<NodeRec>, i: nat, widths: bool, gap: real, ctx: Context)
    requires i < |kids|
    ensures var before := Sizes(Flow(kids[..i]), widths, 0.0, ctx);
      var s := SizeOf(kids[i], widths, 0.0, ctx);
      SumWithGaps(Sizes(Flow(kids[..i + 1]), widths, 0.0, ctx), gap) ==
        (if !InFlow(kids[i]) then SumWithGaps(before, gap)
         else if |Flow(kids[..i])| == 0 then s
         else SumWithGaps(before, gap) + gap + s)
    ensures |Flow(kids[..i + 1])| == |Flow(kids[..i])| + (if InFlow(kids[i]) then 1 else 0)
  {
    FlowSnoc(kids, i);
    var before := Flow(kids[..i]);
    var k := kids[i];
    if InFlow(k) {
      assert Flow(kids[..i + 1]) == before + [k];
      StackSnoc(before, k, widths, gap, ctx);
    } else {
      assert Flow(kids[..i + 1]) == before;
    }
  }

  /** Stacking one more child adds a gap and its size, or just its size when it is the first. */
  lemma StackSnoc(before: seq<NodeRec>, k: NodeRec, widths: bool, gap: real, ctx: Context)
    ensures var xs := Sizes(before, widths, 0.0, ctx);
      var x := SizeOf(k, widths, 0.0, ctx);
      SumWithGaps(Sizes(before + [k], widths, 0.0, ctx), gap) ==
        (if |before| == 0 then x else SumWithGaps(xs, gap) + gap + x)
  {
    var xs := Sizes(before, widths, 0.0, ctx);
    var x := SizeOf(k, widths, 0.0, ctx);
    SizesSnoc(before, k, widths, 0.0, ctx);
    SumWithGapsSnoc(xs, x, gap);
  }

  /** The stacking loop's step stated on its own variables: the running sum `acc` and the flag
      `first` that says no in-flow child has been seen yet. */
  lemma StackAdvance(kids: seq<NodeRec>, i: nat, widths: bool, gap: real, ctx: Context, acc: real, first: bool)
    requires i < |kids|
    requires first == (|Flow(kids[..i])| == 0)
    requires acc == SumWithGaps(Sizes(Flow(kids[..i]), widths, 0.0, ctx), gap)
    ensures !InFlow(kids[i]) ==>
      first == (|Flow(kids[..i + 1])| == 0) && acc == SumWithGaps(Sizes(Flow(kids[..i + 1]), widths, 0.0, ctx), gap)
    ensures InFlow(kids[i]) ==> |Flow(kids[..i + 1])| != 0
    ensures InFlow(kids[i]) ==>
      (if first then acc else acc + gap) + SizeOf(kids[i], widths, 0.0, ctx) ==
      SumWithGaps(Sizes(Flow(kids[..i + 1]), widths, 0.0, ctx), gap)
  {
    StackStep(kids, i, widths, gap, ctx);
  }

  /** One step of the maximum loop: an in-flow child raises the maximum to its size; any other
      child changes nothing. */
  lemma MaxStep(kids: seq<NodeRec>, i: nat, widths: bool, ctx: Context)
    requires i < |kids|
    ensures MaxOrZero(Sizes(Flow(kids[..i + 1]), widths, 0.0, ctx)) ==
        (if !InFlow(kids[i]) then MaxOrZero(Sizes(Flow(kids[..i]), widths, 0.0, ctx))
         else Max(MaxOrZero(Sizes(Flow(kids[..i]), widths, 0.0, ctx)), SizeOf(kids[i], widths, 0.0, ctx)))
  {
    FlowSnoc(kids, i);
    var before := Flow(kids[..i]);
    var k := kids[i];
    if InFlow(k) {
      SizesSnoc(before, k, widths, 0.0, ctx);
      MaxOrZeroSnoc(Sizes(before, widths, 0.0, ctx), SizeOf(k, widths, 0.0, ctx));
    } else {
      assert Flow(kids[..i + 1]) == before;
    }
  }

  /** One stacking loop of `update_content`: the in-flow children's sizes with a gap before
      every child but the first. */
  method StackSizes(kids: seq<NodeRec>, widths: bool, gap: real, ctx: Context) returns (acc: real)
    ensures acc == SumWithGaps(Sizes(Flow(kids), widths, 0.0, ctx), gap)
  {
    acc := 0.0;
    var first := true;
    var i := 0;
    while i < |kids|
      invariant 0 <= i <= |kids|
      invariant first == (|Flow(kids[..i])| == 0)
      invariant acc == SumWithGaps(Sizes(Flow(kids[..i]), widths, 0.0, ctx), gap)
    {
      StackAdvance(kids, i, widths, gap, ctx, acc, first);
      var k := kids[i];
      if InFlow(k) {
        var s := SizeOf(k, widths, 0.0, ctx);
        if !first {
          acc := acc + gap;
        }
        first := false;
        acc := acc + s;
      }
      i := i + 1;
    }
    assert kids[..i] == kids;
  }

  /** One maximum loop of `update_content`. */
  method MaxSize(kids: seq<NodeRec>, widths: bool, ctx: Context) returns (acc: real)
    ensures acc == MaxOrZero(Sizes(Flow(kids), widths, 0.0, ctx))
  {
    acc := 0.0;
    var i := 0;
    while i < |kids|
      invariant 0 <= i <= |kids|
      invariant acc == MaxOrZero(Sizes(Flow(kids[..i]), widths, 0.0, ctx))
    {
      MaxStep(kids, i, widths, ctx);
      var k := kids[i];
      if InFlow(k) {
        var s := SizeOf(k, widths, 0.0, ctx);
        acc := if acc > s then acc else s;
      }
      i := i + 1;
    }
    assert kids[..i] == kids;
  }

  /** `Layout::update_content`: recompute the automatic size along each axis that has no basis. */
  method UpdateContent(self: NodeRec, dir: Direction, kids: seq<NodeRec>, ctx: Context, style: ImStyle)
    returns (autoWidth: real, autoHeight: real)
    ensures autoWidth == AutoWidth(self, dir, kids, ctx, style)
    ensures autoHeight == AutoHeight(self, dir, kids, ctx, style)
  {
    autoWidth := self.automaticWidth;
    autoHeight := self.automaticHeight;
    if dir == Vertical {
      if self.height.basis.None? {
        autoHeight := StackSizes(kids, false, style.itemSpacing.y, ctx);
        autoHeight := autoHeight + style.framePadding.y * 2.0;
      }
      if self.width.basis.None? {
        autoWidth := MaxSize(kids, true, ctx);
        autoWidth := autoWidth + style.framePadding.x * 2.0;
      }
    } else {
      if self.width.basis.None? {
        autoWidth := StackSizes(kids, true, style.itemSpacing.y, ctx);
        autoWidth := autoWidth + style.framePadding.x * 2.0;
      }
      if self.height.basis.None? {
        autoHeight := MaxSize(kids, false, ctx);
        autoHeight := autoHeight + style.framePadding.y * 2.0;
      }
    }
  }

  /** With no in-flow child the automatic size is the frame padding alone, on both axes and in
      both directions. */
  lemma EmptyLayoutIsPadding(self: NodeRec, dir: Direction, kids: seq<NodeRec>, ctx: Context, style: ImStyle)
    requires Flow(kids) == []
    requires self.width.basis.None? && self.height.basis.None?
    ensures AutoWidth(self, dir, kids, ctx, style) == style.framePadding.x * 2.0
    ensures AutoHeight(self, dir, kids, ctx, style) == style.framePadding.y * 2.0
  {
  }

  /** Along the stacking axis the automatic size is the children's sizes plus one spacing per
      gap plus the padding; across it it covers every in-flow child. */
  lemma AutoSizeBounds(self: NodeRec, kids: seq<NodeRec>, ctx: Context, style: ImStyle)
    requires self.width.basis.None? && self.height.basis.None?
    ensures var hs := Sizes(Flow(kids), false, 0.0, ctx);
      AutoHeight(self, Vertical, kids, ctx, style)
        == Sum(hs) + Gaps(|hs|, style.itemSpacing.y) + style.framePadding.y * 2.0
    ensures forall i :: 0 <= i < |Flow(kids)| ==>
              ContextualWidth(Flow(kids)[i], 0.0, ctx) + style.framePadding.x * 2.0
                <= AutoWidth(self, Vertical, kids, ctx, style)
    ensures var ws := Sizes(Flow(kids), true, 0.0, ctx);
      AutoWidth(self, Horizontal, kids, ctx, style)
        == Sum(ws) + Gaps(|ws|, style.itemSpacing.y) + style.framePadding.x * 2.0
  {
    SumWithGapsIsSumPlusGaps(Sizes(Flow(kids), false, 0.0, ctx), style.itemSpacing.y);
    SumWithGapsIsSumPlusGaps(Sizes(Flow(kids), true, 0.0, ctx), style.itemSpacing.y);
    WidestCovers(Flow(kids), ctx);
  }

  /** The widest in-flow child's width covers each of them. */
  lemma WidestCovers(fs: seq<NodeRec>, ctx: Context)
    ensures forall i :: 0 <= i < |fs| ==> ContextualWidth(fs[i], 0.0, ctx) <= MaxOrZero(Sizes(fs, true, 0.0, ctx))
  {
    var ws := Sizes(fs, true, 0.0, ctx);
    MaxOrZeroIsMax(ws);
    forall i | 0 <= i < |fs| ensures ContextualWidth(fs[i], 0.0, ctx) <= MaxOrZero(ws) {
      SizesIndex(fs, true, 0.0, ctx, i);
    }
  }

  /** The i-th size is the size of the i-th child. */
  lemma {:induction false} SizesIndex(ks: seq<NodeRec>, widths: bool, content: real, ctx: Context, i: nat)
    requires i < |ks|
    ensures Sizes(ks, widths, content, ctx)[i] == SizeOf(ks[i], widths, content, ctx)
  {
    if i < |ks| - 1 {
      SizesIndex(ks[..|ks| - 1], widths, content, ctx, i);
    }
  }

  // ---------------------------------------------------------------------------------------
  // render_impl

  /** What the layout needs of one in-flow child along an axis: its basis (contextual main
      size), grow and shrink weights, and its contextual cross size. */
  datatype FlexItem = FlexItem(basis: real, grow: real, shrink: real, cross: real)

  /** The axis a pass runs along: the content extents after padding, the spacing used between
      items, the shrink epsilon, and where the cursor starts on each axis. */
  datatype Axis = Axis(horizontal: bool, extent: real, crossExtent: real, gap: real, eps: real,
                       mainStart: real, crossStart: real)

  /** The first scan's result: `visible_count`, `occupied`, `grow_total`. */
  datatype Scan = Scan(count: nat, occupied: real, growTotal: real)

  /** A child's place along the main and the cross axis. */
  datatype Slot = Slot(mainPos: real, mainSize: real, crossPos: real, crossSize: real)

  /** The rectangle a child is rendered into: cursor position and (width, height). */
  datatype Rect = Rect(x: real, y: real, width: real, height: real)

  /** The axis of a render pass over a frame of size (w, h) starting at `cursor`: everything is
      inset by the frame padding; horizontally the spacing is `ItemSpacing.x` and epsilon 0.1,
      vertically `ItemSpacing.y` and 0.0001. */
  function AxisOf(dir: Direction, w: real, h: real, cursor: Vec2, style: ImStyle): (ax: Axis)
    ensures ax.horizontal <==> dir == Horizontal
  {
    var fp := style.framePadding;
    if dir == Horizontal then
      Axis(true, w - fp.x * 2.0, h - fp.y * 2.0, style.itemSpacing.x, 0.1, cursor.x + fp.x, cursor.y + fp.y)
    else
      Axis(false, h - fp.y * 2.0, w - fp.x * 2.0, style.itemSpacing.y, 0.0001, cursor.y + fp.y, cursor.x + fp.x)
  }

  function ItemOf(k: NodeRec, ax: Axis, ctx: Context): FlexItem {
    if ax.horizontal then
      FlexItem(ContextualWidth(k, ax.extent, ctx), k.width.grow, k.width.shrink,
               ContextualHeight(k, ax.crossExtent, ctx))
    else
      FlexItem(ContextualHeight(k, ax.extent, ctx), k.height.grow, k.height.shrink,
               ContextualWidth(k, ax.crossExtent, ctx))
  }

  /** The flex items of the in-flow children, in order. */
  function Items(kids: seq<NodeRec>, ax: Axis, ctx: Context): (r: seq<FlexItem>)
    ensures |r| == |Flow(kids)|
  {
    if kids == [] then []
    else
      var k := kids[|kids| - 1];
      Items(kids[..|kids| - 1], ax, ctx) + (if InFlow(k) then [ItemOf(k, ax, ctx)] else [])
  }

  function SumBases(items: seq<FlexItem>): real {
    if items == [] then 0.0 else SumBases(items[..|items| - 1]) + items[|items| - 1].basis
  }

  function GrowTotal(items: seq<FlexItem>): real {
    if items == [] then 0.0 else GrowTotal(items[..|items| - 1]) + items[|items| - 1].grow
  }

  /** The first scan: the sum of the bases plus one spacing between consecutive items, and the
      sum of the grow weights. */
  function ScanOf(items: seq<FlexItem>, gap: real): (sc: Scan)
    ensures sc.count == |items|
  {
    Scan(|items|, SumBases(items) + Gaps(|items|, gap), GrowTotal(items))
  }

  function Remaining(ax: Axis, sc: Scan): real {
    ax.extent - sc.occupied
  }

  function Max(a: real, b: real): real {
    if a >= b then a else b
  }

  /** How much a shrinking item loses: `max(eps, remaining * shrink / grow_total)`. A zero
      `grow_total` divides by zero in the source; with a positive shrink weight that gives
      `max(eps, -inf) = eps`, which is what is taken here. */
  function ShrinkAmount(remaining: real, shrink: real, growTotal: real, eps: real): real {
    if growTotal == 0.0 then eps else Max(eps, remaining * (shrink / growTotal))
  }

  /** The main size of an item: its basis, plus its share `remaining * grow / grow_total` of
      the free space when there is some and it grows, minus the shrink amount when space is
      short and it shrinks. */
  function MainSize(it: FlexItem, remaining: real, growTotal: real, eps: real): (s: real)
    ensures remaining >= 0.0 && it.grow != 0.0 && growTotal != 0.0 ==>
              s == it.basis + remaining * (it.grow / growTotal)
    ensures remaining < 0.0 && it.shrink != 0.0 ==>
              s == it.basis - ShrinkAmount(remaining, it.shrink, growTotal, eps)
    ensures (remaining >= 0.0 && it.grow == 0.0) || (remaining < 0.0 && it.shrink == 0.0) ==>
              s == it.basis
  {
    if remaining >= 0.0 && it.grow != 0.0 then
      it.basis + (if growTotal != 0.0 then remaining * (it.grow / growTotal) else 0.0)
    else if remaining < 0.0 && it.shrink != 0.0 then
      it.basis - ShrinkAmount(remaining, it.shrink, growTotal, eps)
    else it.basis
  }

  /** Cross size and offset from the cross start. Stretch fills the cross extent; start, center
      and end place the item's own cross size at the start, the middle and the end. A baseline
      item keeps its size at offset 0 horizontally; the vertical switch has no baseline case, so
      its width stays 0. */
  function CrossPlacement(it: FlexItem, ax: Axis, align: Alignment): (r: (real, real))
    ensures align == Alignment.Stretch ==> r == (ax.crossExtent, 0.0)
    ensures align == Alignment.Start ==> r == (it.cross, 0.0)
    ensures align == Alignment.Center ==> r.0 == it.cross && r.1 + r.0 / 2.0 == ax.crossExtent / 2.0
    ensures align == Alignment.End ==> r.0 == it.cross && r.1 + r.0 == ax.crossExtent
    ensures align == Alignment.Baseline ==> r == (if ax.horizontal then it.cross else 0.0, 0.0)
  {
    match align
    case Stretch => (ax.crossExtent, 0.0)
    case Center => (it.cross, (ax.crossExtent - it.cross) / 2.0)
    case Baseline => (if ax.horizontal then it.cross else 0.0, 0.0)
    case Start => (it.cross, 0.0)
    case End => (it.cross, ax.crossExtent - it.cross)
  }

  /** The justification offset added to the cursor before the j-th in-flow item. Nothing is
      added unless no item grows (`grow_total == 0`) and there is free space. */
  function Justify(j: nat, sc: Scan, ax: Axis, just: Justification): (o: real)
    requires j < sc.count
    ensures !(sc.growTotal == 0.0 && Remaining(ax, sc) > 0.0) ==> o == 0.0
  {
    var remaining := Remaining(ax, sc);
    if sc.growTotal == 0.0 && remaining > 0.0 then
      match just
      case Start => 0.0
      case End => if j == 0 then ax.extent - sc.occupied else 0.0
      case SpaceAround => remaining / (sc.count + 1) as real
      case SpaceBetween => if j == 0 then 0.0 else remaining / (sc.count - 1) as real
      case Center => if j == 0 then remaining / 2.0 else 0.0
    else 0.0
  }

  function MainOf(items: seq<FlexItem>, j: nat, sc: Scan, ax: Axis): real
    requires j < |items|
  {
    MainSize(items[j], Remaining(ax, sc), sc.growTotal, ax.eps)
  }

  /** The main cursor before the k-th item: the start plus, for every earlier item, its
      justification offset, its main size and one spacing. */
  function CursorAt(items: seq<FlexItem>, k: nat, sc: Scan, ax: Axis, just: Justification): real
    requires k <= |items| == sc.count
  {
    if k == 0 then ax.mainStart
    else CursorAt(items, k - 1, sc, ax, just) + Justify(k - 1, sc, ax, just) + MainOf(items, k - 1, sc, ax) + ax.gap
  }

  function SlotAt(items: seq<FlexItem>, k: nat, sc: Scan, ax: Axis, align: Alignment, just: Justification): Slot
    requires k < |items| == sc.count
  {
    var cross := CrossPlacement(items[k], ax, align);
    Slot(CursorAt(items, k, sc, ax, just) + Justify(k, sc, ax, just), MainOf(items, k, sc, ax),
         ax.crossStart + cross.1, cross.0)
  }

  /** The slots of the first k items. */
  function Slots(items: seq<FlexItem>, k: nat, sc: Scan, ax: Axis, align: Alignment, just: Justification): (r: seq<Slot>)
    requires k <= |items| == sc.count
    ensures |r| == k
    ensures forall i :: 0 <= i < k ==> r[i] == SlotAt(items, i, sc, ax, align, just)
  {
    if k == 0 then [] else Slots(items, k - 1, sc, ax, align, just) + [SlotAt(items, k - 1, sc, ax, align, just)]
  }

  /** The slots of a whole line of items. */
  function Line(items: seq<FlexItem>, ax: Axis, align: Alignment, just: Justification): (r: seq<Slot>)
    ensures |r| == |items|
  {
    Slots(items, |items|, ScanOf(items, ax.gap), ax, align, just)
  }

  function ToRect(s: Slot, horizontal: bool): Rect {
    if horizontal then Rect(s.mainPos, s.crossPos, s.mainSize, s.crossSize)
    else Rect(s.crossPos, s.mainPos, s.crossSize, s.mainSize)
  }

  /** One step of a scan over the children: an in-flow child appends its item, any other child
      changes nothing. */
  lemma ItemsStep(kids: seq<NodeRec>, i: nat, ax: Axis, ctx: Context)
    requires i < |kids|
    ensures var before := Items(kids[..i], ax, ctx);
      Items(kids[..i + 1], ax, ctx) == before + (if InFlow(kids[i]) then [ItemOf(kids[i], ax, ctx)] else [])
  {
    assert kids[..i + 1][..i] == kids[..i];
  }

  /** The first-scan sums after appending one item. */
  lemma ScanSnoc(items: seq<FlexItem>, it: FlexItem, gap: real)
    ensures SumBases(items + [it]) == SumBases(items) + it.basis
    ensures GrowTotal(items + [it]) == GrowTotal(items) + it.grow
    ensures Gaps(|items| + 1, gap) == Gaps(|items|, gap) + (if |items| == 0 then 0.0 else gap)
  {
    assert (items + [it])[..|items|] == items;
  }

  /** One step of the first scan, in terms of the sums: an in-flow child adds its basis, its
      grow weight and (unless it is the first) one gap. */
  lemma ScanStep(kids: seq<NodeRec>, i: nat, ax: Axis, ctx: Context)
    requires i < |kids|
    ensures var before := Items(kids[..i], ax, ctx);
      var after := Items(kids[..i + 1], ax, ctx);
      var it := ItemOf(kids[i], ax, ctx);
      if InFlow(kids[i]) then
        |after| == |before| + 1 && SumBases(after) == SumBases(before) + it.basis &&
        GrowTotal(after) == GrowTotal(before) + it.grow &&
        Gaps(|after|, ax.gap) == Gaps(|before|, ax.gap) + (if |before| == 0 then 0.0 else ax.gap)
      else after == before
  {
    ItemsStep(kids, i, ax, ctx);
    if InFlow(kids[i]) {
      ScanSnoc(Items(kids[..i], ax, ctx), ItemOf(kids[i], ax, ctx), ax.gap);
    } else {
      assert Items(kids[..i + 1], ax, ctx) == Items(kids[..i], ax, ctx);
    }
  }

  /** The first scan's variables after `i` children: the count of in-flow children, their
      grow total, and their bases with the gaps between them added inline when horizontal. */
  ghost predicate ScannedSoFar(kids: seq<NodeRec>, i: nat, ax: Axis, ctx: Context, count: nat, occupied: real,
                               growTotal: real)
    requires i <= |kids|
  {
    var items := Items(kids[..i], ax, ctx);
    count == |items| && growTotal == GrowTotal(items) &&
    occupied == SumBases(items) + (if ax.horizontal then Gaps(count, ax.gap) else 0.0)
  }

  /** The first scan's step stated on its own variables. */
  lemma ScanAdvance(kids: seq<NodeRec>, i: nat, ax: Axis, ctx: Context, count: nat, occupied: real,
                    growTotal: real)
    requires i < |kids| && ScannedSoFar(kids, i, ax, ctx, count, occupied, growTotal)
    ensures var it := ItemOf(kids[i], ax, ctx);
      if InFlow(kids[i]) then
        ScannedSoFar(kids, i + 1, ax, ctx, count + 1,
                     (if ax.horizontal && count != 0 then occupied + ax.gap else occupied) + it.basis,
                     growTotal + it.grow)
      else ScannedSoFar(kids, i + 1, ax, ctx, count, occupied, growTotal)
  {
    ScanStep(kids, i, ax, ctx);
  }

  /** The vertical scan adds all gaps at once: `(n - 1) * spacing` when there are at least two
      items. */
  method AddGaps(occupied: real, count: nat, gap: real) returns (r: real)
    ensures r == occupied + Gaps(count, gap)
  {
    GapsFormula(count, gap);
    r := occupied;
    if count > 1 {
      r := r + (count - 1) as real * gap;
    }
  }

  /** The first scan of `render_impl`: count the in-flow children, add up their bases with a
      spacing between consecutive ones (inline horizontally, as `(n - 1) * spacing` at the end
      vertically) and add up their grow weights. */
  method ScanLine(kids: seq<NodeRec>, ax: Axis, ctx: Context) returns (sc: Scan)
    ensures sc == ScanOf(Items(kids, ax, ctx), ax.gap)
  {
    var occupied := 0.0;
    var growTotal := 0.0;
    var first := true;
    var count: nat := 0;
    var i := 0;
    while i < |kids|
      invariant 0 <= i <= |kids|
      invariant ScannedSoFar(kids, i, ax, ctx, count, occupied, growTotal)
      invariant first == (count == 0)
    {
      ScanAdvance(kids, i, ax, ctx, count, occupied, growTotal);
      var k := kids[i];
      if InFlow(k) {
        var it := ItemOf(k, ax, ctx);
        count := count + 1;
        if ax.horizontal && !first {
          occupied := occupied + ax.gap;
        }
        first := false;
        occupied := occupied + it.basis;
        growTotal := growTotal + it.grow;
      }
      i := i + 1;
    }
    assert kids[..i] == kids;
    if !ax.horizontal {
      occupied := AddGaps(occupied, count, ax.gap);
    }
    sc := Scan(count, occupied, growTotal);
  }

  /** The body of the second scan for one in-flow child: grow or shrink its main size, place it
      across, add the justification offset to the cursor, and advance the cursor past it. */
  method PlaceOne(k: NodeRec, f: nat, cursor: real, ghost items: seq<FlexItem>, ax: Axis, sc: Scan,
                  align: Alignment, just: Justification, ctx: Context) returns (rect: Rect, next: real)
    requires f < |items| == sc.count && items[f] == ItemOf(k, ax, ctx)
    requires cursor == CursorAt(items, f, sc, ax, just)
    ensures rect == ToRect(SlotAt(items, f, sc, ax, align, just), ax.horizontal)
    ensures next == CursorAt(items, f + 1, sc, ax, just)
  {
    var it := ItemOf(k, ax, ctx);
    var size := MainSize(it, ax.extent - sc.occupied, sc.growTotal, ax.eps);
    var cross := CrossPlacement(it, ax, align);
    var pos := cursor + Justify(f, sc, ax, just);
    rect := ToRect(Slot(pos, size, ax.crossStart + cross.1, cross.0), ax.horizontal);
    next := pos + size + ax.gap;
  }

  /** The second scan of `render_impl` over all children: every in-flow child is placed by
      PlaceOne, in order; the others are skipped. */
  method PlaceLine(kids: seq<NodeRec>, ax: Axis, sc: Scan, align: Alignment, just: Justification,
                   ctx: Context) returns (placed: seq<Rect>)
    requires sc == ScanOf(Items(kids, ax, ctx), ax.gap)
    ensures |placed| == |Flow(kids)|
    ensures forall i :: 0 <= i < |placed| ==>
              placed[i] == ToRect(SlotAt(Items(kids, ax, ctx), i, sc, ax, align, just), ax.horizontal)
  {
    ghost var items := Items(kids, ax, ctx);
    placed := [];
    var cursor := ax.mainStart;
    var f: nat := 0;
    var i := 0;
    while i < |kids|
      invariant 0 <= i <= |kids|
      invariant f == |Items(kids[..i], ax, ctx)| <= |items|
      invariant Items(kids[..i], ax, ctx) == items[..f]
      invariant cursor == CursorAt(items, f, sc, ax, just)
      invariant |placed| == f
      invariant forall j :: 0 <= j < f ==> placed[j] == ToRect(SlotAt(items, j, sc, ax, align, just), ax.horizontal)
    {
      ItemsPrefixStep(kids, i, f, ax, ctx);
      var k := kids[i];
      if InFlow(k) {
        var rect;
        rect, cursor := PlaceOne(k, f, cursor, items, ax, sc, align, just, ctx);
        placed := placed + [rect];
        f := f + 1;
      }
      i := i + 1;
    }
    assert kids[..i] == kids;
  }

  /** Scanning one more child extends the items found so far by that child's item, if it is
      in flow, and they stay a prefix of all the items. */
  lemma ItemsPrefixStep(kids: seq<NodeRec>, i: nat, f: nat, ax: Axis, ctx: Context)
    requires i < |kids| && f <= |Items(kids, ax, ctx)|
    requires Items(kids[..i], ax, ctx) == Items(kids, ax, ctx)[..f]
    ensures |Items(kids[..i + 1], ax, ctx)| == if InFlow(kids[i]) then f + 1 else f
    ensures InFlow(kids[i]) ==> f < |Items(kids, ax, ctx)| && Items(kids, ax, ctx)[f] == ItemOf(kids[i], ax, ctx)
    ensures Items(kids[..i + 1], ax, ctx) == Items(kids, ax, ctx)[..|Items(kids[..i + 1], ax, ctx)|]
  {
    var items := Items(kids, ax, ctx);
    ItemsStep(kids, i, ax, ctx);
    ItemsAppend(kids[..i + 1], kids[i + 1..], ax, ctx);
    assert kids[..i + 1] + kids[i + 1..] == kids;
    if InFlow(kids[i]) {
      assert items[f] == Items(kids[..i + 1], ax, ctx)[f];
    }
  }

  /** Items of a concatenation are the items of the parts. */
  lemma {:induction false} ItemsAppend(a: seq<NodeRec>, b: seq<NodeRec>, ax: Axis, ctx: Context)
    ensures Items(a + b, ax, ctx) == Items(a, ax, ctx) + Items(b, ax, ctx)
  {
    if b == [] {
      assert a + b == a;
    } else {
      assert (a + b)[..|a + b| - 1] == a + b[..|b| - 1];
      ItemsAppend(a, b[..|b| - 1], ax, ctx);
    }
  }

  /** `Layout::render_impl`: the rectangle of every in-flow child, in child order, given the
      frame size (w, h), the cursor position and ImGui's style. Invisible and absolutely
      positioned children are not placed. */
  method RenderImpl(props: LayoutProps, kids: seq<NodeRec>, ctx: Context, style: ImStyle,
                    w: real, h: real, cursor: Vec2) returns (placed: seq<Rect>)
    ensures var ax := AxisOf(props.direction, w, h, cursor, style);
      var line := Line(Items(kids, ax, ctx), ax, props.alignItems, props.justifyContent);
      |placed| == |Flow(kids)| == |line| &&
      forall i :: 0 <= i < |placed| ==> placed[i] == ToRect(line[i], ax.horizontal)
  {
    var ax := AxisOf(props.direction, w, h, cursor, style);
    var sc := ScanLine(kids, ax, ctx);
    placed := PlaceLine(kids, ax, sc, props.alignItems, props.justifyContent, ctx);
  }

  // ---------------------------------------------------------------------------------------
  // properties of a line

  /** The main sizes of the first k items. */
  function SumMain(items: seq<FlexItem>, k: nat, sc: Scan, ax: Axis): real
    requires k <= |items|
  {
    if k == 0 then 0.0 else SumMain(items, k - 1, sc, ax) + MainOf(items, k - 1, sc, ax)
  }

  /** The justification offsets of the first k items. */
  function SumJustify(k: nat, sc: Scan, ax: Axis, just: Justification): real
    requires k <= sc.count
  {
    if k == 0 then 0.0 else SumJustify(k - 1, sc, ax, just) + Justify(k - 1, sc, ax, just)
  }

  /** Where the last item of a non-empty line ends on the main axis. */
  function LastEnd(items: seq<FlexItem>, ax: Axis, align: Alignment, just: Justification): real
    requires |items| > 0
  {
    var sc := ScanOf(items, ax.gap);
    var last := SlotAt(items, |items| - 1, sc, ax, align, just);
    last.mainPos + last.mainSize
  }

  /** The cursor before the k-th item has passed every earlier offset and main size and k
      spacings. */
  lemma {:induction false} CursorAtIsPrefixSum(items: seq<FlexItem>, k: nat, sc: Scan, ax: Axis, just: Justification)
    requires k <= |items| == sc.count
    ensures CursorAt(items, k, sc, ax, just)
              == ax.mainStart + SumJustify(k, sc, ax, just) + SumMain(items, k, sc, ax) + Gaps(k + 1, ax.gap)
  {
    if k > 0 {
      CursorAtIsPrefixSum(items, k - 1, sc, ax, just);
    }
  }

  /** The last item ends after all offsets, all main sizes and the spacings between items. */
  lemma LastEndIsTotal(items: seq<FlexItem>, ax: Axis, align: Alignment, just: Justification)
    requires |items| > 0
    ensures var sc := ScanOf(items, ax.gap);
      LastEnd(items, ax, align, just)
        == ax.mainStart + SumJustify(|items|, sc, ax, just) + SumMain(items, |items|, sc, ax) + Gaps(|items|, ax.gap)
  {
    CursorAtIsPrefixSum(items, |items| - 1, ScanOf(items, ax.gap), ax, just);
  }

  /** With free space and growing items, the growing sizes add up to the bases plus the whole
      free space: `remaining * grow / grow_total` summed over the items is `remaining`. */
  lemma {:induction false} GrowShares(items: seq<FlexItem>, k: nat, sc: Scan, ax: Axis)
    requires k <= |items|
    requires Remaining(ax, sc) >= 0.0 && sc.growTotal != 0.0
    ensures SumMain(items, k, sc, ax)
              == SumBases(items[..k]) + Remaining(ax, sc) * (GrowTotal(items[..k]) / sc.growTotal)
  {
    var r := Remaining(ax, sc);
    var g := sc.growTotal;
    if k == 0 {
      assert items[..0] == [];
    } else {
      GrowShares(items, k - 1, sc, ax);
      assert items[..k][..k - 1] == items[..k - 1];
      var it := items[k - 1];
      assert MainOf(items, k - 1, sc, ax) == it.basis + r * (it.grow / g);
      assert SumBases(items[..k]) == SumBases(items[..k - 1]) + it.basis;
      assert GrowTotal(items[..k]) == GrowTotal(items[..k - 1]) + it.grow;
      assert SumMain(items, k, sc, ax) == SumMain(items, k - 1, sc, ax) + MainOf(items, k - 1, sc, ax);
      ShareStep(SumMain(items, k - 1, sc, ax), SumBases(items[..k - 1]), GrowTotal(items[..k - 1]),
                it.basis, it.grow, r, g);
    }
  }

  /** Adding one item's basis and share to a running total of bases and shares. */
  lemma ShareStep(total: real, bases: real, grows: real, basis: real, grow: real, r: real, g: real)
    requires g != 0.0 && total == bases + r * (grows / g)
    ensures total + (basis + r * (grow / g)) == (bases + basis) + r * ((grows + grow) / g)
  {
    ShareSplits(r, grows, grow, g);
  }

  /** Shares of a sum are the sum of the shares. */
  lemma ShareSplits(r: real, a: real, b: real, g: real)
    requires g != 0.0
    ensures r * ((a + b) / g) == r * (a / g) + r * (b / g)
  {
    assert (a + b) / g == a / g + b / g;
  }

  /** When the children grow into free space, the line exactly fills the content extent: the
      main sizes plus the spacings add up to the extent and the last child ends at its edge. */
  lemma GrowFillsContent(items: seq<FlexItem>, ax: Axis, align: Alignment, just: Justification)
    requires |items| > 0
    requires var sc := ScanOf(items, ax.gap); Remaining(ax, sc) >= 0.0 && sc.growTotal != 0.0
    ensures var sc := ScanOf(items, ax.gap);
      SumMain(items, |items|, sc, ax) + Gaps(|items|, ax.gap) == ax.extent
    ensures LastEnd(items, ax, align, just) == ax.mainStart + ax.extent
  {
    var sc := ScanOf(items, ax.gap);
    var n := |items|;
    GrowShares(items, n, sc, ax);
    assert items[..n] == items;
    assert sc.growTotal / sc.growTotal == 1.0;
    LastEndIsTotal(items, ax, align, just);
    NoOffsetsWhenGrowing(n, sc, ax, just);
  }

  /** While some weight grows, justification adds nothing. */
  lemma {:induction false} NoOffsetsWhenGrowing(k: nat, sc: Scan, ax: Axis, just: Justification)
    requires k <= sc.count && sc.growTotal != 0.0
    ensures SumJustify(k, sc, ax, just) == 0.0
  {
    if k > 0 {
      NoOffsetsWhenGrowing(k - 1, sc, ax, just);
    }
  }

  /** A shrinking child (nonnegative weights) of an overfull line loses exactly epsilon, because
      `max(eps, remaining * shrink / grow_total)` with a nonpositive second argument is eps. */
  lemma ShrinkLosesEpsilon(it: FlexItem, remaining: real, growTotal: real, eps: real)
    requires remaining < 0.0 && it.shrink > 0.0 && growTotal >= 0.0 && eps > 0.0
    ensures MainSize(it, remaining, growTotal, eps) == it.basis - eps
  {
    if growTotal > 0.0 {
      assert it.shrink / growTotal > 0.0;
      assert remaining * (it.shrink / growTotal) < 0.0;
    }
  }

  /** The grow weights of items that do not shrink the total add up to a nonnegative total. */
  lemma {:induction false} GrowTotalNonNegative(items: seq<FlexItem>)
    requires forall j :: 0 <= j < |items| ==> items[j].grow >= 0.0
    ensures GrowTotal(items) >= 0.0
  {
    if items != [] {
      GrowTotalNonNegative(items[..|items| - 1]);
    }
  }

  /** On an overfull line of a render pass, every shrinking item is laid out exactly 0.1 below
      its basis in a horizontal layout and 0.0001 below it in a vertical one, whatever the
      overflow. */
  lemma ShrinkEpsilonPerDirection(dir: Direction, w: real, h: real, cursor: Vec2, style: ImStyle,
                                  items: seq<FlexItem>, align: Alignment, just: Justification, i: nat)
    requires i < |items| && items[i].shrink > 0.0
    requires forall j :: 0 <= j < |items| ==> items[j].grow >= 0.0
    requires var ax := AxisOf(dir, w, h, cursor, style); Remaining(ax, ScanOf(items, ax.gap)) < 0.0
    ensures var ax := AxisOf(dir, w, h, cursor, style);
      Line(items, ax, align, just)[i].mainSize == items[i].basis - (if dir == Horizontal then 0.1 else 0.0001)
  {
    var ax := AxisOf(dir, w, h, cursor, style);
    var sc := ScanOf(items, ax.gap);
    GrowTotalNonNegative(items);
    assert Line(items, ax, align, just)[i] == SlotAt(items, i, sc, ax, align, just);
    ShrinkLosesEpsilon(items[i], Remaining(ax, sc), sc.growTotal, ax.eps);
  }

  /** Without growth and with free space every child keeps its basis. */
  lemma {:induction false} BasesWhenNotGrowing(items: seq<FlexItem>, k: nat, sc: Scan, ax: Axis)
    requires k <= |items|
    requires Remaining(ax, sc) > 0.0 && sc.growTotal == 0.0
    ensures SumMain(items, k, sc, ax) == SumBases(items[..k])
  {
    if k == 0 {
      assert items[..0] == [];
    } else {
      BasesWhenNotGrowing(items, k - 1, sc, ax);
      assert items[..k][..k - 1] == items[..k - 1];
    }
  }

  /** The free space before the first child under a justification. */
  function Lead(just: Justification, n: nat, remaining: real): real
    requires n > 0
  {
    match just
    case Start => 0.0
    case End => remaining
    case Center => remaining / 2.0
    case SpaceBetween => 0.0
    case SpaceAround => remaining / (n + 1) as real
  }

  /** The free space after the last child under a justification. */
  function Trail(just: Justification, n: nat, remaining: real): real
    requires n > 0
  {
    match just
    case Start => remaining
    case End => 0.0
    case Center => remaining / 2.0
    case SpaceBetween => if n == 1 then remaining else 0.0
    case SpaceAround => remaining / (n + 1) as real
  }

  /** The sum of all justification offsets of a line with free space and no growth. */
  lemma {:induction false} SumJustifyClosedForm(k: nat, sc: Scan, ax: Axis, just: Justification)
    requires 0 < k <= sc.count
    requires sc.growTotal == 0.0 && Remaining(ax, sc) > 0.0
    ensures var r := Remaining(ax, sc);
      SumJustify(k, sc, ax, just) == match just
        case Start => 0.0
        case End => r
        case Center => r / 2.0
        case SpaceBetween => if sc.count == 1 then 0.0 else Gaps(k, r / (sc.count - 1) as real)
        case SpaceAround => Gaps(k + 1, r / (sc.count + 1) as real)
  {
    if k > 1 {
      SumJustifyClosedForm(k - 1, sc, ax, just);
    }
  }

  /** Justification distributes the free space of a line that does not grow as stated by Lead
      and Trail: start packs the children at the start, end at the end, center leaves equal
      space on both sides, space-between touches both edges (a single child stays at the
      start), and space-around leaves `remaining / (n + 1)` before the first and after the last
      child. */
  lemma JustifyDistributesFreeSpace(items: seq<FlexItem>, ax: Axis, align: Alignment, just: Justification)
    requires |items| > 0
    requires var sc := ScanOf(items, ax.gap); sc.growTotal == 0.0 && Remaining(ax, sc) > 0.0
    ensures var sc := ScanOf(items, ax.gap);
      var r := Remaining(ax, sc);
      var first := SlotAt(items, 0, sc, ax, align, just);
      first.mainPos == ax.mainStart + Lead(just, |items|, r) &&
      ax.mainStart + ax.extent - LastEnd(items, ax, align, just) == Trail(just, |items|, r)
  {
    var sc := ScanOf(items, ax.gap);
    var n := |items|;
    var r := Remaining(ax, sc);
    LastEndIsTotal(items, ax, align, just);
    BasesWhenNotGrowing(items, n, sc, ax);
    assert items[..n] == items;
    SumJustifyClosedForm(n, sc, ax, just);
    assert SumBases(items) + Gaps(n, ax.gap) == ax.extent - r;
    if just == Justification.SpaceBetween && n > 1 {
      var q := r / (n - 1) as real;
      GapsCount(n, q);
      assert (n - 1) as real * q == r;
    } else if just == Justification.SpaceAround {
      var q := r / (n + 1) as real;
      GapsCount(n + 1, q);
      assert (n + 1) as real * q == r;
      assert n as real * q == r - q;
    }
  }

  /** Two children of basis 50 with grow weights 1 and 2 in a 300-wide line without spacing:
      the free 200 are split 1:2, giving widths 350/3 and 550/3 (about 116.67 and 183.33). */
  lemma GrowExample(items: seq<FlexItem>, ax: Axis)
    requires items == [FlexItem(50.0, 1.0, 0.0, 20.0), FlexItem(50.0, 2.0, 0.0, 20.0)]
    requires ax == Axis(true, 300.0, 100.0, 0.0, 0.1, 0.0, 0.0)
    ensures Line(items, ax, Alignment.Stretch, Justification.SpaceBetween)
            == [Slot(0.0, 350.0 / 3.0, 0.0, 100.0), Slot(350.0 / 3.0, 550.0 / 3.0, 0.0, 100.0)]
  {
    var sc := Scan(2, 100.0, 3.0);
    assert MainOf(items, 0, sc, ax) == 350.0 / 3.0;
    assert MainOf(items, 1, sc, ax) == 550.0 / 3.0;
    assert CursorAt(items, 1, sc, ax, Justification.SpaceBetween) == 350.0 / 3.0;
    TwoSlots(items, ax, Alignment.Stretch, Justification.SpaceBetween, sc,
             Slot(0.0, 350.0 / 3.0, 0.0, 100.0), Slot(350.0 / 3.0, 550.0 / 3.0, 0.0, 100.0));
  }

  /** Two children of width 50 that do not grow, justified space-between in a 300-wide line,
      start at 0 and 250: the first touches the start, the last the end. */
  lemma SpaceBetweenExample(items: seq<FlexItem>, ax: Axis)
    requires items == [FlexItem(50.0, 0.0, 0.0, 20.0), FlexItem(50.0, 0.0, 0.0, 20.0)]
    requires ax == Axis(true, 300.0, 100.0, 0.0, 0.1, 0.0, 0.0)
    ensures Line(items, ax, Alignment.Center, Justification.SpaceBetween)
            == [Slot(0.0, 50.0, 40.0, 20.0), Slot(250.0, 50.0, 40.0, 20.0)]
  {
    var sc := Scan(2, 100.0, 0.0);
    assert Justify(1, sc, ax, Justification.SpaceBetween) == 200.0;
    assert CursorAt(items, 1, sc, ax, Justification.SpaceBetween) == 50.0;
    TwoSlots(items, ax, Alignment.Center, Justification.SpaceBetween, sc,
             Slot(0.0, 50.0, 40.0, 20.0), Slot(250.0, 50.0, 40.0, 20.0));
  }

  /** The line of two items without spacing, once their slots under the first scan are known. */
  lemma TwoSlots(items: seq<FlexItem>, ax: Axis, align: Alignment, just: Justification, sc: Scan, s0: Slot, s1: Slot)
    requires |items| == 2 && ax.gap == 0.0
    requires sc == Scan(2, items[0].basis + items[1].basis, items[0].grow + items[1].grow)
    requires SlotAt(items, 0, sc, ax, align, just) == s0 && SlotAt(items, 1, sc, ax, align, just) == s1
    ensures Line(items, ax, align, just) == [s0, s1]
  {
    ExampleScan(items, sc.occupied, sc.growTotal);
  }

  /** The first scan of a two-item line without spacing. */
  lemma ExampleScan(items: seq<FlexItem>, bases: real, grows: real)
    requires |items| == 2
    requires items[0].basis + items[1].basis == bases && items[0].grow + items[1].grow == grows
    ensures ScanOf(items, 0.0) == Scan(2, bases, grows)
  {
    assert items[..1] == [items[0]];
    assert items[..1][..0] == [];
    assert SumBases(items[..1]) == items[0].basis;
    assert GrowTotal(items[..1]) == items[0].grow;
    assert Gaps(2, 0.0) == Gaps(1, 0.0) + 0.0 == 0.0;
  }
}
