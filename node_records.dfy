/** The per-node record of the node arena: what one `Node` holds that the tree, the
    invalidation protocol and the flex layout read or write, and the contextual sizing rule. */
module NodeRecords {
  import opened Wrappers
  import opened Types
  import opened Rendering

  /** A node's registry id (`imgui_id`), also its key in the arena. */
  type NodeId = nat

  /** A pair of lengths (horizontal, vertical). */
  datatype Length2 = Length2(x: Length, y: Length)

  /** The properties a `Layout` node adds: main direction, main-axis justification, cross-axis
      alignment, and the stored spacing and padding. */
  datatype LayoutProps = LayoutProps(direction: Direction, justifyContent: Justification,
                                     alignItems: Alignment, spacing: Length2, padding: Length2)

  /** A new layout is horizontal, space-between, stretch, with spacing 0px and padding 0.25em
      on both axes. */
  function DefaultLayoutProps(): (p: LayoutProps)
    ensures p.direction == Horizontal && p.justifyContent == Justification.SpaceBetween
    ensures p.alignItems == Alignment.Stretch
    ensures p.spacing == Length2(Px(0.0), Px(0.0)) && p.padding == Length2(Em(0.25), Em(0.25))
  {
    LayoutProps(Horizontal, Justification.SpaceBetween, Alignment.Stretch,
                Length2(Px(0.0), Px(0.0)), Length2(Em(0.25), Em(0.25)))
  }

  /** A node's last rendered size. */
  datatype Extent = Extent(width: real, height: real)

  /** One node. `layer` is the node's own render layer, if it has one; `layout` is present for
      `Layout` nodes. */
  datatype NodeRec = NodeRec(
    parent: Option<NodeId>,
    children: seq<NodeId>,
    visible: bool,
    needsUpdate: bool,
    needsRestyle: bool,
    layer: Option<RenderLayer>,
    width: LayoutLength,
    height: LayoutLength,
    position: Position,
    automaticWidth: real,
    automaticHeight: real,
    caption: Option<string>,
    layout: Option<LayoutProps>,
    size: Extent)

  /** The state of a freshly constructed node: no parent, no children, visible, both dirty
      flags set, automatic sizes 0, last size 0 x 0. */
  function NewRec(layer: Option<RenderLayer>, width: LayoutLength, height: LayoutLength,
                  layout: Option<LayoutProps>): (r: NodeRec)
    ensures r.parent == None && r.children == [] && r.visible
    ensures r.needsUpdate && r.needsRestyle
    ensures r.automaticWidth == 0.0 && r.automaticHeight == 0.0
    ensures r.layer == layer && r.layout == layout && r.caption == None
    ensures r.size == Extent(0.0, 0.0) && r.position == Static
  {
    NodeRec(None, [], true, true, true, layer, width, height, Static, 0.0, 0.0, None, layout,
            Extent(0.0, 0.0))
  }

  /** The contextual size along one axis: the automatic size without a basis, the share
      `content * p / 100` of the available content for a percentage, the converted length
      otherwise. */
  function Contextual(ll: LayoutLength, automatic: real, content: real, ctx: Context): real {
    match ll.basis
    case None => automatic
    case Some(Percent(p)) => content * p / 100.0
    case Some(Len(l)) => ctx.ToActual(l)
  }

  /** What each kind of basis makes of the contextual size. A length basis is the converted
      length, whatever the automatic size and the available content. A percentage basis ignores
      the automatic size and is linear in the content: it adds up over a split of the content,
      scales with it, and is 0 of no content. */
  lemma ContextualBasisKinds(ll: LayoutLength, automatic: real, automatic': real, content: real,
                             content': real, k: real, ctx: Context)
    ensures (ll.basis.Some? && ll.basis.value.Len?) ==>
              Contextual(ll, automatic, content, ctx) == Contextual(ll, automatic', content', ctx) ==
              ctx.ToActual(ll.basis.value.length)
    ensures (ll.basis.Some? && ll.basis.value.Percent?) ==>
              && Contextual(ll, automatic, content, ctx) == Contextual(ll, automatic', content, ctx)
              && Contextual(ll, automatic, content + content', ctx) ==
                 Contextual(ll, automatic, content, ctx) + Contextual(ll, automatic, content', ctx)
              && Contextual(ll, automatic, k * content, ctx) == k * Contextual(ll, automatic, content, ctx)
              && Contextual(ll, automatic, 0.0, ctx) == 0.0
  {
    if ll.basis.Some? && ll.basis.value.Percent? {
      var p := ll.basis.value.percent;
      assert (content + content') * p == content * p + content' * p;
      assert (k * content) * p == k * (content * p);
    }
  }

  /** `contextual_width(content)`. */
  function ContextualWidth(r: NodeRec, content: real, ctx: Context): real {
    Contextual(r.width, r.automaticWidth, content, ctx)
  }

  /** `contextual_height(content)`. */
  function ContextualHeight(r: NodeRec, content: real, ctx: Context): real {
    Contextual(r.height, r.automaticHeight, content, ctx)
  }

  /** Only a percentage basis depends on the available content: for the automatic and the
      length basis the contextual size is the same whatever the content; a 100% basis is the
      content itself. */
  lemma ContextualDependsOnContentOnlyForPercent(ll: LayoutLength, automatic: real, a: real,
                                                 b: real, ctx: Context)
    ensures (ll.basis.None? || ll.basis.value.Len?) ==>
              Contextual(ll, automatic, a, ctx) == Contextual(ll, automatic, b, ctx)
    ensures ll.basis == Some(Percent(100.0)) ==> Contextual(ll, automatic, a, ctx) == a
  {
  }
}
