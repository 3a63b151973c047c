/** The render-layer cache and the drawing context it is pushed on. A render layer keeps an
    offscreen target that is repainted only when something made it dirty; the context holds the
    stack of active layers, the backend and the font sizes used to convert lengths. The two
    classes refer to each other, so they share this module. */
module Rendering {
  import opened Wrappers
  import opened Types
  import opened RenderBackends

  /** (scroll x, scroll y, width, height) of the window region a layer shows. */
  datatype Viewport = Viewport(scrollX: real, scrollY: real, width: real, height: real)

  /** `std::uint32_t(std::max(1.f, extent + 0.5f))`: the extent rounded half up, at least 1.
      The conversion truncates, which for a value of at least 1 is the floor. */
  function RequestedExtent(extent: real): (n: nat)
    ensures n >= 1
    ensures extent >= 0.5 ==> extent - 0.5 < n as real <= extent + 0.5
    ensures extent < 0.5 ==> n == 1
  {
    var v := if 1.0 > extent + 0.5 then 1.0 else extent + 0.5;
    v.Floor
  }

  /** The target is missing or not of the requested size: it has to be (re)created. */
  predicate TargetMismatch(rt: Option<RenderTarget>, width: nat, height: nat) {
    rt.None? || rt.value.width != width || rt.value.height != height
  }

  /** The thread-local `current_context` pointer. */
  class ContextSlot {
    var current: Option<Context>

    constructor()
      ensures current == None
    {
      current := None;
    }

    /** `Context::current()`: the active context, or the error thrown when there is none. */
    function Current(): (r: Result<Context, string>)
      reads this
      ensures r.Success? <==> current.Some?
      ensures r.Success? ==> r.value == current.value
      ensures r.Failure? ==> r.error == "no context active"
    {
      if current.None? then Failure("no context active") else Success(current.value)
    }
  }

  class Context {
    const backend: RenderBackend
    /** `ImGui::GetFontSize()`: the size of the font in use. */
    const fontSize: real
    /** The size of the interface's default font, if it has one. */
    const defaultFontSize: Option<real>
    /** The stack of active render layers, innermost last. */
    var layers: seq<RenderLayer>

    /** Constructing a context makes it the current one. */
    constructor(backend: RenderBackend, fontSize: real, defaultFontSize: Option<real>, slot: ContextSlot)
      modifies slot
      ensures this.backend == backend && this.fontSize == fontSize
      ensures this.defaultFontSize == defaultFontSize
      ensures layers == []
      ensures slot.Current() == Success(this)
    {
      this.backend := backend;
      this.fontSize := fontSize;
      this.defaultFontSize := defaultFontSize;
      layers := [];
      new;
      slot.current := Some(this);
    }

    /** `rem()`: the default font's size, 12 when there is no default font. */
    function Rem(): (r: real)
      ensures defaultFontSize.Some? ==> r == defaultFontSize.value
      ensures defaultFontSize.None? ==> r == 12.0
    {
      defaultFontSize.GetOr(12.0)
    }

    /** `to_actual`: a length in pixels. */
    function ToActual(l: Length): real {
      match l
      case Px(v) => v
      case Em(v) => fontSize * v
      case Rem(v) => Rem() * v
    }

    /** `render_layer()`: the innermost active layer, or the error thrown when none is active. */
    function RenderLayerTop(): (r: Result<RenderLayer, string>)
      reads this
      ensures r.Success? <==> |layers| > 0
      ensures r.Success? ==> r.value == layers[|layers| - 1]
      ensures r.Failure? ==> r.error == "no render layer present"
    {
      if layers == [] then Failure("no render layer present") else Success(layers[|layers| - 1])
    }

    method PushRenderLayer(l: RenderLayer)
      modifies this
      ensures layers == old(layers) + [l]
      ensures RenderLayerTop() == Success(l)
    {
      layers := layers + [l];
    }

    /** Popping from an empty stack is undefined in the source, hence the precondition. */
    method PopRenderLayer()
      requires |layers| > 0
      modifies this
      ensures layers == old(layers)[..|old(layers)| - 1]
    {
      layers := layers[..|layers| - 1];
    }
  }

  /** Which font each unit follows: a rem length follows the interface's default font, falling
      back to 12 pixels per rem, and ignores the font in use; an em length follows the font in
      use only; the two units agree exactly when the font in use has the default size. */
  lemma ToActualFollowsFonts(ctx: Context, other: Context, v: real)
    ensures ctx.defaultFontSize.None? ==> ctx.ToActual(Rem(v)) == 12.0 * v
    ensures ctx.defaultFontSize.Some? ==> ctx.ToActual(Rem(v)) == ctx.defaultFontSize.value * v
    ensures ctx.defaultFontSize == other.defaultFontSize ==> ctx.ToActual(Rem(v)) == other.ToActual(Rem(v))
    ensures ctx.fontSize == other.fontSize ==> ctx.ToActual(Em(v)) == other.ToActual(Em(v))
    ensures v != 0.0 ==> (ctx.ToActual(Em(v)) == ctx.ToActual(Rem(v)) <==> ctx.fontSize == ctx.Rem())
  {
  }

  /** Converting a pixel length is the identity; em and rem lengths scale linearly. */
  lemma ToActualScales(ctx: Context, l: Length, k: real)
    ensures ctx.ToActual(Px(l.value)) == l.value
    ensures ctx.ToActual(match l
                         case Px(v) => Px(k * v)
                         case Em(v) => Em(k * v)
                         case Rem(v) => Rem(k * v)) == k * ctx.ToActual(l)
  {
  }

  class RenderLayer {
    var dirty: bool
    /** Objects registered since the last `push_to`. */
    var objectCount: nat
    var renderTarget: Option<RenderTarget>
    /** The backend the target was created on; the target is handed back to it on reset. */
    var backend: Option<RenderBackend>
    var viewport: Viewport
    var requestedWidth: nat
    var requestedHeight: nat
    /** How many times the layer's subtree has been painted into the target. */
    var paints: nat

    /** A target is held exactly together with the backend that created it. */
    ghost predicate Valid()
      reads this
    {
      renderTarget.Some? <==> backend.Some?
    }

    /** The layer's fields, as a value. */
    ghost function View(): LayerView
      reads this
    {
      LayerView(dirty, objectCount, renderTarget, backend, viewport, requestedWidth, requestedHeight, paints)
    }

    /** The objects `_reset` may touch: this layer and the backend its target goes back to. */
    ghost function Footprint(): set<object>
      reads this
    {
      {this} + (if backend.Some? then {backend.value} else {})
    }

    constructor()
      ensures Valid()
      ensures dirty && objectCount == 0 && renderTarget == None && backend == None
      ensures paints == 0
    {
      dirty := true;
      objectCount := 0;
      renderTarget := None;
      backend := None;
      viewport := Viewport(0.0, 0.0, 0.0, 0.0);
      requestedWidth := 1;
      requestedHeight := 1;
      paints := 0;
    }

    /** `push_to`: reset the object count, push onto the context's stack, compute the requested
        size from the visible extent, and mark dirty when the target is missing or mis-sized or
        the viewport moved; a moved viewport is stored. */
    method PushTo(ctx: Context, contentWidth: real, contentHeight: real, scrollX: real, scrollY: real)
      requires Valid()
      modifies this, ctx
      ensures Valid()
      ensures objectCount == 0
      ensures ctx.layers == old(ctx.layers) + [this]
      ensures requestedWidth == RequestedExtent(contentWidth)
      ensures requestedHeight == RequestedExtent(contentHeight)
      ensures viewport == Viewport(scrollX, scrollY, contentWidth, contentHeight)
      ensures dirty == (old(dirty) || TargetMismatch(renderTarget, requestedWidth, requestedHeight)
                        || viewport != old(viewport))
      ensures renderTarget == old(renderTarget) && backend == old(backend) && paints == old(paints)
    {
      objectCount := 0;
      ctx.PushRenderLayer(this);
      requestedWidth := RequestedExtent(contentWidth);
      requestedHeight := RequestedExtent(contentHeight);
      if renderTarget.None? {
        dirty := true;
      } else if requestedWidth != renderTarget.value.width || requestedHeight != renderTarget.value.height {
        dirty := true;
      }
      var vp := Viewport(scrollX, scrollY, contentWidth, contentHeight);
      if vp != viewport {
        dirty := true;
        viewport := vp;
      }
    }

    /** `register_object`: one more object will be painted into this layer. */
    method RegisterObject()
      modifies this
      ensures objectCount == old(objectCount) + 1
      ensures dirty == old(dirty) && renderTarget == old(renderTarget) && backend == old(backend)
      ensures viewport == old(viewport) && paints == old(paints)
      ensures requestedWidth == old(requestedWidth) && requestedHeight == old(requestedHeight)
    {
      objectCount := objectCount + 1;
    }

    /** `set_dirty`. */
    method SetDirty()
      modifies this
      ensures View() == old(View()).(dirty := true)
      ensures dirty
      ensures objectCount == old(objectCount) && renderTarget == old(renderTarget)
      ensures backend == old(backend) && viewport == old(viewport) && paints == old(paints)
      ensures requestedWidth == old(requestedWidth) && requestedHeight == old(requestedHeight)
    {
      dirty := true;
    }

    /** `_reset`: hand a held target to its backend's deferred delete, then drop both. Only that
        backend's pending-deletion list changes. */
    method Reset()
      requires Valid()
      modifies Footprint()
      ensures Valid()
      ensures View() == old(View()).(renderTarget := None, backend := None)
      ensures renderTarget == None && backend == None
      ensures old(backend).Some? ==>
                OnlyEnqueuedTarget(old(backend.value), old(renderTarget.value))
      ensures old(backend).Some? ==> Deferred(old(backend.value.View()), old(backend.value).View())
      ensures dirty == old(dirty) && objectCount == old(objectCount) && viewport == old(viewport)
      ensures paints == old(paints)
      ensures requestedWidth == old(requestedWidth) && requestedHeight == old(requestedHeight)
    {
      if renderTarget.Some? {
        backend.value.DeleteRenderTarget(renderTarget.value);
      }
      backend := None;
      renderTarget := None;
    }

    /** `pop_from_context_and_render` creates a new target: there are objects to paint and the
        target is missing or not of the requested size. */
    predicate Recreates()
      reads this
    {
      objectCount > 0 && TargetMismatch(renderTarget, requestedWidth, requestedHeight)
    }

    /** `pop_from_context_and_render` hands the held target back to its backend: there is one,
        and either nothing is to be painted or it has the wrong size. */
    predicate Releases()
      reads this
    {
      backend.Some? && renderTarget.Some? &&
      (objectCount == 0 || TargetMismatch(renderTarget, requestedWidth, requestedHeight))
    }

    /** `pop_from_context_and_render`: pop the context's stack; with no registered objects free
        the target and stop. Otherwise (re)create a missing or mis-sized target on the context's
        backend at exactly the requested size and mark dirty, then paint iff dirty and clear the
        flag. Afterwards the target exists, has the requested size and is clean. */
    method PopFromContextAndRender(ctx: Context)
      requires Valid() && |ctx.layers| > 0 && ctx.backend.Valid()
      modifies this, ctx, ctx.backend, Footprint()
      ensures Valid() && ctx.backend.Valid()
      ensures ctx.layers == old(ctx.layers)[..|old(ctx.layers)| - 1]
      // the backends: a recreated target comes from the context's backend, a released one is
      // queued for deletion on the backend it came from, and nothing else changes on either
      ensures old(Recreates()) ==>
                backend == Some(ctx.backend) && renderTarget.value !in old(ctx.backend.renderTargets)
      ensures ctx.backend.renderTargets ==
                old(ctx.backend.renderTargets) + (if old(Recreates()) then [renderTarget.value] else [])
      ensures ctx.backend.deletedRenderTargets ==
                old(ctx.backend.deletedRenderTargets) +
                (if old(Releases()) && old(backend) == Some(ctx.backend) then [old(renderTarget.value)] else [])
      ensures ctx.backend.textures == old(ctx.backend.textures)
      ensures ctx.backend.deletedTextures == old(ctx.backend.deletedTextures)
      ensures ctx.backend.tasks == old(ctx.backend.tasks) && ctx.backend.executed == old(ctx.backend.executed)
      ensures old(backend).Some? && old(backend.value) != ctx.backend ==>
                old(backend).value.View() ==
                  old(backend.value.View()).(deletedRenderTargets := old(backend.value.deletedRenderTargets) +
                                               (if old(Releases()) then [old(renderTarget.value)] else []))
      ensures old(objectCount) == 0 ==>
                renderTarget == None && backend == None && paints == old(paints) &&
                dirty == old(dirty)
      ensures old(objectCount) > 0 ==>
                renderTarget.Some? && !TargetMismatch(renderTarget, requestedWidth, requestedHeight) &&
                !dirty &&
                paints == old(paints) + (if old(dirty) || old(TargetMismatch(renderTarget, requestedWidth, requestedHeight)) then 1 else 0)
      ensures old(objectCount) > 0 && !old(TargetMismatch(renderTarget, requestedWidth, requestedHeight)) ==>
                renderTarget == old(renderTarget) && backend == old(backend)
      ensures objectCount == old(objectCount) && viewport == old(viewport)
      ensures requestedWidth == old(requestedWidth) && requestedHeight == old(requestedHeight)
    {
      ctx.PopRenderLayer();
      if objectCount == 0 {
        Reset();
        return;
      }
      if renderTarget.None? || requestedWidth != renderTarget.value.width
         || requestedHeight != renderTarget.value.height {
        Recreate(ctx.backend);
      }
      if dirty {
        paints := paints + 1;
        dirty := false;
      }
    }

    /** The recreation step of `pop_from_context_and_render`: a held target is handed back to
        its backend, a target of the requested size is created on `b` (the context's backend),
        and the layer turns dirty. */
    method Recreate(b: RenderBackend)
      requires Valid() && b.Valid()
      modifies this, b, Footprint()
      ensures Valid() && b.Valid()
      ensures backend == Some(b) && renderTarget.Some?
      ensures !TargetMismatch(renderTarget, requestedWidth, requestedHeight)
      ensures renderTarget.value !in old(b.renderTargets)
      ensures b.renderTargets == old(b.renderTargets) + [renderTarget.value]
      ensures b.deletedRenderTargets ==
                old(b.deletedRenderTargets) + (if old(backend) == Some(b) then [old(renderTarget.value)] else [])
      ensures b.textures == old(b.textures) && b.deletedTextures == old(b.deletedTextures)
      ensures b.tasks == old(b.tasks) && b.executed == old(b.executed)
      ensures old(backend).Some? && old(backend.value) != b ==>
                OnlyEnqueuedTarget(old(backend.value), old(renderTarget.value))
      ensures dirty && paints == old(paints) && objectCount == old(objectCount) && viewport == old(viewport)
      ensures requestedWidth == old(requestedWidth) && requestedHeight == old(requestedHeight)
    {
      if renderTarget.Some? {
        Reset();
      }
      var rt := b.CreateRenderTarget(requestedWidth, requestedHeight);
      renderTarget := Some(rt);
      backend := Some(b);
      dirty := true;
    }
  }

  /** An optional layer as a set: empty or a singleton. */
  function LayerSet(o: Option<RenderLayer>): set<RenderLayer> {
    if o.Some? then {o.value} else {}
  }

  /** Everything a layer holds, as a value. */
  datatype LayerView = LayerView(dirty: bool, objectCount: nat, renderTarget: Option<RenderTarget>,
                                 backend: Option<RenderBackend>, viewport: Viewport,
                                 requestedWidth: nat, requestedHeight: nat, paints: nat)

  /** The views of the layers `ls`. */
  ghost function Views(ls: set<RenderLayer>): map<RenderLayer, LayerView>
    reads ls
  {
    map l | l in ls :: l.View()
  }

  /** The views after `set_dirty` on every layer of `marked`. */
  function MarkDirty(vs: map<RenderLayer, LayerView>, marked: set<RenderLayer>): (r: map<RenderLayer, LayerView>)
    ensures r.Keys == vs.Keys
  {
    map l | l in vs :: if l in marked then vs[l].(dirty := true) else vs[l]
  }

  /** The views after `_reset` on every layer of `reset`: the target and its backend are
      dropped. */
  function DropTargets(vs: map<RenderLayer, LayerView>, reset: set<RenderLayer>): (r: map<RenderLayer, LayerView>)
    ensures r.Keys == vs.Keys
  {
    map l | l in vs :: if l in reset then vs[l].(renderTarget := None, backend := None) else vs[l]
  }

  /** Marking layers dirty leaves their validity as it was. */
  twostate lemma MarkDirtyKeepsValid(ls: set<RenderLayer>, new marked: set<RenderLayer>)
    requires Views(ls) == MarkDirty(old(Views(ls)), marked)
    ensures forall l :: l in ls ==> (l.Valid() <==> old(l.Valid()))
  {
    forall l | l in ls ensures l.Valid() <==> old(l.Valid()) {
      assert old(Views(ls))[l] == old(l.View());
      assert Views(ls)[l] == l.View();
    }
  }

  /** Layers that did not change show the same views. */
  twostate lemma ViewsFramed(ls: set<RenderLayer>)
    requires unchanged(ls)
    ensures Views(ls) == old(Views(ls))
  {
  }

  /** The backends a set of layers holds. */
  ghost function BackendsOf(ls: set<RenderLayer>): set<RenderBackend>
    reads ls
  {
    set l | l in ls && l.backend.Some? :: l.backend.value
  }

  /** Where a `_reset` happens: the layers of a tree, the backends they may hold, and the
      layer being reset. */
  datatype ResetSite = ResetSite(layers: set<RenderLayer>, backends: set<RenderBackend>, layer: RenderLayer)

  /** After `_reset` on the site's layer, and no other change to the site's layers or to its
      backends but the reset layer's own backend: every layer is still valid and holds only
      backends of the site, the views are the old ones with the reset layer's target dropped,
      and the backends only gained pending deletions. */
  twostate lemma ResetOne(site: ResetSite)
    requires site.layer in site.layers && old(BackendsOf(site.layers)) <= site.backends
    requires forall k :: k in site.layers ==> old(k.Valid())
    requires forall k :: k in site.layers && k != site.layer ==> k.View() == old(k.View())
    requires site.layer.View() == old(site.layer.View()).(renderTarget := None, backend := None)
    requires site.layer.backend == None
    requires old(site.layer.backend).Some? ==>
               Deferred(old(site.layer.backend.value.View()), old(site.layer.backend).value.View())
    requires forall b :: b in site.backends && Some(b) != old(site.layer.backend) ==> b.View() == old(b.View())
    ensures forall k :: k in site.layers ==> k.Valid()
    ensures BackendsOf(site.layers) <= site.backends
    ensures Views(site.layers) == DropTargets(old(Views(site.layers)), {site.layer})
    ensures AllDeferred(old(BackendViews(site.backends)), BackendViews(site.backends))
  {
    var ls, bs, l := site.layers, site.backends, site.layer;
    forall k | k in ls ensures k.Valid() {
      if k != l {
        assert old(k.Valid()) && k.View() == old(k.View());
      }
    }
    forall b | b in bs ensures Deferred(old(BackendViews(bs))[b], BackendViews(bs)[b]) {
      if Some(b) != old(l.backend) {
        DeferredRefl(b.View());
      }
    }
    DroppedOne(old(Views(ls)), Views(ls), l);
  }

  /** Marking nothing changes nothing. */
  lemma MarkDirtyNothing(vs: map<RenderLayer, LayerView>)
    ensures MarkDirty(vs, {}) == vs
  {
    assert forall l :: l in vs ==> MarkDirty(vs, {})[l] == vs[l];
  }

  /** Dropping nothing changes nothing. */
  lemma DropTargetsNothing(vs: map<RenderLayer, LayerView>)
    ensures DropTargets(vs, {}) == vs
  {
    assert forall l :: l in vs ==> DropTargets(vs, {})[l] == vs[l];
  }

  /** Views that differ from `vs` only by the reset of `l` are `vs` with `l`'s target dropped. */
  lemma DroppedOne(vs: map<RenderLayer, LayerView>, ws: map<RenderLayer, LayerView>, l: RenderLayer)
    requires ws.Keys == vs.Keys && l in vs
    requires ws[l] == vs[l].(renderTarget := None, backend := None)
    requires forall k :: k in vs && k != l ==> ws[k] == vs[k]
    ensures ws == DropTargets(vs, {l})
  {
  }

  /** Views that differ from `vs` only by `set_dirty` on `l` are `vs` with `l` marked. */
  lemma DirtiedOne(vs: map<RenderLayer, LayerView>, ws: map<RenderLayer, LayerView>, l: RenderLayer)
    requires ws.Keys == vs.Keys && l in vs
    requires ws[l] == vs[l].(dirty := true)
    requires forall k :: k in vs && k != l ==> ws[k] == vs[k]
    ensures ws == MarkDirty(vs, {l})
  {
  }

  /** Marking twice is marking the union once. */
  lemma MarkDirtyComposes(vs: map<RenderLayer, LayerView>, a: set<RenderLayer>, b: set<RenderLayer>)
    ensures MarkDirty(MarkDirty(vs, a), b) == MarkDirty(vs, a + b)
  {
  }

  /** Dropping twice is dropping the union once. */
  lemma DropTargetsComposes(vs: map<RenderLayer, LayerView>, a: set<RenderLayer>, b: set<RenderLayer>)
    ensures DropTargets(DropTargets(vs, a), b) == DropTargets(vs, a + b)
  {
  }

  /** The views of a set of backends. */
  ghost function BackendViews(bs: set<RenderBackend>): map<RenderBackend, BackendView>
    reads bs
  {
    map b | b in bs :: b.View()
  }

  /** Every backend only had render targets appended to its pending deletions. */
  predicate AllDeferred(vs: map<RenderBackend, BackendView>, ws: map<RenderBackend, BackendView>) {
    vs.Keys == ws.Keys && forall b :: b in vs ==> Deferred(vs[b], ws[b])
  }

  /** Deferring every backend is reflexive. */
  lemma AllDeferredRefl(us: map<RenderBackend, BackendView>)
    ensures AllDeferred(us, us)
  {
    forall b | b in us ensures Deferred(us[b], us[b]) {
      DeferredRefl(us[b]);
    }
  }

  /** Deferring every backend is transitive. */
  lemma AllDeferredTrans(us: map<RenderBackend, BackendView>, vs: map<RenderBackend, BackendView>,
                         ws: map<RenderBackend, BackendView>)
    requires AllDeferred(us, vs) && AllDeferred(vs, ws)
    ensures AllDeferred(us, ws)
  {
    forall b | b in us ensures Deferred(us[b], ws[b]) {
      DeferredTrans(us[b], vs[b], ws[b]);
    }
  }

  /** Backends that did not change show the same views. */
  twostate lemma BackendViewsFramed(bs: set<RenderBackend>)
    requires unchanged(bs)
    ensures BackendViews(bs) == old(BackendViews(bs))
  {
  }

  /** `_reset`'s effect on the backend: the target is appended to the pending-deletion list and
      nothing else of the backend changes. */
  twostate predicate OnlyEnqueuedTarget(b: RenderBackend, rt: RenderTarget)
    reads b
  {
    b.deletedRenderTargets == old(b.deletedRenderTargets) + [rt] &&
    b.textures == old(b.textures) && b.renderTargets == old(b.renderTargets) &&
    b.deletedTextures == old(b.deletedTextures) && b.tasks == old(b.tasks) &&
    b.executed == old(b.executed) && b.nextId == old(b.nextId)
  }

  /** One frame of a layered container: push the layer, register `objects` objects, pop and
      render. */
  method Frame(layer: RenderLayer, ctx: Context, width: real, height: real, scrollX: real, scrollY: real,
               objects: nat)
    requires layer.Valid() && ctx.backend.Valid()
    modifies layer, ctx, ctx.backend, layer.Footprint()
    ensures layer.Valid() && ctx.backend.Valid()
    ensures ctx.layers == old(ctx.layers)
    ensures layer.backend == old(layer.backend) || layer.backend == Some(ctx.backend) ||
            layer.backend == None
    ensures layer.requestedWidth == RequestedExtent(width)
    ensures layer.requestedHeight == RequestedExtent(height)
    ensures layer.viewport == Viewport(scrollX, scrollY, width, height)
    ensures objects > 0 ==>
              layer.renderTarget.Some? && !layer.dirty &&
              !TargetMismatch(layer.renderTarget, layer.requestedWidth, layer.requestedHeight)
    ensures objects > 0 && !old(layer.dirty) && old(layer.viewport) == layer.viewport &&
            !TargetMismatch(old(layer.renderTarget), layer.requestedWidth, layer.requestedHeight) ==>
              layer.paints == old(layer.paints) && layer.renderTarget == old(layer.renderTarget)
    ensures layer.paints <= old(layer.paints) + 1
  {
    layer.PushTo(ctx, width, height, scrollX, scrollY);
    var i := 0;
    while i < objects
      invariant 0 <= i <= objects
      invariant layer.Valid() && ctx.backend.Valid()
      invariant layer.objectCount == i
      invariant ctx.layers == old(ctx.layers) + [layer]
      invariant layer.dirty == (old(layer.dirty) || TargetMismatch(layer.renderTarget, layer.requestedWidth, layer.requestedHeight)
                                || layer.viewport != old(layer.viewport))
      invariant layer.renderTarget == old(layer.renderTarget) && layer.backend == old(layer.backend)
      invariant layer.paints == old(layer.paints)
      invariant layer.requestedWidth == RequestedExtent(width)
      invariant layer.requestedHeight == RequestedExtent(height)
      invariant layer.viewport == Viewport(scrollX, scrollY, width, height)
    {
      layer.RegisterObject();
      i := i + 1;
    }
    layer.PopFromContextAndRender(ctx);
  }

  /** Two frames with the same extent and viewport and something to draw: the second one reuses
      the target and paints nothing. */
  method SteadyFrames(layer: RenderLayer, ctx: Context, width: real, height: real, scrollX: real,
                      scrollY: real, objects: nat)
    requires layer.Valid() && ctx.backend.Valid() && objects > 0
    modifies layer, ctx, ctx.backend, layer.Footprint()
    ensures layer.Valid() && !layer.dirty && layer.renderTarget.Some?
    ensures layer.paints <= old(layer.paints) + 1
  {
    Frame(layer, ctx, width, height, scrollX, scrollY, objects);
    var afterFirst := layer.paints;
    var target := layer.renderTarget;
    Frame(layer, ctx, width, height, scrollX, scrollY, objects);
    assert layer.paints == afterFirst && layer.renderTarget == target;
  }
}
