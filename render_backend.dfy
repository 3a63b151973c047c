/** The backend-independent part of the render backend: it owns every texture and render target
    it created, deletes them only in two phases (`delete_*` enqueues, `gc` erases), and runs
    deferred tasks on `gc`. The GPU objects themselves are values with a unique id; a task is a
    tag and running it appends it to the `executed` log. */
module RenderBackends {
  import opened Seqs

  datatype Texture = Texture(id: nat)

  datatype RenderTarget = RenderTarget(id: nat, width: nat, height: nat)

  /** A deferred `std::function<void()>`, identified by a tag. */
  datatype Task = Task(tag: nat)

  /** A backend's fields, as a value. */
  datatype BackendView = BackendView(textures: seq<Texture>, renderTargets: seq<RenderTarget>,
                                     deletedTextures: seq<Texture>, deletedRenderTargets: seq<RenderTarget>,
                                     tasks: seq<Task>, executed: seq<Task>, nextId: nat)

  /** The only change a layer's `_reset` makes to a backend: render targets are appended to
      the pending-deletion list, and nothing else changes. */
  predicate Deferred(a: BackendView, b: BackendView) {
    b == a.(deletedRenderTargets := b.deletedRenderTargets) && a.deletedRenderTargets <= b.deletedRenderTargets
  }

  /** Deferring is reflexive. */
  lemma DeferredRefl(a: BackendView)
    ensures Deferred(a, a)
  {
  }

  /** Deferring is transitive. */
  lemma DeferredTrans(a: BackendView, b: BackendView, c: BackendView)
    requires Deferred(a, b) && Deferred(b, c)
    ensures Deferred(a, c)
  {
    assert a.deletedRenderTargets == b.deletedRenderTargets[..|a.deletedRenderTargets|];
    assert b.deletedRenderTargets == c.deletedRenderTargets[..|b.deletedRenderTargets|];
  }

  /** The elements of a sequence, as a set, built from the back so that extending a prefix by
      one element adds exactly that element. */
  function Elems<T>(s: seq<T>): (r: set<T>)
    ensures forall i :: 0 <= i < |s| ==> s[i] in r
  {
    if s == [] then {} else Elems(s[..|s| - 1]) + {s[|s| - 1]}
  }

  class RenderBackend {
    /** `_textures` and `_render_targets`: the objects this backend owns, in creation order. */
    var textures: seq<Texture>
    var renderTargets: seq<RenderTarget>
    /** The pending-deletion lists. */
    var deletedTextures: seq<Texture>
    var deletedRenderTargets: seq<RenderTarget>
    /** `_tasks`, and the tasks that have run so far, in the order they ran. */
    var tasks: seq<Task>
    var executed: seq<Task>
    /** The id the next created object receives (stands for a fresh heap address). */
    var nextId: nat

    /** Every owned object was created by this backend. */
    ghost predicate Valid()
      reads this
    {
      (forall i :: 0 <= i < |textures| ==> textures[i].id < nextId) &&
      (forall i :: 0 <= i < |renderTargets| ==> renderTargets[i].id < nextId)
    }

    ghost function View(): BackendView
      reads this
    {
      BackendView(textures, renderTargets, deletedTextures, deletedRenderTargets, tasks, executed, nextId)
    }

    constructor()
      ensures Valid()
      ensures textures == [] && renderTargets == []
      ensures deletedTextures == [] && deletedRenderTargets == []
      ensures tasks == [] && executed == []
    {
      textures := [];
      renderTargets := [];
      deletedTextures := [];
      deletedRenderTargets := [];
      tasks := [];
      executed := [];
      nextId := 0;
    }

    /** `create_texture`: a new texture, appended to the owned list and returned. */
    method CreateTexture() returns (t: Texture)
      requires Valid()
      modifies this
      ensures Valid()
      ensures t !in old(textures)
      ensures textures == old(textures) + [t]
      ensures renderTargets == old(renderTargets)
      ensures deletedTextures == old(deletedTextures)
      ensures deletedRenderTargets == old(deletedRenderTargets)
      ensures tasks == old(tasks) && executed == old(executed)
    {
      t := Texture(nextId);
      nextId := nextId + 1;
      textures := textures + [t];
    }

    /** `create_render_target(width, height)`: a new target of exactly that size, appended to the
        owned list and returned. */
    method CreateRenderTarget(width: nat, height: nat) returns (rt: RenderTarget)
      requires Valid()
      modifies this
      ensures Valid()
      ensures rt.width == width && rt.height == height
      ensures rt !in old(renderTargets)
      ensures renderTargets == old(renderTargets) + [rt]
      ensures textures == old(textures)
      ensures deletedTextures == old(deletedTextures)
      ensures deletedRenderTargets == old(deletedRenderTargets)
      ensures tasks == old(tasks) && executed == old(executed)
    {
      rt := RenderTarget(nextId, width, height);
      nextId := nextId + 1;
      renderTargets := renderTargets + [rt];
    }

    /** `delete_texture`: only enqueues; the owned list is untouched until `gc`. */
    method DeleteTexture(t: Texture)
      modifies this
      ensures old(Valid()) ==> Valid()
      ensures deletedTextures == old(deletedTextures) + [t]
      ensures textures == old(textures) && renderTargets == old(renderTargets)
      ensures deletedRenderTargets == old(deletedRenderTargets)
      ensures tasks == old(tasks) && executed == old(executed) && nextId == old(nextId)
    {
      deletedTextures := deletedTextures + [t];
    }

    /** `delete_render_target`: only enqueues; the owned list is untouched until `gc`. */
    method DeleteRenderTarget(rt: RenderTarget)
      modifies this
      ensures old(Valid()) ==> Valid()
      ensures deletedRenderTargets == old(deletedRenderTargets) + [rt]
      ensures textures == old(textures) && renderTargets == old(renderTargets)
      ensures deletedTextures == old(deletedTextures)
      ensures tasks == old(tasks) && executed == old(executed) && nextId == old(nextId)
    {
      deletedRenderTargets := deletedRenderTargets + [rt];
    }

    /** `exec`: appends a task to run on the next `gc`. */
    method Exec(task: Task)
      modifies this
      ensures old(Valid()) ==> Valid()
      ensures tasks == old(tasks) + [task]
      ensures textures == old(textures) && renderTargets == old(renderTargets)
      ensures deletedTextures == old(deletedTextures)
      ensures deletedRenderTargets == old(deletedRenderTargets)
      ensures executed == old(executed) && nextId == old(nextId)
    {
      tasks := tasks + [task];
    }

    /** The first loop of `gc`: erase every enqueued texture, then clear the pending list. */
    method CollectTextures()
      requires Valid()
      modifies this
      ensures Valid()
      ensures textures == RemoveAll(old(textures), Elems(old(deletedTextures)))
      ensures deletedTextures == []
      ensures renderTargets == old(renderTargets)
      ensures deletedRenderTargets == old(deletedRenderTargets)
      ensures tasks == old(tasks) && executed == old(executed) && nextId == old(nextId)
    {
      RemoveAllEmpty(textures);
      assert Elems(deletedTextures[..0]) == {};
      var i := 0;
      while i < |deletedTextures|
        invariant 0 <= i <= |deletedTextures|
        invariant textures == RemoveAll(old(textures), Elems(deletedTextures[..i]))
        invariant deletedTextures == old(deletedTextures)
        invariant renderTargets == old(renderTargets)
        invariant deletedRenderTargets == old(deletedRenderTargets)
        invariant tasks == old(tasks) && executed == old(executed) && nextId == old(nextId)
      {
        WithoutRemoveAll(old(textures), Elems(deletedTextures[..i]), deletedTextures[i]);
        assert deletedTextures[..i + 1][..i] == deletedTextures[..i];
        textures := Without(textures, deletedTextures[i]);
        i := i + 1;
      }
      assert deletedTextures[..i] == deletedTextures;
      deletedTextures := [];
    }

    /** The second loop of `gc`: erase every enqueued render target, then clear the pending list. */
    method CollectRenderTargets()
      requires Valid()
      modifies this
      ensures Valid()
      ensures renderTargets == RemoveAll(old(renderTargets), Elems(old(deletedRenderTargets)))
      ensures deletedRenderTargets == []
      ensures textures == old(textures)
      ensures deletedTextures == old(deletedTextures)
      ensures tasks == old(tasks) && executed == old(executed) && nextId == old(nextId)
    {
      RemoveAllEmpty(renderTargets);
      assert Elems(deletedRenderTargets[..0]) == {};
      var j := 0;
      while j < |deletedRenderTargets|
        invariant 0 <= j <= |deletedRenderTargets|
        invariant renderTargets == RemoveAll(old(renderTargets), Elems(deletedRenderTargets[..j]))
        invariant deletedRenderTargets == old(deletedRenderTargets)
        invariant textures == old(textures)
        invariant deletedTextures == old(deletedTextures)
        invariant tasks == old(tasks) && executed == old(executed) && nextId == old(nextId)
      {
        WithoutRemoveAll(old(renderTargets), Elems(deletedRenderTargets[..j]), deletedRenderTargets[j]);
        assert deletedRenderTargets[..j + 1][..j] == deletedRenderTargets[..j];
        renderTargets := Without(renderTargets, deletedRenderTargets[j]);
        j := j + 1;
      }
      assert deletedRenderTargets[..j] == deletedRenderTargets;
      deletedRenderTargets := [];
    }

    /** The last loop of `gc`: run every queued task once, first queued first, then clear them. */
    method RunTasks()
      requires Valid()
      modifies this
      ensures Valid()
      ensures executed == old(executed) + old(tasks) && tasks == []
      ensures textures == old(textures) && renderTargets == old(renderTargets)
      ensures deletedTextures == old(deletedTextures)
      ensures deletedRenderTargets == old(deletedRenderTargets) && nextId == old(nextId)
    {
      var k := 0;
      while k < |tasks|
        invariant 0 <= k <= |tasks|
        invariant tasks == old(tasks)
        invariant executed == old(executed) + tasks[..k]
        invariant textures == old(textures) && renderTargets == old(renderTargets)
        invariant deletedTextures == old(deletedTextures)
        invariant deletedRenderTargets == old(deletedRenderTargets) && nextId == old(nextId)
      {
        assert tasks[..k + 1] == tasks[..k] + [tasks[k]];
        executed := executed + [tasks[k]];
        k := k + 1;
      }
      assert tasks[..k] == tasks;
      tasks := [];
    }

    /** `gc`: erases exactly the enqueued objects from the owned lists (the others stay, in
        order), empties both pending lists, then runs every queued task once, first queued first,
        and clears the task list. With nothing pending it changes nothing. */
    method Gc()
      requires Valid()
      modifies this
      ensures Valid()
      ensures textures == RemoveAll(old(textures), Elems(old(deletedTextures)))
      ensures renderTargets == RemoveAll(old(renderTargets), Elems(old(deletedRenderTargets)))
      ensures deletedTextures == [] && deletedRenderTargets == []
      ensures executed == old(executed) + old(tasks) && tasks == []
      ensures nextId == old(nextId)
      ensures (old(deletedTextures) == [] && old(deletedRenderTargets) == [] && old(tasks) == [])
                ==> (textures == old(textures) && renderTargets == old(renderTargets) &&
                     executed == old(executed))
    {
      CollectTextures();
      CollectRenderTargets();
      RunTasks();
      assert Elems<Texture>([]) == {} && Elems<RenderTarget>([]) == {};
      RemoveAllEmpty(old(textures));
      RemoveAllEmpty(old(renderTargets));
    }

    /** `shutdown`: a final `gc`, after which both owned lists are empty. */
    method Shutdown()
      requires Valid()
      modifies this
      ensures Valid()
      ensures textures == [] && renderTargets == []
      ensures deletedTextures == [] && deletedRenderTargets == [] && tasks == []
      ensures executed == old(executed) + old(tasks)
      ensures nextId == old(nextId)
    {
      Gc();
      textures := [];
      renderTargets := [];
    }
  }

  /** The two-phase protocol end to end: a created target survives `delete_render_target` and is
      gone after the next `gc`, while a target created before it and never deleted stays. */
  method DeferredDeletion(b: RenderBackend) returns (keep: RenderTarget, drop: RenderTarget)
    requires b.Valid() && b.deletedRenderTargets == []
    modifies b
    ensures b.Valid() && b.deletedRenderTargets == []
    ensures keep in b.renderTargets && drop !in b.renderTargets
  {
    keep := b.CreateRenderTarget(10, 10);
    drop := b.CreateRenderTarget(20, 20);
    b.DeleteRenderTarget(drop);
    ghost var owned := b.renderTargets;
    assert drop in owned && keep in owned && keep != drop;
    b.Gc();
    assert Elems([drop]) == {drop};
    RemoveAllMembership(owned, {drop}, drop);
    RemoveAllMembership(owned, {drop}, keep);
    assert drop !in b.renderTargets;
    assert keep in b.renderTargets;
  }
}
