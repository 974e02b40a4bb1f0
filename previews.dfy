/**
 * The preview registry and its scheduler: one record per graph node,
 * the dirty sets that say which shaders and images are stale, and the
 * tick that recompiles, renders and notifies.
 *
 * Shader compilation is a black box here: the graph hands each node its
 * generated preview source and mode (`MaterialNode.previewShader`,
 * `MaterialNode.previewMode`), and the compiler is the set
 * `compileErrors` of sources it rejects. Unmanaged resources (shaders,
 * render targets) are numbered handles; the ghost set `live` holds the
 * handles created and not yet destroyed.
 */
module Previews {
  import opened Wrappers
  import opened Graphs
  import Tracking

  /** How often the host lets a tick do work. */
  datatype PreviewRate = Full | Throttled | Off

  /** How far a node modification reaches, in increasing order. */
  datatype ModificationScope = Nothing | Node | Graph {
    function Rank(): nat {
      match this
      case Nothing => 0
      case Node => 1
      case Graph => 2
    }
  }

  /** The least time between two throttled ticks that both do work: a tenth of a second, in milliseconds. */
  const ThrottleMs := 100

  /** A compiled shader: its resource handle, the source it was built from, and whether the compiler reported errors. */
  datatype Shader = Shader(handle: nat, source: string, hasError: bool)

  /** The image a record shows: the shared error texture or a render target. */
  datatype Texture = ErrorTexture | RenderTarget(handle: nat)

  /** The fields of one preview record, as a value. */
  datatype RecordState = RecordState(
    shader: Option<Shader>,
    shaderString: Option<string>,
    previewMode: PreviewMode,
    renderTexture: Option<Texture>,
    texture: Option<Texture>,
    onPreviewChanged: bool)

  /** The state of a record freshly created around render target `h`. */
  function NewRecord(h: nat): RecordState {
    RecordState(None, None, Preview2D, Some(RenderTarget(h)), None, false)
  }

  /** A non-master node without a preview, or one whose effective stage is the vertex stage, gets no preview shader. */
  predicate HasNoPreview(n: MaterialNode) {
    !n.isMaster && (!n.hasPreview || n.vertexStage)
  }

  /** The source UpdateShader stores for `n`. */
  function PreviewSource(n: MaterialNode): Option<string> {
    if HasNoPreview(n) then None else n.previewShader
  }

  predicate IsNullOrEmpty(s: Option<string>) {
    s.None? || s.value == ""
  }

  /** A shader that exists and compiled cleanly. */
  predicate Healthy(s: Option<Shader>) {
    s.Some? && !s.value.hasError
  }

  /** The image a processed record ends the tick with, given its shader and its render target. */
  function ImageFor(shader: Option<Shader>, renderTexture: Option<Texture>): Option<Texture> {
    if shader.None? then None
    else if shader.value.hasError then Some(ErrorTexture)
    else renderTexture
  }

  /** The unmanaged resources a record owns: its shader and its render target. */
  function Resources(shader: Option<Shader>, renderTexture: Option<Texture>): set<nat> {
    (if shader.Some? then {shader.value.handle} else {})
    + (if renderTexture.Some? && renderTexture.value.RenderTarget? then {renderTexture.value.handle} else {})
  }

  /** A record after DestroyPreview: its resources and its listener are dropped. */
  function Destroyed(r: RecordState): RecordState {
    r.(shader := None, renderTexture := None, texture := None, onPreviewChanged := false)
  }

  /**
   * The shader a record ends up with when it is brought in line with
   * source `src`: none for a missing or empty source; otherwise one built
   * from `src` that reports an error exactly when the compiler rejects it,
   * and that keeps the handle of a healthy shader or gets a new one (at
   * least `freshFrom`) in place of a missing or broken one.
   */
  ghost predicate Compiled(src: Option<string>, compileErrors: set<string>, before: Option<Shader>, after: Option<Shader>, freshFrom: nat) {
    if IsNullOrEmpty(src) then after == None
    else
      && after.Some?
      && after.value.source == src.value
      && after.value.hasError == (src.value in compileErrors)
      && (if Healthy(before) then after.value.handle == before.value.handle else after.value.handle >= freshFrom)
  }

  /**
   * The live handles after a shader goes from `before` to `after`: a
   * healthy shader that is rebuilt keeps its handle; any other shader that
   * is replaced or dropped is destroyed, and any other new shader is created.
   */
  ghost function SwapShader(live: set<nat>, before: Option<Shader>, after: Option<Shader>): set<nat> {
    var kept := Healthy(before) && after.Some?;
    (if before.Some? && !kept then live - {before.value.handle} else live)
    + (if after.Some? && !kept then {after.value.handle} else {})
  }

  /**
   * What UpdateShader does to the record of node `n`: the stored source and
   * mode follow the node, the shader follows the source, and nothing else
   * changes.
   */
  ghost predicate ShaderUpdated(n: MaterialNode, compileErrors: set<string>, before: RecordState, after: RecordState, freshFrom: nat) {
    && after.shaderString == PreviewSource(n)
    && after.previewMode == (if HasNoPreview(n) then before.previewMode else n.previewMode)
    && Compiled(PreviewSource(n), compileErrors, before.shader, after.shader, freshFrom)
    && after.renderTexture == before.renderTexture
    && after.texture == before.texture
    && after.onPreviewChanged == before.onPreviewChanged
  }

  /**
   * One record across UpdateShader applied to each node of `ids`: the record
   * of a node in `ids` that the graph holds is updated from that node, and
   * every other record is left alone.
   */
  ghost predicate ShaderStep(g: MaterialGraph, compileErrors: set<string>, k: NodeId, ids: set<NodeId>,
                             before: RecordState, after: RecordState, freshFrom: nat) {
    if k in ids && k in g.nodes then ShaderUpdated(g.nodes[k], compileErrors, before, after, freshFrom)
    else after == before
  }

  /**
   * One record across a tick that ran: its shader went through the
   * recompilation of `compiled`, and a processed record shows the image its
   * shader calls for while any other keeps the image it had.
   */
  ghost predicate Ticked(g: MaterialGraph, compileErrors: set<string>, k: NodeId, compiled: set<NodeId>, processed: set<NodeId>,
                         before: RecordState, after: RecordState, freshFrom: nat) {
    && ShaderStep(g, compileErrors, k, compiled, before, after.(texture := before.texture), freshFrom)
    && after.texture == if k in processed then ImageFor(after.shader, after.renderTexture) else before.texture
  }

  /** A record whose shader went through the recompilation and whose image was then redrawn has gone through a tick. */
  lemma TickedRecord(g: MaterialGraph, compileErrors: set<string>, k: NodeId, compiled: set<NodeId>, processed: set<NodeId>,
                     before: RecordState, mid: RecordState, after: RecordState, freshFrom: nat)
    requires ShaderStep(g, compileErrors, k, compiled, before, mid, freshFrom)
    requires after == mid.(texture := after.texture)
    requires after.texture == if k in processed then ImageFor(mid.shader, mid.renderTexture) else mid.texture
    ensures Ticked(g, compileErrors, k, compiled, processed, before, after, freshFrom)
  {
  }

  /** The manager attaching its handler to, or detaching it from, a node's modification event. */
  datatype Hook = Attach(node: NodeId) | Detach(node: NodeId)

  /**
   * How many times the handler is attached to node `id`'s event after the
   * hooks in `log`; detaching a handler that is not attached does nothing.
   */
  function Listeners(log: seq<Hook>, id: NodeId): nat {
    if log == [] then 0
    else
      var c := Listeners(log[..|log| - 1], id);
      match log[|log| - 1]
      case Attach(x) => if x == id then c + 1 else c
      case Detach(x) => if x == id && c > 0 then c - 1 else c
  }

  /** A hook on one node leaves every other node's count alone and moves its own by one, never below zero. */
  lemma ListenersAppend(log: seq<Hook>, h: Hook, id: NodeId)
    ensures h.node != id ==> Listeners(log + [h], id) == Listeners(log, id)
    ensures h == Attach(id) ==> Listeners(log + [h], id) == Listeners(log, id) + 1
    ensures h == Detach(id) ==> Listeners(log + [h], id) == if Listeners(log, id) > 0 then Listeners(log, id) - 1 else 0
  {
    assert (log + [h])[..|log|] == log;
  }

  /** Exactly the nodes of `done` are listened to, each once. */
  ghost predicate ListenedOnce(log: seq<Hook>, done: set<NodeId>) {
    forall k :: Listeners(log, k) == if k in done then 1 else 0
  }

  /** Attaching to one more node, when each node in `done` and no other is listened to once, keeps that so for `done` plus the node. */
  lemma AttachNew(log: seq<Hook>, done: set<NodeId>, id: NodeId)
    requires ListenedOnce(log, done)
    requires id !in done
    ensures ListenedOnce(log + [Attach(id)], done + {id})
  {
    forall k ensures Listeners(log + [Attach(id)], k) == if k in done + {id} then 1 else 0 {
      ListenersAppend(log, Attach(id), k);
    }
  }

  /** Re-adding a node that is listened to (detach, then attach) leaves the count as it was; a node not listened to ends with one listener. */
  lemma ReattachListens(log: seq<Hook>, id: NodeId)
    ensures Listeners(log + [Detach(id)] + [Attach(id)], id) == if Listeners(log, id) > 0 then Listeners(log, id) else 1
  {
    ListenersAppend(log, Detach(id), id);
    ListenersAppend(log + [Detach(id)], Attach(id), id);
  }

  /** The hooks RemovePreview logs for each node of `nodes`, first to last. */
  function DetachAll(nodes: seq<MaterialNode>): seq<Hook> {
    if nodes == [] then []
    else DetachAll(nodes[..|nodes| - 1]) + [Detach(nodes[|nodes| - 1].guid)]
  }

  /**
   * The hooks AddPreview logs for each node of `nodes`, first to last, when
   * the ids in `present` start with a record: a node whose id already has a
   * record is detached before it is attached.
   */
  function AttachAll(present: set<NodeId>, nodes: seq<MaterialNode>): seq<Hook> {
    if nodes == [] then []
    else
      var init := nodes[..|nodes| - 1];
      var id := nodes[|nodes| - 1].guid;
      AttachAll(present, init) + (if id in present + Tracking.Guids(init) then [Detach(id)] else []) + [Attach(id)]
  }

  /** One more node of a list extends the hooks AttachAll logs by those of that node. */
  lemma AttachAllNext(present: set<NodeId>, nodes: seq<MaterialNode>, i: nat)
    requires i < |nodes|
    ensures AttachAll(present, nodes[..i + 1]) == AttachAll(present, nodes[..i]) +
      (if nodes[i].guid in present + Tracking.Guids(nodes[..i]) then [Detach(nodes[i].guid)] else []) + [Attach(nodes[i].guid)]
  {
    assert nodes[..i + 1][..i] == nodes[..i];
  }

  /**
   * The hooks logged for one more node of a list extend those logged for the
   * nodes before it, whose ids, with `present`, have records.
   */
  lemma AttachOneMore(base: seq<Hook>, present: set<NodeId>, nodes: seq<MaterialNode>, i: nat, keys: set<NodeId>, log: seq<Hook>)
    requires i < |nodes| && keys == present + Tracking.Guids(nodes[..i])
    requires log == base + AttachAll(present, nodes[..i])
    ensures log + (if nodes[i].guid in keys then [Detach(nodes[i].guid)] else []) + [Attach(nodes[i].guid)]
      == base + AttachAll(present, nodes[..i + 1])
  {
    AttachAllNext(present, nodes, i);
  }

  /** After the hooks of AttachAll, every added node is listened to at least once. */
  lemma {:induction false} AttachAllListens(log: seq<Hook>, present: set<NodeId>, nodes: seq<MaterialNode>)
    ensures forall n :: n in nodes ==> Listeners(log + AttachAll(present, nodes), n.guid) > 0
  {
    if nodes != [] {
      var init := nodes[..|nodes| - 1];
      var last := nodes[|nodes| - 1];
      var before := log + AttachAll(present, init);
      var mid := if last.guid in present + Tracking.Guids(init) then before + [Detach(last.guid)] else before;
      assert log + AttachAll(present, nodes) == mid + [Attach(last.guid)];
      AttachAllListens(log, present, init);
      forall n | n in nodes ensures Listeners(mid + [Attach(last.guid)], n.guid) > 0 {
        ListenersAppend(mid, Attach(last.guid), n.guid);
        if n.guid != last.guid {
          assert n in init by {
            assert nodes == init + [last];
          }
          assert Listeners(before, n.guid) > 0;
          if mid != before {
            ListenersAppend(before, Detach(last.guid), n.guid);
          }
        }
      }
    }
  }

  /** `live` holds exactly the handles of `base` and those from `lo` up to, not including, `hi`. */
  ghost predicate HandedOut(live: set<nat>, base: set<nat>, lo: nat, hi: nat) {
    forall h :: h in live <==> h in base || lo <= h < hi
  }

  /** Handing out the next handle extends the range by it. */
  lemma HandedOutOneMore(live: set<nat>, base: set<nat>, lo: nat, hi: nat)
    requires lo <= hi && HandedOut(live, base, lo, hi)
    ensures HandedOut(live + {hi}, base, lo, hi + 1)
  {
  }

  /** `done` is registered and `timeDependent` holds those of its nodes that require time. */
  ghost predicate TimeDependentOf(g: MaterialGraph, done: set<NodeId>, timeDependent: set<NodeId>) {
    && done <= g.nodes.Keys
    && forall x :: x in timeDependent <==> x in done && g.nodes[x].requiresTime
  }

  /**
   * When the time-dependent ids are those of `done` whose node requires
   * time, registering node `id` keeps that so for `done` plus `id`.
   */
  lemma TimeDependentOneMore(g: MaterialGraph, timeDependent: set<NodeId>, done: set<NodeId>, id: NodeId)
    requires WellFormed(g) && id in g.nodes
    requires TimeDependentOf(g, done, timeDependent)
    ensures TimeDependentOf(g, done + {id}, if g.nodes[id].requiresTime then timeDependent + {id} else timeDependent)
  {
    assert g.nodes[id].guid == id;
  }

  /** Taking `id` out of the ids still to do adds it to those done. */
  lemma TakeOne(all: set<NodeId>, rest: set<NodeId>, id: NodeId)
    requires id in rest && rest <= all
    ensures all - (rest - {id}) == (all - rest) + {id}
  {
  }

  /** The handles owned by the records of `ids` in `records`. */
  ghost function Owned(records: map<NodeId, RecordState>, ids: set<NodeId>): set<nat> {
    set k, h | k in ids && k in records && h in Resources(records[k].shader, records[k].renderTexture) :: h
  }

  /** The handles of one more record are its own resources added to the others'. */
  lemma OwnedOneMore(records: map<NodeId, RecordState>, ids: set<NodeId>, id: NodeId)
    requires id in records
    ensures Owned(records, ids + {id}) == Owned(records, ids) + Resources(records[id].shader, records[id].renderTexture)
  {
    var r := Resources(records[id].shader, records[id].renderTexture);
    forall h | h in r ensures h in Owned(records, ids + {id}) {
      assert id in ids + {id};
    }
  }

  /** Releasing the resources of one more record frees them besides those already freed. */
  lemma ReleaseOneMore(all: set<nat>, live: set<nat>, records: map<NodeId, RecordState>, gone: set<NodeId>, id: NodeId)
    requires id in records && live == all - Owned(records, gone)
    ensures live - Resources(records[id].shader, records[id].renderTexture) == all - Owned(records, gone + {id})
  {
    OwnedOneMore(records, gone, id);
  }

  /** The outcome of one tick: skipped by the rate guard, or the node sets it worked on. */
  datatype TickReport =
    | Skipped
    | Ran(compiled: set<NodeId>, processed: set<NodeId>, propertySources: set<NodeId>,
          drawn2D: set<NodeId>, drawn3D: set<NodeId>, notified: set<NodeId>)

  /** Whether the rate guard lets a tick at `now` do work, given the time of the last tick that did. */
  predicate TickRuns(rate: PreviewRate, lastUpdate: Option<int>, now: int) {
    rate != Off && !(rate == Throttled && lastUpdate.Some? && now - lastUpdate.value < ThrottleMs)
  }

  /** With no dirty shaders nothing is recompiled. */
  lemma ClosureOfNothing(g: MaterialGraph, forward: bool)
    ensures Closure(g, {}, forward) == {}
  {
    assert Closed(g, {}, forward);
    ClosedIsFixpoint(g, {}, forward);
  }

  /**
   * The node sets of one tick: the recompiled set is the downstream closure
   * of the dirty shaders; the processed set, the downstream closure of the
   * dirty previews, the recompiled set and the time-dependent previews,
   * holds all three and is closed downstream.
   */
  lemma TickSetsCover(g: MaterialGraph, dirtyShaders: set<NodeId>, dirtyPreviews: set<NodeId>, timeDependent: set<NodeId>)
    ensures dirtyShaders <= Closure(g, dirtyShaders, true)
    ensures var processed := Closure(g, dirtyPreviews + Closure(g, dirtyShaders, true) + timeDependent, true);
            && Closure(g, dirtyShaders, true) <= processed && dirtyPreviews <= processed && timeDependent <= processed
            && Closed(g, processed, true)
  {
    var compiled := Closure(g, dirtyShaders, true);
    SeedsInClosure(g, dirtyShaders, true);
    SeedsInClosure(g, dirtyPreviews + compiled + timeDependent, true);
    ClosureClosed(g, dirtyPreviews + compiled + timeDependent, true);
  }

  /** Propagating the dirty shaders first and then the union loses nothing and adds nothing: the processed set is the closure of all three dirty sets. */
  lemma TickProcessed(g: MaterialGraph, dirtyShaders: set<NodeId>, dirtyPreviews: set<NodeId>, timeDependent: set<NodeId>)
    ensures Closure(g, dirtyPreviews + Closure(g, dirtyShaders, true) + timeDependent, true)
         == Closure(g, dirtyPreviews + dirtyShaders + timeDependent, true)
  {
    ClosureAbsorbs(g, dirtyPreviews + timeDependent, dirtyShaders, true);
    assert dirtyPreviews + Closure(g, dirtyShaders, true) + timeDependent == (dirtyPreviews + timeDependent) + Closure(g, dirtyShaders, true);
    assert dirtyPreviews + dirtyShaders + timeDependent == (dirtyPreviews + timeDependent) + dirtyShaders;
  }

  /** Removing a key and then storing under it is storing under it. */
  lemma Replaced<K, V>(m: map<K, V>, k: K, v: V)
    ensures (m - {k})[k := v] == m[k := v]
  {
  }

  /** A record DestroyPreview has emptied: no shader, no render target, no image, no listener. */
  ghost predicate Emptied(p: PreviewData)
    reads p
  {
    p.shader.None? && p.renderTexture.None? && p.texture.None? && !p.onPreviewChanged
  }

  /** A record as AddPreview creates it, around a render target whose handle lies in `lo` up to `hi`. */
  ghost predicate Unrendered(p: PreviewData, lo: nat, hi: nat)
    reads p
  {
    && p.renderTexture.Some? && p.renderTexture.value.RenderTarget?
    && lo <= p.renderTexture.value.handle < hi
    && p.State() == NewRecord(p.renderTexture.value.handle)
  }

  /** The nodes whose records `list` holds. */
  function Listed(list: seq<PreviewData>): set<NodeId> {
    set p | p in list :: p.node
  }

  lemma ListedAppend(list: seq<PreviewData>, p: PreviewData)
    ensures Listed(list + [p]) == Listed(list) + {p.node}
  {
    assert forall q :: q in list + [p] <==> q in list || q == p;
  }

  /** One node's preview: its compiled shader, the image it shows and whether a listener waits for that image to change. */
  class PreviewData {
    const node: NodeId
    var shader: Option<Shader>
    var shaderString: Option<string>
    var previewMode: PreviewMode
    var renderTexture: Option<Texture>
    var texture: Option<Texture>
    var onPreviewChanged: bool

    constructor (node: NodeId, target: nat)
      ensures this.node == node && State() == NewRecord(target)
    {
      this.node := node;
      shader := None;
      shaderString := None;
      previewMode := Preview2D;
      renderTexture := Some(RenderTarget(target));
      texture := None;
      onPreviewChanged := false;
    }

    function State(): RecordState
      reads this
    {
      RecordState(shader, shaderString, previewMode, renderTexture, texture, onPreviewChanged)
    }
  }

  class PreviewManager {
    /** The graph being previewed; its own editing is outside this model. */
    var graph: MaterialGraph
    /** The sources the shader compiler rejects. */
    const compileErrors: set<string>
    var previews: map<NodeId, PreviewData>
    var dirtyPreviews: set<NodeId>
    var dirtyShaders: set<NodeId>
    var timeDependentPreviews: set<NodeId>
    var propertyNodeGuids: set<NodeId>
    var renderList2D: seq<PreviewData>
    var renderList3D: seq<PreviewData>
    /** The time, in milliseconds, of the last tick that did work; None before the first. */
    var lastUpdate: Option<int>
    var previewRate: PreviewRate
    /** The next unused resource handle. */
    var nextResource: nat
    /** The resource handles created and not yet destroyed. */
    ghost var live: set<nat>
    /** Every attach and detach of this manager's handler on a node's modification event, in order. */
    ghost var subscriptions: seq<Hook>

    /** Each record is filed under its own node, so no two nodes share one; every live handle was handed out already. */
    ghost predicate Consistent()
      reads this`previews, this`nextResource, this`live
    {
      && (forall i :: i in previews ==> previews[i].node == i)
      && (forall h :: h in live ==> h < nextResource)
    }

    /** Consistent, and no tick is half done. */
    ghost predicate Valid()
      reads this`previews, this`nextResource, this`live, this`renderList2D, this`renderList3D
    {
      Consistent() && renderList2D == [] && renderList3D == []
    }

    /** The registry's bookkeeping, as a value. */
    function Tracked(): Tracking.Tracker
      reads this`previews, this`dirtyShaders, this`dirtyPreviews, this`timeDependentPreviews
    {
      Tracking.Tracker(previews.Keys, dirtyShaders, dirtyPreviews, timeDependentPreviews)
    }

    /** The fields of every record, by node. */
    ghost function States(): map<NodeId, RecordState>
      reads this`previews, previews.Values
    {
      map k | k in previews :: previews[k].State()
    }

    /** Registers every node of `g`. */
    constructor (g: MaterialGraph, compileErrors: set<string>)
      requires WellFormed(g)
      ensures Valid()
      ensures graph == g && this.compileErrors == compileErrors
      ensures previews.Keys == g.nodes.Keys && dirtyShaders == g.nodes.Keys && dirtyPreviews == {}
      ensures forall id :: id in timeDependentPreviews <==> id in g.nodes && g.nodes[id].requiresTime
      ensures forall p :: p in previews.Values ==> fresh(p)
      ensures forall id :: id in previews ==> Unrendered(previews[id], 0, nextResource)
      ensures forall h: nat :: h in live <==> h < nextResource
      ensures forall id :: Listeners(subscriptions, id) == if id in g.nodes then 1 else 0
      ensures previewRate == Full && lastUpdate == None
    {
      graph := g;
      this.compileErrors := compileErrors;
      previews := map[];
      dirtyPreviews := {};
      dirtyShaders := {};
      timeDependentPreviews := {};
      propertyNodeGuids := {};
      renderList2D := [];
      renderList3D := [];
      lastUpdate := None;
      previewRate := Full;
      nextResource := 0;
      live := {};
      subscriptions := [];
      new;
      AddGraphPreviews();
    }

    /** The constructor's loop: AddPreview for every node of the graph, starting from an empty registry. */
    method AddGraphPreviews()
      requires Valid() && WellFormed(graph)
      requires previews == map[] && dirtyShaders == {} && dirtyPreviews == {} && timeDependentPreviews == {} && subscriptions == []
      modifies this`previews, this`dirtyShaders, this`timeDependentPreviews, this`dirtyPreviews
      modifies this`nextResource, this`live, this`subscriptions
      ensures Valid()
      ensures previews.Keys == graph.nodes.Keys && dirtyShaders == graph.nodes.Keys && dirtyPreviews == {}
      ensures timeDependentPreviews == set id | id in graph.nodes && graph.nodes[id].requiresTime
      ensures forall id :: id in previews ==> fresh(previews[id]) && Unrendered(previews[id], old(nextResource), nextResource)
      ensures old(nextResource) <= nextResource
      ensures forall h: nat :: h in live <==> h in old(live) || old(nextResource) <= h < nextResource
      ensures forall id :: Listeners(subscriptions, id) == if id in graph.nodes then 1 else 0
    {
      var rest := graph.nodes.Keys;
      while rest != {}
        invariant Valid() && rest <= graph.nodes.Keys
        invariant previews.Keys == graph.nodes.Keys - rest && dirtyShaders == graph.nodes.Keys - rest && dirtyPreviews == {}
        invariant TimeDependentOf(graph, graph.nodes.Keys - rest, timeDependentPreviews)
        invariant forall id :: id in previews ==> fresh(previews[id]) && Unrendered(previews[id], old(nextResource), nextResource)
        invariant old(nextResource) <= nextResource
        invariant HandedOut(live, old(live), old(nextResource), nextResource)
        invariant forall id :: Listeners(subscriptions, id) == if id in graph.nodes.Keys - rest then 1 else 0
        decreases rest
      {
        var id :| id in rest;
        ghost var log, timeDependent, spent, next := subscriptions, timeDependentPreviews, live, nextResource;
        assert graph.nodes[id].guid == id;
        AddGraphNode(graph.nodes[id], old(nextResource));
        TakeOne(graph.nodes.Keys, rest, id);
        HandedOutOneMore(spent, old(live), old(nextResource), next);
        TimeDependentOneMore(graph, timeDependent, graph.nodes.Keys - rest, id);
        AttachNew(log, graph.nodes.Keys - rest, id);
        rest := rest - {id};
      }
    }

    /**
     * One turn of the constructor's loop: AddPreview of a node that has no
     * record yet, while every record is one AddPreview created around a
     * render target handed out from `lo` on. Unlike AddListedNode, the turn
     * of AddPreviews, it needs no detach case and states the dirty and
     * time-dependent sets directly, which is what the constructor's loop
     * invariants are written in.
     */
    method AddGraphNode(n: MaterialNode, ghost lo: nat)
      requires Valid() && n.guid !in previews && lo <= nextResource
      requires forall k :: k in previews ==> Unrendered(previews[k], lo, nextResource)
      modifies this`previews, this`dirtyShaders, this`timeDependentPreviews, this`dirtyPreviews
      modifies this`nextResource, this`live, this`subscriptions
      ensures Valid() && previews.Keys == old(previews.Keys) + {n.guid} && fresh(previews[n.guid])
      ensures previews[n.guid].State() == NewRecord(old(nextResource))
      ensures forall k :: k in old(previews) ==> previews[k] == old(previews[k])
      ensures dirtyShaders == old(dirtyShaders) + {n.guid} && dirtyPreviews == old(dirtyPreviews)
      ensures timeDependentPreviews == if n.requiresTime then old(timeDependentPreviews) + {n.guid} else old(timeDependentPreviews)
      ensures subscriptions == old(subscriptions) + [Attach(n.guid)]
      ensures nextResource == old(nextResource) + 1 && live == old(live) + {old(nextResource)}
      ensures forall k :: k in previews ==> Unrendered(previews[k], lo, nextResource)
    {
      ghost var before := previews;
      ghost var record := AddPreview(n);
      forall k | k in previews ensures Unrendered(previews[k], lo, nextResource) {
        if k != n.guid {
          assert previews[k] == before[k];
        }
      }
    }

    /** The record of node `id`; the lookup fails when there is none. */
    method GetPreview(id: NodeId) returns (r: Option<PreviewData>)
      ensures r.Some? <==> id in previews
      ensures r.Some? ==> r.value == previews[id]
    {
      if id in previews {
        r := Some(previews[id]);
      } else {
        r := None;
      }
    }

    /** Creates an unmanaged resource (a render target or a shader) and returns its handle. */
    method Allocate() returns (h: nat)
      requires Consistent()
      modifies this`nextResource, this`live
      ensures Consistent()
      ensures h == old(nextResource) && h !in old(live)
      ensures nextResource == h + 1 && live == old(live) + {h}
    {
      h := nextResource;
      live := live + {h};
      nextResource := nextResource + 1;
    }

    /**
     * Creates a record for `n` around a new render target, replacing
     * (without destroying) any record the node already had, then registers it.
     */
    method AddPreview(n: MaterialNode) returns (ghost previewData: PreviewData)
      requires Valid()
      modifies this`previews, this`dirtyShaders, this`timeDependentPreviews, this`dirtyPreviews
      modifies this`nextResource, this`live, this`subscriptions
      ensures Valid()
      ensures Tracked() == Tracking.AfterAdd(old(Tracked()), n)
      ensures previews == old(previews)[n.guid := previewData]
      ensures fresh(previewData) && previewData.State() == NewRecord(old(nextResource))
      ensures nextResource == old(nextResource) + 1 && live == old(live) + {old(nextResource)}
      ensures subscriptions == old(subscriptions) + (if n.guid in old(previews) then [Detach(n.guid)] else []) + [Attach(n.guid)]
      ensures n.guid !in old(previews) ==> subscriptions == old(subscriptions) + [Attach(n.guid)]
    {
      var target := Allocate();
      var record := new PreviewData(n.guid, target);
      ghost var before := previews;
      if n.guid in previews {
        RemovePreview(n);
        Replaced(before, n.guid, record);
      }
      Register(n, record);
      previewData := record;
    }

    /** Files `record` under its node, marks its shader dirty, listens to the node and tracks it as time-dependent when it needs time. */
    method Register(n: MaterialNode, record: PreviewData)
      requires Valid() && record.node == n.guid && n.guid !in previews
      modifies this`previews, this`dirtyShaders, this`timeDependentPreviews, this`subscriptions
      ensures Valid()
      ensures previews == old(previews)[n.guid := record]
      ensures dirtyShaders == old(dirtyShaders) + {n.guid}
      ensures timeDependentPreviews == if n.requiresTime then old(timeDependentPreviews) + {n.guid} else old(timeDependentPreviews)
      ensures subscriptions == old(subscriptions) + [Attach(n.guid)]
    {
      previews := previews[n.guid := record];
      dirtyShaders := dirtyShaders + {n.guid};
      subscriptions := subscriptions + [Attach(n.guid)];
      if n.requiresTime {
        timeDependentPreviews := timeDependentPreviews + {n.guid};
      }
    }

    /** Stops listening to `n` and forgets its record and dirty marks; the record's resources stay allocated. */
    method RemovePreview(n: MaterialNode)
      requires Valid()
      modifies this`previews, this`dirtyShaders, this`timeDependentPreviews, this`dirtyPreviews, this`subscriptions
      ensures Valid()
      ensures Tracked() == Tracking.AfterRemove(old(Tracked()), n.guid)
      ensures previews == old(previews) - {n.guid}
      ensures subscriptions == old(subscriptions) + [Detach(n.guid)]
    {
      subscriptions := subscriptions + [Detach(n.guid)];
      previews := previews - {n.guid};
      timeDependentPreviews := timeDependentPreviews - {n.guid};
      dirtyPreviews := dirtyPreviews - {n.guid};
      dirtyShaders := dirtyShaders - {n.guid};
    }

    /**
     * A modification of graph scope or wider dirties the node's shader, one of
     * node scope only its image; either way the node's time dependence is
     * re-read.
     */
    method OnNodeModified(n: MaterialNode, scope: ModificationScope)
      modifies this`dirtyShaders, this`dirtyPreviews, this`timeDependentPreviews
      ensures scope.Rank() >= Graph.Rank() ==> dirtyShaders == old(dirtyShaders) + {n.guid} && dirtyPreviews == old(dirtyPreviews)
      ensures scope == Node ==> dirtyShaders == old(dirtyShaders) && dirtyPreviews == old(dirtyPreviews) + {n.guid}
      ensures scope == Nothing ==> dirtyShaders == old(dirtyShaders) && dirtyPreviews == old(dirtyPreviews)
      ensures timeDependentPreviews == if n.requiresTime then old(timeDependentPreviews) + {n.guid} else old(timeDependentPreviews) - {n.guid}
    {
      if scope.Rank() >= Graph.Rank() {
        dirtyShaders := dirtyShaders + {n.guid};
      } else if scope == Node {
        dirtyPreviews := dirtyPreviews + {n.guid};
      }
      if n.requiresTime {
        timeDependentPreviews := timeDependentPreviews + {n.guid};
      } else {
        timeDependentPreviews := timeDependentPreviews - {n.guid};
      }
    }

    /**
     * Applies a graph diff: removes the records of removed nodes, adds
     * records for added nodes, and dirties the shader of the input end of
     * every removed or added edge.
     */
    method HandleGraphChanges(removedNodes: seq<MaterialNode>, addedNodes: seq<MaterialNode>, removedEdges: seq<Edge>, addedEdges: seq<Edge>)
      requires Valid()
      modifies this`previews, this`dirtyShaders, this`timeDependentPreviews, this`dirtyPreviews
      modifies this`nextResource, this`live, this`subscriptions
      ensures Valid()
      ensures Tracked() == Tracking.GraphChanged(old(Tracked()), removedNodes, addedNodes, removedEdges, addedEdges)
      ensures forall k :: k in old(previews) && k !in Tracking.Guids(removedNodes) + Tracking.Guids(addedNodes) ==>
        k in previews && previews[k] == old(previews[k])
      ensures forall k :: k in Tracking.Guids(addedNodes) ==>
        k in previews && fresh(previews[k]) && Unrendered(previews[k], old(nextResource), nextResource)
      ensures nextResource == old(nextResource) + |addedNodes|
      ensures forall h: nat :: h in live <==> h in old(live) || old(nextResource) <= h < nextResource
      ensures subscriptions == old(subscriptions) + DetachAll(removedNodes) +
        AttachAll(old(previews).Keys - Tracking.Guids(removedNodes), addedNodes)
    {
      RemovePreviews(removedNodes);
      AddPreviews(addedNodes);
      MarkInputsDirty(removedEdges);
      MarkInputsDirty(addedEdges);
    }

    /** RemovePreview for each node, first to last. */
    method RemovePreviews(nodes: seq<MaterialNode>)
      requires Valid()
      modifies this`previews, this`dirtyShaders, this`timeDependentPreviews, this`dirtyPreviews, this`subscriptions
      ensures Valid()
      ensures Tracked() == Tracking.RemoveAll(old(Tracked()), nodes)
      ensures previews == old(previews) - Tracking.Guids(nodes)
      ensures subscriptions == old(subscriptions) + DetachAll(nodes)
    {
      var i := 0;
      while i < |nodes|
        invariant Valid() && 0 <= i <= |nodes|
        invariant Tracked() == Tracking.RemoveAll(old(Tracked()), nodes[..i])
        invariant previews == old(previews) - Tracking.Guids(nodes[..i])
        invariant subscriptions == old(subscriptions) + DetachAll(nodes[..i])
      {
        RemovePreview(nodes[i]);
        assert nodes[..i + 1][..i] == nodes[..i];
        Tracking.GuidsNext(nodes, i);
        i := i + 1;
      }
      assert nodes[..i] == nodes;
    }

    /**
     * One turn of AddPreviews: AddPreview for `n`, where the records of the
     * ids in `added` were created since handle `lo`.
     */
    method AddListedNode(n: MaterialNode, ghost lo: nat, ghost added: set<NodeId>)
      requires Valid() && lo <= nextResource
      requires forall k :: k in added ==> k in previews && Unrendered(previews[k], lo, nextResource)
      modifies this`previews, this`dirtyShaders, this`timeDependentPreviews, this`dirtyPreviews
      modifies this`nextResource, this`live, this`subscriptions
      ensures Valid()
      ensures Tracked() == Tracking.AfterAdd(old(Tracked()), n)
      ensures previews.Keys == old(previews.Keys) + {n.guid} && fresh(previews[n.guid])
      ensures previews[n.guid].State() == NewRecord(old(nextResource))
      ensures forall k :: k in old(previews) && k != n.guid ==> previews[k] == old(previews[k])
      ensures forall k :: k in added + {n.guid} ==> Unrendered(previews[k], lo, nextResource)
      ensures nextResource == old(nextResource) + 1 && live == old(live) + {old(nextResource)}
      ensures subscriptions == old(subscriptions) + (if n.guid in old(previews) then [Detach(n.guid)] else []) + [Attach(n.guid)]
    {
      ghost var before := previews;
      ghost var record := AddPreview(n);
      forall k | k in added + {n.guid} ensures Unrendered(previews[k], lo, nextResource) {
        if k != n.guid {
          assert previews[k] == before[k];
        }
      }
    }

    /**
     * AddListedNode for `nodes[i]`, stated in terms of the nodes before it:
     * their records exist besides those of `present`, were created since
     * handle `lo`, and their hooks were logged since `base`.
     */
    method AddListedStep(nodes: seq<MaterialNode>, i: nat, ghost lo: nat, ghost present: set<NodeId>, ghost base: seq<Hook>)
      requires Valid() && i < |nodes| && lo <= nextResource
      requires previews.Keys == present + Tracking.Guids(nodes[..i])
      requires forall k :: k in Tracking.Guids(nodes[..i]) ==> Unrendered(previews[k], lo, nextResource)
      requires subscriptions == base + AttachAll(present, nodes[..i])
      modifies this`previews, this`dirtyShaders, this`timeDependentPreviews, this`dirtyPreviews
      modifies this`nextResource, this`live, this`subscriptions
      ensures Valid()
      ensures Tracked() == Tracking.AfterAdd(old(Tracked()), nodes[i])
      ensures previews.Keys == present + Tracking.Guids(nodes[..i + 1]) && fresh(previews[nodes[i].guid])
      ensures forall k :: k in old(previews) && k != nodes[i].guid ==> previews[k] == old(previews[k])
      ensures forall k :: k in Tracking.Guids(nodes[..i + 1]) ==> Unrendered(previews[k], lo, nextResource)
      ensures nextResource == old(nextResource) + 1 && live == old(live) + {old(nextResource)}
      ensures subscriptions == base + AttachAll(present, nodes[..i + 1])
    {
      ghost var log := subscriptions;
      Tracking.GuidsNext(nodes, i);
      AddListedNode(nodes[i], lo, Tracking.Guids(nodes[..i]));
      AttachOneMore(base, present, nodes, i, old(previews).Keys, log);
    }

    /** AddPreview for each node, first to last. */
    method AddPreviews(nodes: seq<MaterialNode>)
      requires Valid()
      modifies this`previews, this`dirtyShaders, this`timeDependentPreviews, this`dirtyPreviews
      modifies this`nextResource, this`live, this`subscriptions
      ensures Valid()
      ensures Tracked() == Tracking.AddAll(old(Tracked()), nodes)
      ensures forall k :: k in old(previews) && k !in Tracking.Guids(nodes) ==> k in previews && previews[k] == old(previews[k])
      ensures forall k :: k in Tracking.Guids(nodes) ==>
        k in previews && fresh(previews[k]) && Unrendered(previews[k], old(nextResource), nextResource)
      ensures nextResource == old(nextResource) + |nodes|
      ensures forall h: nat :: h in live <==> h in old(live) || old(nextResource) <= h < nextResource
      ensures subscriptions == old(subscriptions) + AttachAll(old(previews).Keys, nodes)
    {
      var i := 0;
      while i < |nodes|
        invariant Valid() && 0 <= i <= |nodes|
        invariant Tracked() == Tracking.AddAll(old(Tracked()), nodes[..i])
        invariant previews.Keys == old(previews).Keys + Tracking.Guids(nodes[..i])
        invariant forall k :: k in old(previews) && k !in Tracking.Guids(nodes[..i]) ==> previews[k] == old(previews[k])
        invariant forall k :: k in Tracking.Guids(nodes[..i]) ==>
          fresh(previews[k]) && Unrendered(previews[k], old(nextResource), nextResource)
        invariant nextResource == old(nextResource) + i
        invariant HandedOut(live, old(live), old(nextResource), nextResource)
        invariant subscriptions == old(subscriptions) + AttachAll(old(previews).Keys, nodes[..i])
      {
        ghost var before, spent, next := previews, live, nextResource;
        AddListedStep(nodes, i, old(nextResource), old(previews).Keys, old(subscriptions));
        Tracking.AddAllNext(old(Tracked()), nodes, i);
        Tracking.GuidsNext(nodes, i);
        HandedOutOneMore(spent, old(live), old(nextResource), next);
        forall k | k in Tracking.Guids(nodes[..i]) && k != nodes[i].guid ensures fresh(previews[k]) {
          assert previews[k] == before[k];
        }
        i := i + 1;
      }
      assert nodes[..i] == nodes;
    }

    /** Marks the shader of the input end of each edge dirty. */
    method MarkInputsDirty(edges: seq<Edge>)
      modifies this`dirtyShaders
      ensures Tracked() == Tracking.MarkInputs(old(Tracked()), edges)
    {
      var i := 0;
      while i < |edges|
        invariant 0 <= i <= |edges|
        invariant Tracked() == Tracking.MarkInputs(old(Tracked()), edges[..i])
      {
        dirtyShaders := dirtyShaders + {edges[i].input};
        assert Tracking.Inputs(edges[..i + 1]) == Tracking.Inputs(edges[..i]) + {edges[i].input};
        i := i + 1;
      }
      assert edges[..i] == edges;
    }

    /** Destroys the unmanaged resource `h`. */
    method DestroyResource(h: nat)
      requires Consistent()
      modifies this`live
      ensures Consistent()
      ensures live == old(live) - {h}
    {
      live := live - {h};
    }

    /**
     * Brings the record of node `id` in line with the node's current preview
     * source; nothing happens when the graph no longer holds the node or the
     * node has no record.
     */
    method UpdateShader(id: NodeId)
      requires Consistent()
      modifies this`nextResource, this`live, previews.Values
      ensures Consistent()
      ensures forall k :: k in previews ==>
        ShaderStep(graph, compileErrors, k, {id}, old(previews[k].State()), previews[k].State(), old(nextResource))
      ensures if id in graph.nodes && id in previews
              then live == SwapShader(old(live), old(previews[id].shader), previews[id].shader)
              else live == old(live)
      ensures nextResource >= old(nextResource)
    {
      if id !in graph.nodes || id !in previews {
        return;
      }
      CompileShader(graph.nodes[id], previews[id]);
    }

    /**
     * The body of UpdateShader once the node and its record are found: store
     * the node's preview source and mode; drop the shader when there is no
     * source; rebuild a broken shader from scratch; update a healthy one in place.
     */
    method CompileShader(n: MaterialNode, rec: PreviewData)
      requires Consistent()
      modifies this`nextResource, this`live, rec
      ensures Consistent()
      ensures ShaderUpdated(n, compileErrors, old(rec.State()), rec.State(), old(nextResource))
      ensures live == SwapShader(old(live), old(rec.shader), rec.shader)
      ensures nextResource >= old(nextResource)
    {
      if HasNoPreview(n) {
        rec.shaderString := None;
      } else {
        rec.shaderString := n.previewShader;
        rec.previewMode := n.previewMode;
      }
      if IsNullOrEmpty(rec.shaderString) {
        if rec.shader.Some? {
          DestroyResource(rec.shader.value.handle);
        }
        rec.shader := None;
        return;
      }
      if rec.shader.Some? && rec.shader.value.hasError {
        DestroyResource(rec.shader.value.handle);
        rec.shader := None;
      }
      var source := rec.shaderString.value;
      if rec.shader.None? {
        var h := Allocate();
        rec.shader := Some(Shader(h, source, source in compileErrors));
      } else {
        rec.shader := Some(rec.shader.value.(source := source, hasError := source in compileErrors));
      }
    }

    /** PropagateNodeSet over the manager's graph: the closure of `s` downstream (forward) or upstream. */
    method Propagate(s: set<NodeId>, forward: bool) returns (r: set<NodeId>)
      ensures r == Closure(graph, s, forward)
    {
      ghost var pushed;
      r, pushed := PropagateNodeSet(graph, s, forward);
    }

    /** UpdateShader for each node of `ids`, in any order. */
    method UpdateShaders(ids: set<NodeId>)
      requires Consistent()
      modifies this`nextResource, this`live, previews.Values
      ensures Consistent()
      ensures forall k :: k in previews ==>
        ShaderStep(graph, compileErrors, k, ids, old(previews[k].State()), previews[k].State(), old(nextResource))
      ensures nextResource >= old(nextResource)
      ensures forall h :: h in live ==> h in old(live) || old(nextResource) <= h
    {
      var rest := ids;
      while rest != {}
        invariant Consistent() && rest <= ids
        invariant nextResource >= old(nextResource)
        invariant forall k :: k in previews ==>
          ShaderStep(graph, compileErrors, k, ids - rest, old(previews[k].State()), previews[k].State(), old(nextResource))
        invariant forall h :: h in live ==> h in old(live) || old(nextResource) <= h
        decreases rest
      {
        var id :| id in rest;
        UpdateShader(id);
        rest := rest - {id};
      }
    }

    /**
     * The first phase of a tick: when some shader is dirty, grow the dirty
     * shaders downstream, recompile them all, and pass them on as dirty
     * previews; the shader-dirty set ends empty either way.
     */
    method RecompileShaders() returns (compiled: set<NodeId>)
      requires Consistent()
      modifies this`dirtyShaders, this`dirtyPreviews, this`nextResource, this`live, previews.Values
      ensures Consistent()
      ensures compiled == Closure(graph, old(dirtyShaders), true)
      ensures dirtyShaders == {} && dirtyPreviews == old(dirtyPreviews) + compiled
      ensures forall k :: k in previews ==>
        ShaderStep(graph, compileErrors, k, compiled, old(previews[k].State()), previews[k].State(), old(nextResource))
      ensures nextResource >= old(nextResource)
      ensures forall h :: h in live ==> h in old(live) || old(nextResource) <= h
    {
      if dirtyShaders == {} {
        ClosureOfNothing(graph, true);
        return {};
      }
      compiled := Propagate(dirtyShaders, true);
      UpdateShaders(compiled);
      dirtyPreviews := dirtyPreviews + compiled;
      dirtyShaders := {};
    }

    /** Each record in `list` is the record filed under its node. */
    ghost predicate Filed(list: seq<PreviewData>)
      reads this`previews
    {
      forall p :: p in list ==> p.node in previews && previews[p.node] == p
    }

    /** The nodes of `ids` whose record has a healthy shader and preview mode `mode`: the ones a tick renders in that mode. */
    ghost function Drawable(ids: set<NodeId>, mode: PreviewMode): set<NodeId>
      reads this`previews, previews.Values`shader, previews.Values`previewMode
    {
      set k | k in ids && k in previews && Healthy(previews[k].shader) && previews[k].previewMode == mode
    }

    /**
     * Sorts the records of `ids` for drawing: a record without a shader
     * shows nothing, one whose shader failed shows the error texture, and a
     * healthy one joins the render list of its preview mode.
     */
    method ClassifyPreviews(ids: set<NodeId>)
      requires Consistent() && renderList2D == [] && renderList3D == []
      modifies this`renderList2D, this`renderList3D, previews.Values`texture
      ensures Filed(renderList2D) && Filed(renderList3D)
      ensures Listed(renderList2D) == Drawable(ids, Preview2D) && Listed(renderList3D) == Drawable(ids, Preview3D)
      ensures forall k :: k in previews ==>
        previews[k].texture == if k in ids && !Healthy(previews[k].shader) then ImageFor(previews[k].shader, previews[k].renderTexture) else old(previews[k].texture)
    {
      var rest := ids;
      ghost var done: set<NodeId> := {};
      while rest != {}
        invariant rest !! done && rest + done == ids
        invariant Filed(renderList2D) && Filed(renderList3D)
        invariant Listed(renderList2D) == Drawable(done, Preview2D) && Listed(renderList3D) == Drawable(done, Preview3D)
        invariant forall k :: k in previews ==>
          previews[k].texture == if k in done && !Healthy(previews[k].shader) then ImageFor(previews[k].shader, previews[k].renderTexture) else old(previews[k].texture)
        decreases rest
      {
        var id :| id in rest;
        ClassifyPreview(id);
        DrawableUnion(done, {id}, Preview2D);
        DrawableUnion(done, {id}, Preview3D);
        rest := rest - {id};
        done := done + {id};
      }
    }

    /** Drawable distributes over a union of ids. */
    lemma DrawableUnion(a: set<NodeId>, b: set<NodeId>, mode: PreviewMode)
      ensures Drawable(a + b, mode) == Drawable(a, mode) + Drawable(b, mode)
    {
    }

    /** The step of ClassifyPreviews for node `id`. */
    method ClassifyPreview(id: NodeId)
      requires Consistent() && Filed(renderList2D) && Filed(renderList3D)
      modifies this`renderList2D, this`renderList3D, previews.Values`texture
      ensures Filed(renderList2D) && Filed(renderList3D)
      ensures Listed(renderList2D) == old(Listed(renderList2D)) + Drawable({id}, Preview2D)
      ensures Listed(renderList3D) == old(Listed(renderList3D)) + Drawable({id}, Preview3D)
      ensures forall k :: k in previews ==>
        && previews[k].texture == (if k == id && !Healthy(previews[k].shader) then ImageFor(previews[k].shader, previews[k].renderTexture) else old(previews[k].texture))
        && previews[k].shader == old(previews[k].shader) && previews[k].previewMode == old(previews[k].previewMode)
    {
      if id in previews {
        var rec := previews[id];
        if rec.shader.None? {
          rec.texture := None;
        } else if rec.shader.value.hasError {
          rec.texture := Some(ErrorTexture);
        } else if rec.previewMode == Preview2D {
          ListedAppend(renderList2D, rec);
          renderList2D := renderList2D + [rec];
        } else {
          ListedAppend(renderList3D, rec);
          renderList3D := renderList3D + [rec];
        }
      }
    }

    /** Renders each record of `list` into its render target and shows that target. */
    method RenderList(list: seq<PreviewData>)
      requires Consistent() && Filed(list)
      modifies previews.Values`texture
      ensures forall k :: k in previews ==>
        previews[k].texture == if k in Listed(list) then previews[k].renderTexture else old(previews[k].texture)
    {
      for i := 0 to |list|
        invariant forall k :: k in previews ==>
          previews[k].texture == if k in Listed(list[..i]) then previews[k].renderTexture else old(previews[k].texture)
      {
        assert list[i] in list && previews[list[i].node] == list[i];
        list[i].texture := list[i].renderTexture;
        ListedAppend(list[..i], list[i]);
        assert list[..i + 1] == list[..i] + [list[i]];
      }
      assert list[..|list|] == list;
    }

    /**
     * The drawing phase of a tick: classify the records of `ids`, render the
     * 2D list, then the 3D list, and empty both lists. Every record of `ids`
     * ends up showing the image its shader calls for.
     */
    method DrawPreviews(ids: set<NodeId>) returns (drawn2D: set<NodeId>, drawn3D: set<NodeId>)
      requires Valid()
      modifies this`renderList2D, this`renderList3D, previews.Values`texture
      ensures Valid()
      ensures forall k :: k in previews ==>
        previews[k].texture == if k in ids then ImageFor(previews[k].shader, previews[k].renderTexture) else old(previews[k].texture)
      ensures drawn2D == Drawable(ids, Preview2D) && drawn3D == Drawable(ids, Preview3D) && drawn2D !! drawn3D
    {
      ClassifyPreviews(ids);
      drawn2D, drawn3D := Listed(renderList2D), Listed(renderList3D);
      RenderLists();
    }

    /** Renders the 2D list, then the 3D list, and empties both. */
    method RenderLists()
      requires Consistent() && Filed(renderList2D) && Filed(renderList3D)
      modifies this`renderList2D, this`renderList3D, previews.Values`texture
      ensures renderList2D == [] && renderList3D == []
      ensures forall k :: k in previews ==>
        && previews[k].texture == (if k in old(Listed(renderList2D) + Listed(renderList3D)) then previews[k].renderTexture else old(previews[k].texture))
        && previews[k].shader == old(previews[k].shader) && previews[k].previewMode == old(previews[k].previewMode)
    {
      RenderList(renderList2D);
      RenderList(renderList3D);
      renderList2D := [];
      renderList3D := [];
    }

    /** The nodes of `ids` whose record has a listener waiting for its image; each of them is called once. */
    method NotifyPreviewChanged(ids: set<NodeId>) returns (notified: set<NodeId>)
      ensures forall k :: k in notified <==> k in ids && k in previews && previews[k].onPreviewChanged
    {
      notified := {};
      var rest := ids;
      while rest != {}
        invariant rest <= ids
        invariant forall k :: k in notified <==> k in ids - rest && k in previews && previews[k].onPreviewChanged
        decreases rest
      {
        var id :| id in rest;
        if id in previews && previews[id].onPreviewChanged {
          notified := notified + {id};
        }
        rest := rest - {id};
      }
    }

    /**
     * One editor update. Unless the rate guard skips it: recompile the dirty
     * shaders and everything downstream of them; process every dirty,
     * recompiled or time-dependent preview and everything downstream of
     * those; gather the upstream nodes that supply their properties; draw;
     * notify the listeners of processed records; and leave nothing dirty.
     */
    method RenderPreviews(now: int) returns (report: TickReport)
      requires Valid()
      modifies this`lastUpdate, this`dirtyShaders, this`dirtyPreviews, this`propertyNodeGuids
      modifies this`renderList2D, this`renderList3D, this`nextResource, this`live, previews.Values
      ensures Valid()
      ensures report.Skipped? <==> !TickRuns(previewRate, old(lastUpdate), now)
      ensures report.Skipped? ==>
        && lastUpdate == old(lastUpdate) && Tracked() == old(Tracked())
        && propertyNodeGuids == old(propertyNodeGuids)
        && nextResource == old(nextResource) && live == old(live)
        && forall k :: k in previews ==> previews[k].State() == old(previews[k].State())
      ensures report.Ran? ==>
        && lastUpdate == Some(now)
        && report.compiled == Closure(graph, old(dirtyShaders), true)
        && report.processed == Closure(graph, old(dirtyPreviews) + report.compiled + timeDependentPreviews, true)
        && report.propertySources == propertyNodeGuids == Closure(graph, report.processed, false)
        && dirtyShaders == {} && dirtyPreviews == {}
        && report.drawn2D == Drawable(report.processed, Preview2D) && report.drawn3D == Drawable(report.processed, Preview3D)
        && (forall k :: k in report.notified <==> k in report.processed && k in previews && previews[k].onPreviewChanged)
        && (forall k :: k in previews ==>
              Ticked(graph, compileErrors, k, report.compiled, report.processed, old(previews[k].State()), previews[k].State(), old(nextResource)))
        && (forall h :: h in live ==> h in old(live) || old(nextResource) <= h)
    {
      if !TickRuns(previewRate, lastUpdate, now) {
        return Skipped;
      }
      lastUpdate := Some(now);
      report := Tick();
    }

    /** The work of a tick that the rate guard lets run. */
    method Tick() returns (report: TickReport)
      requires Valid()
      modifies this`dirtyShaders, this`dirtyPreviews, this`propertyNodeGuids
      modifies this`renderList2D, this`renderList3D, this`nextResource, this`live, previews.Values
      ensures Valid()
      ensures report.Ran?
      ensures report.compiled == Closure(graph, old(dirtyShaders), true)
      ensures report.processed == Closure(graph, old(dirtyPreviews) + report.compiled + timeDependentPreviews, true)
      ensures report.propertySources == propertyNodeGuids == Closure(graph, report.processed, false)
      ensures dirtyShaders == {} && dirtyPreviews == {}
      ensures report.drawn2D == Drawable(report.processed, Preview2D) && report.drawn3D == Drawable(report.processed, Preview3D)
      ensures forall k :: k in report.notified <==> k in report.processed && k in previews && previews[k].onPreviewChanged
      ensures forall k :: k in previews ==>
        Ticked(graph, compileErrors, k, report.compiled, report.processed, old(previews[k].State()), previews[k].State(), old(nextResource))
      ensures forall h :: h in live ==> h in old(live) || old(nextResource) <= h
    {
      var compiled := PrepareTick();
      label compiledShaders:
      report := PresentTick(compiled);
      forall k | k in previews
        ensures Ticked(graph, compileErrors, k, compiled, report.processed, old(previews[k].State()), previews[k].State(), old(nextResource))
      {
        TickedRecord(graph, compileErrors, k, compiled, report.processed,
          old(previews[k].State()), old@compiledShaders(previews[k].State()), previews[k].State(), old(nextResource));
      }
    }

    /**
     * The first half of a tick that runs: recompile, then grow the dirty
     * previews (with the recompiled and the time-dependent ones) downstream,
     * and gather their property sources upstream.
     */
    method PrepareTick() returns (compiled: set<NodeId>)
      requires Valid()
      modifies this`dirtyShaders, this`dirtyPreviews, this`propertyNodeGuids, this`nextResource, this`live, previews.Values
      ensures Valid()
      ensures compiled == Closure(graph, old(dirtyShaders), true)
      ensures dirtyShaders == {}
      ensures dirtyPreviews == Closure(graph, old(dirtyPreviews) + compiled + timeDependentPreviews, true)
      ensures propertyNodeGuids == Closure(graph, dirtyPreviews, false)
      ensures forall k :: k in previews ==>
        ShaderStep(graph, compileErrors, k, compiled, old(previews[k].State()), previews[k].State(), old(nextResource))
      ensures forall h :: h in live ==> h in old(live) || old(nextResource) <= h
    {
      compiled := RecompileShaders();
      dirtyPreviews := Propagate(dirtyPreviews + timeDependentPreviews, true);
      propertyNodeGuids := Propagate(dirtyPreviews, false);
    }

    /**
     * The second half of a tick that runs: draw the processed records, notify
     * their listeners, clear the dirty previews and report.
     */
    method PresentTick(compiled: set<NodeId>) returns (report: TickReport)
      requires Valid()
      modifies this`dirtyPreviews, this`renderList2D, this`renderList3D, previews.Values`texture
      ensures Valid()
      ensures report.Ran? && report.compiled == compiled && report.processed == old(dirtyPreviews)
      ensures report.propertySources == propertyNodeGuids && dirtyPreviews == {}
      ensures forall k :: k in previews ==>
        previews[k].texture == if k in report.processed then ImageFor(previews[k].shader, previews[k].renderTexture) else old(previews[k].texture)
      ensures report.drawn2D == Drawable(report.processed, Preview2D) && report.drawn3D == Drawable(report.processed, Preview3D)
      ensures forall k :: k in report.notified <==> k in report.processed && k in previews && previews[k].onPreviewChanged
    {
      var drawn2D, drawn3D := DrawPreviews(dirtyPreviews);
      var notified := NotifyPreviewChanged(dirtyPreviews);
      report := Ran(compiled, dirtyPreviews, propertyNodeGuids, drawn2D, drawn3D, notified);
      dirtyPreviews := {};
    }

    /**
     * When node `id` has a record, forgets it and destroys the resources of
     * `rec`: its shader and its render target are destroyed, the handler is
     * detached when the graph still holds the node, the id leaves every dirty
     * set, and the record is emptied. Otherwise nothing happens.
     */
    method DestroyPreview(id: NodeId, rec: PreviewData)
      requires Valid()
      modifies this`previews, this`dirtyPreviews, this`dirtyShaders, this`timeDependentPreviews, this`live, this`subscriptions
      modifies rec`shader, rec`renderTexture, rec`texture, rec`onPreviewChanged
      ensures Valid()
      ensures id !in old(previews) ==>
        && previews == old(previews) && Tracked() == old(Tracked()) && live == old(live)
        && subscriptions == old(subscriptions) && rec.State() == old(rec.State())
      ensures id in old(previews) ==>
        && previews == old(previews) - {id}
        && Tracked() == Tracking.AfterRemove(old(Tracked()), id)
        && live == old(live) - Resources(old(rec.shader), old(rec.renderTexture))
        && subscriptions == old(subscriptions) + (if id in graph.nodes then [Detach(id)] else [])
        && rec.State() == Destroyed(old(rec.State()))
    {
      if id !in previews {
        return;
      }
      Unregister(id);
      FreeRecord(rec);
    }

    /**
     * One turn of ReleaseUnmanagedResources: DestroyPreview on the record
     * `entries` files under `id`, which the registry still holds with the
     * resources `records` snapshotted for it, when the records of `gone` are
     * emptied and their handles destroyed since `all` was live.
     */
    method DestroyRegistered(id: NodeId, rec: PreviewData, ghost entries: map<NodeId, PreviewData>, ghost records: map<NodeId, RecordState>,
                             ghost gone: set<NodeId>, ghost all: set<nat>)
      requires Valid() && id in previews && id in entries && previews[id] == rec && entries[id] == rec && id in records
      requires rec.shader == records[id].shader && rec.renderTexture == records[id].renderTexture
      requires forall k :: k in gone ==> k in entries && k !in previews && Emptied(entries[k])
      requires live == all - Owned(records, gone)
      modifies this`previews, this`dirtyPreviews, this`dirtyShaders, this`timeDependentPreviews, this`live, this`subscriptions
      modifies rec`shader, rec`renderTexture, rec`texture, rec`onPreviewChanged
      ensures Valid() && previews == old(previews) - {id} && Tracked() == Tracking.AfterRemove(old(Tracked()), id)
      ensures live == all - Owned(records, gone + {id})
      ensures forall k :: k in gone + {id} ==> Emptied(entries[k])
      ensures forall k :: k in previews ==>
        previews[k].shader == old(previews[k].shader) && previews[k].renderTexture == old(previews[k].renderTexture)
    {
      DestroyPreview(id, rec);
      ReleaseOneMore(all, old(live), records, gone, id);
    }

    /** The bookkeeping half of DestroyPreview: forget the record, detach from the node if the graph still holds it, clear the dirty marks. */
    method Unregister(id: NodeId)
      requires Valid()
      modifies this`previews, this`dirtyPreviews, this`dirtyShaders, this`timeDependentPreviews, this`subscriptions
      ensures Valid()
      ensures previews == old(previews) - {id}
      ensures Tracked() == Tracking.AfterRemove(old(Tracked()), id)
      ensures subscriptions == old(subscriptions) + (if id in graph.nodes then [Detach(id)] else [])
    {
      previews := previews - {id};
      if id in graph.nodes {
        subscriptions := subscriptions + [Detach(id)];
      }
      dirtyPreviews := dirtyPreviews - {id};
      dirtyShaders := dirtyShaders - {id};
      timeDependentPreviews := timeDependentPreviews - {id};
    }

    /** The resource half of DestroyPreview: destroy the shader and the render target of `rec`, then empty it. */
    method FreeRecord(rec: PreviewData)
      requires Consistent()
      modifies this`live, rec`shader, rec`renderTexture, rec`texture, rec`onPreviewChanged
      ensures Consistent()
      ensures live == old(live) - Resources(old(rec.shader), old(rec.renderTexture))
      ensures rec.State() == Destroyed(old(rec.State()))
    {
      if rec.shader.Some? {
        DestroyResource(rec.shader.value.handle);
      }
      if rec.renderTexture.Some? && rec.renderTexture.value.RenderTarget? {
        DestroyResource(rec.renderTexture.value.handle);
      }
      rec.shader := None;
      rec.renderTexture := None;
      rec.texture := None;
      rec.onPreviewChanged := false;
    }

    /**
     * Destroys every record, taken from a snapshot of the registry: the
     * registry ends empty, no id of a record stays dirty or time-dependent,
     * every record is emptied, and none of their resources stays live.
     */
    method ReleaseUnmanagedResources()
      requires Valid()
      modifies this`previews, this`dirtyPreviews, this`dirtyShaders, this`timeDependentPreviews, this`live, this`subscriptions
      modifies previews.Values
      ensures Valid()
      ensures previews == map[]
      ensures Tracked() == Tracking.ForgetAll(old(Tracked()), old(previews).Keys)
      ensures forall k :: k in old(previews) ==> Emptied(old(previews)[k])
      ensures forall k, h :: k in old(previews) && h in Resources(old(previews[k].shader), old(previews[k].renderTexture)) ==> h !in live
      ensures live == old(live) - Owned(old(States()), old(previews).Keys)
    {
      var entries := previews;
      var rest := entries.Keys;
      ghost var gone: set<NodeId> := {};
      ghost var states := States();
      while rest != {}
        invariant Valid() && rest !! gone && rest + gone == old(previews).Keys
        invariant previews.Keys == rest
        invariant Tracked() == Tracking.ForgetAll(old(Tracked()), gone)
        invariant forall k :: k in rest ==> previews[k] == entries[k] && entries[k].shader == states[k].shader && entries[k].renderTexture == states[k].renderTexture
        invariant forall k :: k in gone ==> k in entries && Emptied(entries[k])
        invariant live == old(live) - Owned(states, gone)
        decreases rest
      {
        var id :| id in rest;
        DestroyRegistered(id, entries[id], entries, states, gone, old(live));
        Tracking.ForgetOneMore(old(Tracked()), gone, id);
        rest := rest - {id};
        gone := gone + {id};
      }
      forall k, h | k in old(previews) && h in Resources(old(previews[k].shader), old(previews[k].renderTexture))
        ensures h !in live
      {
        assert h in Owned(states, gone);
      }
    }
  }

  /**
   * Three throttled ticks over the chain graph: the first, at 1000 ms, runs;
   * one 50 ms later is skipped; one a full 100 ms after the first runs again.
   */
  method ThrottleScenario() returns (first: TickReport, second: TickReport, third: TickReport)
    ensures first.Ran? && second.Skipped? && third.Ran?
  {
    assert WellFormed(ChainGraph());
    var manager := new PreviewManager(ChainGraph(), {});
    manager.previewRate := Throttled;
    first := manager.RenderPreviews(1000);
    second, third := LaterTicks(manager);
  }

  /**
   * The second and third ticks of ThrottleScenario, after a throttled tick at
   * 1000 ms. It holds for any such manager, whatever its graph; kept apart
   * so that the scenario's own proof does not follow the constructor and
   * three ticks at once.
   */
  method LaterTicks(manager: PreviewManager) returns (second: TickReport, third: TickReport)
    requires manager.Valid() && manager.previewRate == Throttled && manager.lastUpdate == Some(1000)
    modifies manager`lastUpdate, manager`dirtyShaders, manager`dirtyPreviews, manager`propertyNodeGuids
    modifies manager`renderList2D, manager`renderList3D, manager`nextResource, manager`live, manager.previews.Values
    ensures second.Skipped? && third.Ran?
  {
    second := manager.RenderPreviews(1050);
    third := manager.RenderPreviews(1100);
  }
}
