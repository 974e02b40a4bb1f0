# Preview manager of the Shader Graph editor

This project models the `PreviewManager` of Unity's Shader Graph editor in
Dafny. The manager is a small incremental build system for node previews:

- It keeps one preview record per graph node.
- It keeps three sets of node ids:
  - *dirty shaders*: nodes whose preview shader must be regenerated;
  - *dirty previews*: nodes whose image must be redrawn;
  - *time-dependent previews*: nodes that must be redrawn on every tick.
- On every editor update (a *tick*) it works through those sets:
  1. Recompile the dirty shaders and everything downstream of them.
  2. Redraw the dirty, recompiled and time-dependent previews and everything downstream of them.
  3. Notify whoever listens for a changed image.
  4. Leave nothing dirty.

The project has four modules.

- **`Graphs`** (`graphs.dfy`)
  - The graph as the manager sees it: a map from Guid to node, and a sequence of producer→consumer edges. Slots are folded into edges.
  - `PropagateNodeSet`, the worklist closure with an explicit stack. It is proved to compute `Closure`: the ids reachable from the seeds through nodes that resolve in the graph.
  - `Closure` is characterised as the least closed superset of the seeds. It is also shown to be idempotent and monotone.
- **`Tracking`** (`tracking.dfy`)
  - The registry's bookkeeping as a value: the ids that have a record, plus the three dirty sets.
  - What `AddPreview`, `RemovePreview` and `HandleGraphChanges` do to that value, as functions.
  - Lemmas saying which ids each operation touches and which it leaves alone.
- **`Previews`** (`previews.dfy`)
  - The class `PreviewData`, with the record's mutable fields.
  - The class `PreviewManager`, whose methods change the registry, the dirty sets, the render lists, the records and the time of the last tick, in place.
  - Each method is proved against the `Tracking` functions, the `Closure` of `Graphs`, and predicates on one record (`ShaderUpdated`, `Ticked`, `Destroyed`).
  - Unmanaged resources (shaders and render targets) are numbered handles. The ghost set `live` holds every handle that was created and not yet destroyed.
  - Subscriptions to a node's modification event are a ghost log of attach and detach hooks. `Listeners` counts, per node, how many handlers that log leaves attached.
- **`Wrappers`**: `Option`.

The model is faithful to the code in these places:

- `RemovePreview` does not destroy the record's shader or render target. Only `DestroyPreview` does. The handles of a record removed by `RemovePreview`, or replaced by a duplicate `AddPreview`, therefore stay in `live`.
- `HandleGraphChanges` marks the consumer end of every removed edge shader-dirty, even when that node was just removed.
- The upstream property-source set is rebuilt from all processed previews on every tick.

## Model

| member | source | states |
|---|---|---|
| Graphs.PropagateNodeSet | MaterialGraphProject/Assets/UnityShaderEditor/Editor/Drawing/PreviewManager.cs:98-129 | the grown set is exactly the closure of the seeds in the chosen direction: it contains the seeds, every member that resolves has all its neighbours in it, every member is reachable from a seed, and each id is pushed onto the stack exactly once (so the loop ends) |
| Graphs.PushSeeds | MaterialGraphProject/Assets/UnityShaderEditor/Editor/Drawing/PreviewManager.cs:100-102 | the initial stack holds exactly the seeds, each once |
| Graphs.Expand | MaterialGraphProject/Assets/UnityShaderEditor/Editor/Drawing/PreviewManager.cs:111-127 | expanding a popped node adds every neighbour across its edges that is not yet in the set, only such neighbours, and pushes exactly the newly added ids, each once |
| Graphs.ExpandKeepsFrontier | MaterialGraphProject/Assets/UnityShaderEditor/Editor/Drawing/PreviewManager.cs:103-127 | one expansion keeps the worklist invariant (seeds ⊆ set, stacked ids in the set, all reachable, every expanded node closed, pushes distinct) and strictly grows the set when it adds something |
| Graphs.SkipKeepsFrontier | MaterialGraphProject/Assets/UnityShaderEditor/Editor/Drawing/PreviewManager.cs:105-108 | popping an id that no longer resolves in the graph keeps the worklist invariant |
| Graphs.FrontierDone | MaterialGraphProject/Assets/UnityShaderEditor/Editor/Drawing/PreviewManager.cs:103 | once the stack is empty the set is the closure of the seeds and is closed |
| Graphs.ClosureIsLeastClosedSuperset | MaterialGraphProject/Assets/UnityShaderEditor/Editor/Drawing/PreviewManager.cs:98-129 | the closure contains the seeds, is closed under the edges, and lies inside every closed superset of the seeds |
| Graphs.ClosureUnique | MaterialGraphProject/Assets/UnityShaderEditor/Editor/Drawing/PreviewManager.cs:98-129 | a closed superset of the seeds whose members are all reachable is the closure |
| Graphs.ClosureIdempotent | MaterialGraphProject/Assets/UnityShaderEditor/Editor/Drawing/PreviewManager.cs:98-129 | propagating an already propagated set adds nothing |
| Graphs.ClosedIsFixpoint | MaterialGraphProject/Assets/UnityShaderEditor/Editor/Drawing/PreviewManager.cs:119-121 | a set that is already closed is left as it is |
| Graphs.ClosureMonotone | MaterialGraphProject/Assets/UnityShaderEditor/Editor/Drawing/PreviewManager.cs:98-129 | more seeds reach at least as many ids |
| Graphs.ClosureAbsorbs | MaterialGraphProject/Assets/UnityShaderEditor/Editor/Drawing/PreviewManager.cs:163-188 | closing some seeds first and then closing them together with others gives the closure of all of them |
| Graphs.EdgeInClosures | MaterialGraphProject/Assets/UnityShaderEditor/Editor/Drawing/PreviewManager.cs:111-125 | an edge's consumer is downstream of its producer when the producer resolves, and the producer is upstream of the consumer when the consumer resolves |
| Graphs.ChainDownstream | MaterialGraphProject/Assets/UnityShaderEditor/Editor/Drawing/PreviewManager.cs:98-129 | on the chain A→B→C beside a lone node D, a change of A propagates to exactly A, B and C |
| Graphs.ChainUpstream | MaterialGraphProject/Assets/UnityShaderEditor/Editor/Drawing/PreviewManager.cs:194 | on the same chain, the property sources of C are exactly A, B and C |
| Tracking.RemoveAllEffect | MaterialGraphProject/Assets/UnityShaderEditor/Editor/Drawing/PreviewManager.cs:74-81 | after removing a list of nodes, none of their ids has a record or is in any of the three sets, and every other id is as before |
| Tracking.AddAllEffect | MaterialGraphProject/Assets/UnityShaderEditor/Editor/Drawing/PreviewManager.cs:55-72 | after adding a list of nodes, each of their ids has a record and is shader-dirty, and every other id is as before |
| Tracking.AddAllTimeDependent | MaterialGraphProject/Assets/UnityShaderEditor/Editor/Drawing/PreviewManager.cs:70-71 | when the last node added under a Guid requires time, that id is time-dependent |
| Tracking.ForgetOneMore | MaterialGraphProject/Assets/UnityShaderEditor/Editor/Drawing/PreviewManager.cs:404-405 | destroying the records one at a time forgets exactly the ids destroyed so far |
| Tracking.GraphChangedEffect | MaterialGraphProject/Assets/UnityShaderEditor/Editor/Drawing/PreviewManager.cs:134-147 | every added node has a record and is shader-dirty; a removed node not added back has no record, is neither preview-dirty nor time-dependent, and is shader-dirty exactly when it consumes a changed edge; every changed edge's consumer is shader-dirty; the last added node under a Guid that requires time leaves it time-dependent; every other id (a producer of a changed edge included) is untouched |
| Previews.ListenersAppend | MaterialGraphProject/Assets/UnityShaderEditor/Editor/Drawing/PreviewManager.cs:69-76 | attaching the handler to a node adds one listener to it, detaching takes one away but never goes below none, and other nodes are unaffected |
| Previews.AttachNew | MaterialGraphProject/Assets/UnityShaderEditor/Editor/Drawing/PreviewManager.cs:46-47 | attaching to one more node keeps every registered node listened to exactly once and no other node listened to |
| Previews.ReattachListens | MaterialGraphProject/Assets/UnityShaderEditor/Editor/Drawing/PreviewManager.cs:62-69 | re-adding a node (detach, then attach) keeps a listened node's count and gives an unlistened one a single listener |
| Previews.ClosureOfNothing | MaterialGraphProject/Assets/UnityShaderEditor/Editor/Drawing/PreviewManager.cs:163 | with no dirty shaders nothing is recompiled |
| Previews.TickSetsCover | MaterialGraphProject/Assets/UnityShaderEditor/Editor/Drawing/PreviewManager.cs:163-194 | the recompiled set holds every dirty shader; the processed set holds the recompiled, dirty and time-dependent previews and is closed downstream |
| Previews.TickProcessed | MaterialGraphProject/Assets/UnityShaderEditor/Editor/Drawing/PreviewManager.cs:163-188 | the processed set is the downstream closure of the three dirty sets together: propagating the dirty shaders first neither loses nor adds anything |
| Previews.TickedRecord | MaterialGraphProject/Assets/UnityShaderEditor/Editor/Drawing/PreviewManager.cs:163-317 | a record whose shader went through the recompilation and whose image was then redrawn (or left alone) has gone through the whole tick |
| Previews.PreviewData.constructor | MaterialGraphProject/Assets/UnityShaderEditor/Editor/Drawing/PreviewManager.cs:57-61 | a new record belongs to its node, holds a fresh render target, and has no shader, source, image or listener |
| Previews.PreviewManager.constructor | MaterialGraphProject/Assets/UnityShaderEditor/Editor/Drawing/PreviewManager.cs:31-48 | every node of the graph gets its own fresh record, holding a render target and no shader, source, image or listener; every node is shader-dirty, exactly the nodes requiring time are time-dependent, and nothing is preview-dirty; the live handles are exactly the range handed out, which holds every record's render target; each node is listened to exactly once |
| Previews.PreviewManager.AddGraphPreviews | MaterialGraphProject/Assets/UnityShaderEditor/Editor/Drawing/PreviewManager.cs:46-47 | the constructor's loop registers every node of the graph once: each gets a fresh record around a render target from the range handed out; the live handles grow by exactly that range; each node is left listened to exactly once |
| Previews.PreviewManager.AddGraphNode | MaterialGraphProject/Assets/UnityShaderEditor/Editor/Drawing/PreviewManager.cs:46-47 | one turn of the constructor's loop: a node without a record gets a fresh one around the next handle, which becomes live; every other record is kept; the node becomes shader-dirty, time-dependent when it requires time, and is attached once |
| Previews.PreviewManager.GetPreview | MaterialGraphProject/Assets/UnityShaderEditor/Editor/Drawing/PreviewManager.cs:50-53 | the lookup succeeds exactly when the node has a record, and then returns that record |
| Previews.PreviewManager.Allocate | MaterialGraphProject/Assets/UnityShaderEditor/Editor/Drawing/PreviewManager.cs:60 | a new resource gets a handle that was not live, and becomes live |
| Previews.PreviewManager.AddPreview | MaterialGraphProject/Assets/UnityShaderEditor/Editor/Drawing/PreviewManager.cs:55-72 | the bookkeeping changes as `Tracking.AfterAdd` says (an existing record first removed as by RemovePreview); a fresh record with a new render target replaces any old one; a duplicate is detached before the new attach |
| Previews.PreviewManager.Register | MaterialGraphProject/Assets/UnityShaderEditor/Editor/Drawing/PreviewManager.cs:67-71 | the record is filed under its node, which becomes shader-dirty, is attached to, and becomes time-dependent exactly when it requires time |
| Previews.PreviewManager.RemovePreview | MaterialGraphProject/Assets/UnityShaderEditor/Editor/Drawing/PreviewManager.cs:74-81 | the handler is detached, the record is forgotten and the id leaves all three sets, as `Tracking.AfterRemove` says; no resource is destroyed |
| Previews.PreviewManager.OnNodeModified | MaterialGraphProject/Assets/UnityShaderEditor/Editor/Drawing/PreviewManager.cs:83-94 | a graph-scope change dirties only the shader, a node-scope change only the image, no change neither; afterwards the node is time-dependent exactly when it requires time |
| Previews.PreviewManager.HandleGraphChanges | MaterialGraphProject/Assets/UnityShaderEditor/Editor/Drawing/PreviewManager.cs:134-147 | the bookkeeping changes as `Tracking.GraphChanged` says: removed nodes, then added nodes, then the consumers of removed and added edges (its effect is `Tracking.GraphChangedEffect`); records of untouched nodes are kept; each added node gets a fresh record around a new render target; the live handles grow by exactly one per added node; the hooks logged are the removed nodes' detaches followed by the added nodes' (re)attaches |
| Previews.PreviewManager.RemovePreviews | MaterialGraphProject/Assets/UnityShaderEditor/Editor/Drawing/PreviewManager.cs:136-137 | removing each node of the list in order has the effect of `Tracking.RemoveAll`: exactly their records are dropped and one detach per node is logged; no resource is destroyed |
| Previews.PreviewManager.AddPreviews | MaterialGraphProject/Assets/UnityShaderEditor/Editor/Drawing/PreviewManager.cs:139-140 | adding each node of the list in order has the effect of `Tracking.AddAll`; records of other nodes are kept; each added node's record is fresh, around a new render target, with no shader, source, image or listener; one handle per node becomes live and no other; a node that already had a record is detached before it is attached |
| Previews.PreviewManager.AddListedStep | MaterialGraphProject/Assets/UnityShaderEditor/Editor/Drawing/PreviewManager.cs:139-140 | one turn of AddPreviews, stated against the nodes before it: their records and the new one were created since the loop began, and the hooks logged are those `AttachAll` gives for one more node |
| Previews.PreviewManager.AddListedNode | MaterialGraphProject/Assets/UnityShaderEditor/Editor/Drawing/PreviewManager.cs:55-72 | AddPreview for one node: its fresh record is built around the next handle, and the records created since a given handle stay as they were created |
| Previews.AttachAllListens | MaterialGraphProject/Assets/UnityShaderEditor/Editor/Drawing/PreviewManager.cs:62-69 | after the hooks AddPreviews logs, every node it added is listened to |
| Previews.PreviewManager.MarkInputsDirty | MaterialGraphProject/Assets/UnityShaderEditor/Editor/Drawing/PreviewManager.cs:142-146 | the consumer of each edge becomes shader-dirty and nothing else changes |
| Previews.PreviewManager.DestroyResource | MaterialGraphProject/Assets/UnityShaderEditor/Editor/Drawing/PreviewManager.cs:347 | a destroyed resource is no longer live |
| Previews.PreviewManager.UpdateShader | MaterialGraphProject/Assets/UnityShaderEditor/Editor/Drawing/PreviewManager.cs:320-372 | nothing changes when the node or its record is missing; otherwise only that record changes, as `ShaderUpdated` says, and the live resources change as the shader swap says |
| Previews.PreviewManager.CompileShader | MaterialGraphProject/Assets/UnityShaderEditor/Editor/Drawing/PreviewManager.cs:329-368 | source and mode follow the node (none for a non-master node without a preview or at the vertex stage); no source drops the shader; a broken shader is destroyed and rebuilt under a new handle; a healthy one keeps its handle; the error flag is the compiler's verdict; nothing else in the record changes |
| Previews.PreviewManager.Propagate | MaterialGraphProject/Assets/UnityShaderEditor/Editor/Drawing/PreviewManager.cs:165 | propagation over the manager's graph yields the closure of the given set |
| Previews.PreviewManager.UpdateShaders | MaterialGraphProject/Assets/UnityShaderEditor/Editor/Drawing/PreviewManager.cs:171-176 | every record of a listed node that the graph holds is updated as `ShaderUpdated` says, every other record is untouched, and no live handle appears except a new one |
| Previews.PreviewManager.RecompileShaders | MaterialGraphProject/Assets/UnityShaderEditor/Editor/Drawing/PreviewManager.cs:163-185 | the recompiled set is the downstream closure of the dirty shaders; each of its records is updated; it joins the dirty previews; no shader stays dirty |
| Previews.PreviewManager.ClassifyPreviews | MaterialGraphProject/Assets/UnityShaderEditor/Editor/Drawing/PreviewManager.cs:227-247 | a listed record without a shader shows nothing and one with a broken shader shows the error texture; the 2D and 3D lists hold exactly the healthy records of that mode, each filed under its node |
| Previews.PreviewManager.DrawableUnion | MaterialGraphProject/Assets/UnityShaderEditor/Editor/Drawing/PreviewManager.cs:227-247 | classifying two batches of ids files the union of what each batch files |
| Previews.PreviewManager.ClassifyPreview | MaterialGraphProject/Assets/UnityShaderEditor/Editor/Drawing/PreviewManager.cs:229-246 | one record is skipped when missing, shown as nothing or as the error texture, or appended to the list of its mode; shaders and modes are untouched |
| Previews.PreviewManager.RenderList | MaterialGraphProject/Assets/UnityShaderEditor/Editor/Drawing/PreviewManager.cs:263-278 | every record of the list shows its render target afterwards and every other record keeps its image |
| Previews.PreviewManager.RenderLists | MaterialGraphProject/Assets/UnityShaderEditor/Editor/Drawing/PreviewManager.cs:263-302 | the records of both lists show their render targets, the others keep their images, and both lists end empty |
| Previews.PreviewManager.DrawPreviews | MaterialGraphProject/Assets/UnityShaderEditor/Editor/Drawing/PreviewManager.cs:227-302 | every processed record ends showing the image its shader calls for (none, the error texture or its render target); the 2D and 3D drawings are disjoint and hold the healthy records of that mode; the lists end empty |
| Previews.PreviewManager.NotifyPreviewChanged | MaterialGraphProject/Assets/UnityShaderEditor/Editor/Drawing/PreviewManager.cs:307-315 | exactly the processed nodes that have a record with a listener are notified |
| Previews.PreviewManager.RenderPreviews | MaterialGraphProject/Assets/UnityShaderEditor/Editor/Drawing/PreviewManager.cs:152-318 | a tick is skipped exactly when the rate is Off or it is throttled and under 100 ms have passed, and then nothing changes, the time of the last tick and the property sources included; a tick that runs records its time and does everything `Tick` states |
| Previews.PreviewManager.Tick | MaterialGraphProject/Assets/UnityShaderEditor/Editor/Drawing/PreviewManager.cs:163-317 | the recompiled set is the downstream closure of the dirty shaders; the processed set is the downstream closure of the dirty, recompiled and time-dependent previews; the property sources are the upstream closure of the processed set; each record goes through the tick as `Ticked` says; listeners of processed records are notified; nothing stays dirty and the time-dependent set is not touched |
| Previews.PreviewManager.PrepareTick | MaterialGraphProject/Assets/UnityShaderEditor/Editor/Drawing/PreviewManager.cs:163-194 | after recompiling, the dirty previews grow to the downstream closure of themselves, the recompiled and the time-dependent previews, and the property sources are their upstream closure |
| Previews.PreviewManager.PresentTick | MaterialGraphProject/Assets/UnityShaderEditor/Editor/Drawing/PreviewManager.cs:227-317 | the processed records are drawn and their listeners notified, and the dirty previews end empty |
| Previews.PreviewManager.DestroyPreview | MaterialGraphProject/Assets/UnityShaderEditor/Editor/Drawing/PreviewManager.cs:374-393 | nothing happens when the id has no record; otherwise the record is forgotten, the id leaves all three sets, the shader and render target are destroyed, the handler is detached when the graph still holds the node, and the record is emptied |
| Previews.PreviewManager.DestroyRegistered | MaterialGraphProject/Assets/UnityShaderEditor/Editor/Drawing/PreviewManager.cs:403-405 | one turn of the release loop: the filed record is forgotten with its id and emptied; the live handles lose exactly that record's snapshotted resources besides those already released; the records already released stay emptied and the other records' resources are as they were |
| Previews.PreviewManager.Unregister | MaterialGraphProject/Assets/UnityShaderEditor/Editor/Drawing/PreviewManager.cs:376-387 | the bookkeeping half of DestroyPreview: the record and the id's dirty marks are forgotten, and the handler is detached only from a node the graph still holds |
| Previews.PreviewManager.FreeRecord | MaterialGraphProject/Assets/UnityShaderEditor/Editor/Drawing/PreviewManager.cs:378-391 | the record's shader and render target are no longer live, and it is emptied |
| Previews.PreviewManager.ReleaseUnmanagedResources | MaterialGraphProject/Assets/UnityShaderEditor/Editor/Drawing/PreviewManager.cs:395-406 | the registry ends empty; every id of a record leaves the three sets; every record is emptied; the live handles are exactly the old ones minus every resource the records held |
| Previews.ThrottleScenario | MaterialGraphProject/Assets/UnityShaderEditor/Editor/Drawing/PreviewManager.cs:154-161 | on a throttled manager, a tick at 1000 ms runs, one at 1050 ms is skipped, and one at 1100 ms runs |
| Previews.LaterTicks | MaterialGraphProject/Assets/UnityShaderEditor/Editor/Drawing/PreviewManager.cs:158-161 | after a throttled tick at 1000 ms, a tick 50 ms later is skipped and one 100 ms later runs |

## Left out

- Rendering is left out because it consists of engine calls. This covers cameras, lights, `GL.Clear`, `Graphics.Blit` and `DrawMesh`, `camera.Render`, and the scriptable-render-pipeline toggle (lines 249-305). Rendering a record is modelled only as showing its render target. The record's `mesh` field is left out with it.
- The `MaterialPropertyBlock` fill (lines 197-225) is left out. Its values are engine and floating-point data. Only the set of property-source nodes it iterates over is modelled.
- The progress bar (lines 170-180), the debug logs and the dump of generated source to a file (lines 341-342, 370-371) are left out. They are UI and I/O.
- `Dispose`, the finalizer and `GC.SuppressFinalize` (lines 408-417) are left out. They are runtime-managed; their effect is `ReleaseUnmanagedResources`.
- The preview material, the scene resources and the error texture's pixels (lines 34-44, 397-402) are left out. The error texture is the constant `ErrorTexture`.
- Graph editing itself is not modelled. The manager's graph is a value set from outside, and `HandleGraphChanges` takes the graph's removed and added node and edge lists as parameters.
- Shader generation is not part of this model. `GetPreviewShader` and `FindEffectiveShaderStage` become attributes of each node, and the shader compiler becomes the set of sources it rejects.
- The `initialWavefront` parameter of `PropagateNodeSet` is not modelled, because no caller passes it. The stack `m_Wavefront` is a local of the method: it is cleared on entry and empty on exit.
- `DateTime.Now` becomes the integer parameter `now` in milliseconds. `m_LastUpdate` starting at `DateTime.MinValue` is modelled as `None`, which never throttles.
- `PreviewRate` is assumed to start as `Full`, because the enum's declaration is not part of this model.
- The exception `GetPreview` throws for a missing key is modelled as `None`.
- The `onPreviewChanged` delegate is a flag, and calling it is reported as the set of notified nodes.
- Previews.PreviewManager.constructor: does not state how many handles it hands out (one per node), nor that the records' render targets are distinct and cover that range. It states that the live handles are exactly the range it handed out and that every record's render target lies in it. Both would need a count, or a fact about every pair of records, in the loop invariant, and a count made the proof too costly for the solver.
- Previews.PreviewManager.AddGraphPreviews: does not state the number of handles handed out, nor that the new render targets are distinct, for the same reason.
- Previews.PreviewManager.RecompileShaders: bounds the live resources afterwards (no handle becomes live except a new one) rather than stating them exactly. Each record's own shader swap is stated exactly by `ShaderUpdated`. The exact live set after a batch would be the old one, minus the destroyed shaders of the recompiled records, plus the new handles. It is not stated because it rests on `UpdateShaders`, which only bounds it (see below).
- Previews.PreviewManager.PrepareTick: bounds the live resources in the same way, because it runs RecompileShaders.
- Previews.PreviewManager.Tick: bounds the live resources in the same way, because it runs RecompileShaders.
- Previews.PreviewManager.RenderPreviews: bounds the live resources after a tick (no handle becomes live except a new one) rather than stating them exactly.
- Previews.PreviewManager.UpdateShaders: bounds the live resources in the same way.
- Previews.PreviewManager.ReleaseUnmanagedResources: states that each record is emptied rather than each record's full final state. It does not state the hooks it logs.
- Tracking.AddAllTimeDependent: states one direction only. It says when an added id ends up time-dependent, not when it ends up outside that set.
