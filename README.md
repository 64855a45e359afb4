# Voxel chunk lifecycle

A model of `AVoxelChunk`, the terrain chunk of the Voxel plugin's level-of-detail
octree. One chunk is bound to one octree node at a time. It keeps six "neighbour
has higher resolution" flags for stitching seams between levels of detail. It runs
at most one asynchronous mesh task, and after the mesh is applied, at most one group
of foliage tasks. It applies their results on the control thread. It tears itself down
into the inactive pool when unloaded.

The model has five modules:

- `VoxelTypes` (`voxel_types.dfy`): the values. These are the octree node a chunk is
  bound to (id, depth, minimal corner), what the tree says about an adjacent node (its
  id, its depth, and the flags stored in the chunk bound to it), the world
  configuration, the polygonizer's arguments, foliage tasks, instance buffers and
  foliage components, and a signed 32-bit `int32`.
- `Transitions` (`transitions.dfy`): the level-of-detail rules as functions. These are
  the flag a chunk stores per direction, the answer `HasChunkHigherRes` gives, the
  neighbours a transition check queues for a remesh, and lemmas about them.
- `Foliage` (`foliage.dfy`): the tasks a foliage update starts and the components a
  foliage apply creates, with the non-zero seed fix-up, and lemmas about them.
- `VoxelChunks` (`voxel_chunk.dfy`): the class `VoxelChunk`. Its fields are the flags
  (a 6-element `array<bool>`), the mesh-task and polygonizer slots, the staged and
  shown mesh sections, the foliage tasks, the completion counter, the foliage
  components, and the binding. Every source operation is a method on it. The class
  `VoxelRender` stands for the render manager: the world configuration plus the
  sequence of requests the chunk sends it (transition checks, apply-mesh,
  foliage-update, apply-foliage, remesh of a neighbour, set-inactive).
- `ChunkScenarios` (`scenarios.dfy`): call sequences a render manager makes. They are
  checked against the method contracts alone.

Depth 0 is the finest level (the leaves), and a larger depth is coarser. So a
neighbour with a smaller depth has a higher resolution (`VoxelChunk.cpp` line 70, and
line 131 from the other side).

When a neighbour is absent, `Update` stores `false` for that direction (line 74). It
does not keep the old value. Only a chunk at depth 0 leaves its flags untouched, and
`HasChunkHigherRes` masks them there.

Not everything is reset by teardown. `Delete` and `DeleteTasks` do not reset the staged
`Section`, the six flags or `CompletedFoliageTaskCount`. The model keeps that
behaviour: a reused chunk starts with no tasks, an empty mesh and no foliage, but with
those three values left from its previous binding.

## Model

| member | source | states |
|---|---|---|
| `Transitions.UpdatedFlagsReportNeighbourDepths` | Plugins/Voxel/Source/Voxel/Private/VoxelRender/Private/VoxelChunk.cpp:61-77 | after the refresh, a chunk reports a higher-resolution neighbour in direction d iff its depth is non-zero and a neighbour exists there with a smaller depth |
| `Transitions.FinestChunkHasNoHigherResNeighbour` | Plugins/Voxel/Source/Voxel/Private/VoxelRender/Private/VoxelChunk.cpp:220-223 | a depth-0 chunk answers false for every direction, whatever its stored flags hold |
| `Transitions.TransitionFlags` | Plugins/Voxel/Source/Voxel/Private/VoxelRender/Private/VoxelChunk.cpp:62-77 | six flags; flag d is set iff a neighbour exists in direction d and has a smaller depth (an absent neighbour gives false) |
| `Transitions.HasHigherRes` | Plugins/Voxel/Source/Voxel/Private/VoxelRender/Private/VoxelChunk.cpp:222 | false at depth 0 whatever the flags hold; the stored flag for d at any other depth |
| `Transitions.IsStale` | Plugins/Voxel/Source/Voxel/Private/VoxelRender/Private/VoxelChunk.cpp:131-134 | a depth-0 neighbour is never stale; any other neighbour is stale iff its stored flag for the opposite direction differs from whether this chunk is finer than it |
| `Transitions.RemeshTargets` | Plugins/Voxel/Source/Voxel/Private/VoxelRender/Private/VoxelChunk.cpp:121-140 | at most six nodes are queued, and none when the world does not compute transitions |
| `Transitions.StaleNeighbours` | Plugins/Voxel/Source/Voxel/Private/VoxelRender/Private/VoxelChunk.cpp:123-139 | scanning the first n directions queues at most n remesh requests, one per direction at most |
| `Transitions.StaleNeighbourIsRemeshed` | Plugins/Voxel/Source/Voxel/Private/VoxelRender/Private/VoxelChunk.cpp:127-137 | a neighbour whose answer for the opposite direction disagrees with `neighbour.Depth > Depth` is queued for a remesh |
| `Transitions.RemeshedNodeIsStaleNeighbour` | Plugins/Voxel/Source/Voxel/Private/VoxelRender/Private/VoxelChunk.cpp:127-137 | every node queued for a remesh is an existing neighbour in some direction whose view is stale |
| `Transitions.RemeshTargetsExact` | Plugins/Voxel/Source/Voxel/Private/VoxelRender/Private/VoxelChunk.cpp:119-141 | a node is queued iff transitions are computed and some direction holds it as a neighbour with a stale view; with transitions off nothing is queued |
| `Transitions.RefreshedNeighbourIsNotStale` | Plugins/Voxel/Source/Voxel/Private/VoxelRender/Private/VoxelChunk.cpp:131-134 | after a neighbour refreshes its flags while seeing this chunk at its current depth in the opposite direction, the check no longer queues it; a depth-0 neighbour is never queued |
| `Transitions.StaleMeansRelationChanged` | Plugins/Voxel/Source/Voxel/Private/VoxelRender/Private/VoxelChunk.cpp:131-134 | a neighbour of non-zero depth is queued iff the depth relation it stored for this direction differs from the current one |
| `Foliage.FoliageSeed` | Plugins/Voxel/Source/Voxel/Private/VoxelRender/Private/VoxelChunk.cpp:280-284 | the seed is never 0: it equals the hash whenever the hash is non-zero, and is 1 when the hash is 0 |
| `Foliage.VarietyTasks` | Plugins/Voxel/Source/Voxel/Private/VoxelRender/Private/VoxelChunk.cpp:232-238 | one task per variety of a grass type, task v built from variety v and the type's index |
| `Foliage.PlanFoliage` | Plugins/Voxel/Source/Voxel/Private/VoxelRender/Private/VoxelChunk.cpp:227-240 | as many tasks as varieties over all grass types; each task runs over the current section, for a variety of the grass type whose index it carries |
| `Foliage.PlanFoliageOrdered` | Plugins/Voxel/Source/Voxel/Private/VoxelRender/Private/VoxelChunk.cpp:229-239 | tasks come in grass-type order |
| `Foliage.PlanFoliageAt` | Plugins/Voxel/Source/Voxel/Private/VoxelRender/Private/VoxelChunk.cpp:229-239 | variety v of grass type t has its task right after the tasks of all earlier types, at offset v |
| `Foliage.NewComponents` | Plugins/Voxel/Source/Voxel/Private/VoxelRender/Private/VoxelChunk.cpp:272-337 | no more components than tasks; every new component has a non-zero seed and a non-empty instance buffer |
| `Foliage.NewComponentFromTask` | Plugins/Voxel/Source/Voxel/Private/VoxelRender/Private/VoxelChunk.cpp:272-318 | every new component was made from some task with a non-empty buffer, with that task's variety and seed |
| `Foliage.TaskGetsComponent` | Plugins/Voxel/Source/Voxel/Private/VoxelRender/Private/VoxelChunk.cpp:272-318 | every task with a non-empty buffer gets its component |
| `Foliage.NewComponentsOneToOne` | Plugins/Voxel/Source/Voxel/Private/VoxelRender/Private/VoxelChunk.cpp:272-337 | when every task produced instances, component k is task k's, and there are exactly as many |
| `Foliage.ComponentFor` | Plugins/Voxel/Source/Voxel/Private/VoxelRender/Private/VoxelChunk.cpp:278-318 | the component carries the task's variety and the task's buffer, and a non-zero seed that equals the CRC of grass mesh and chunk name whenever that CRC is non-zero |
| `Foliage.NewComponentsAppend` | Plugins/Voxel/Source/Voxel/Private/VoxelRender/Private/VoxelChunk.cpp:272-337 | applying a batch of tasks yields the components of its first part followed by those of the rest, so each task contributes only its own component and order is kept, for any mix of empty and non-empty buffers |
| `Foliage.NewComponentsCount` | Plugins/Voxel/Source/Voxel/Private/VoxelRender/Private/VoxelChunk.cpp:272-337 | exactly one component per task with a non-empty buffer, for any mix of tasks |
| `Foliage.NewComponentsPositions` | Plugins/Voxel/Source/Voxel/Private/VoxelRender/Private/VoxelChunk.cpp:272-337 | for any mix of tasks, the component right after those of tasks 0 to k-1 is task k's whenever task k's buffer is non-empty |
| `VoxelChunks.RemeshRequests` | Plugins/Voxel/Source/Voxel/Private/VoxelRender/Private/VoxelChunk.cpp:136 | the queued remesh requests are asynchronous and name the stale neighbours in order |
| `VoxelChunks.VoxelRender.constructor` | Plugins/Voxel/Source/Voxel/Private/VoxelRender/Private/VoxelChunk.cpp:40 | the render manager a chunk takes from its node exposes the world configuration and starts with no requests; the chunk's calls into it (lines 54, 136, 148, 174, 188, 208, 260) are appended to its request log in order |
| `VoxelChunks.VoxelChunk.constructor` | Plugins/Voxel/Source/Voxel/Private/VoxelRender/Private/VoxelChunk.cpp:21-34 | a new chunk is unbound, has six false flags, no tasks, an empty mesh and no foliage |
| `VoxelChunks.VoxelChunk.Init` | Plugins/Voxel/Source/Voxel/Private/VoxelRender/Private/VoxelChunk.cpp:36-55 | binds node and render manager, places the chunk at the node's minimal corner, queues exactly one transition check |
| `VoxelChunks.VoxelChunk.Update` | Plugins/Voxel/Source/Voxel/Private/VoxelRender/Private/VoxelChunk.cpp:57-117 | flags become the neighbour-depth flags (untouched at depth 0); async: starts one task iff none is outstanding, else returns false and keeps both slots; sync: returns true, both slots empty, the freshly built section shown, one foliage update queued |
| `VoxelChunks.VoxelChunk.CheckTransitions` | Plugins/Voxel/Source/Voxel/Private/VoxelRender/Private/VoxelChunk.cpp:119-141 | appends exactly the remesh requests of the stale neighbours, in direction order, and changes nothing in the chunk |
| `VoxelChunks.VoxelChunk.Unload` | Plugins/Voxel/Source/Voxel/Private/VoxelRender/Private/VoxelChunk.cpp:143-151 | all task slots empty, one transition check queued, the deletion timer armed with the world's delay; mesh, foliage and binding untouched (Delete is not run) |
| `VoxelChunks.VoxelChunk.Delete` | Plugins/Voxel/Source/Voxel/Private/VoxelRender/Private/VoxelChunk.cpp:153-180 | all task slots empty, empty mesh shown, every component destroyed in order and none left, exactly one set-inactive request, render manager and node released |
| `VoxelChunks.VoxelChunk.OnMeshComplete` | Plugins/Voxel/Source/Voxel/Private/VoxelRender/Private/VoxelChunk.cpp:182-189 | the finished section is staged and exactly one apply-mesh request is queued |
| `VoxelChunks.VoxelChunk.ApplyNewMesh` | Plugins/Voxel/Source/Voxel/Private/VoxelRender/Private/VoxelChunk.cpp:191-213 | both mesh slots empty, exactly one foliage update queued, the staged section shown |
| `VoxelChunks.VoxelChunk.HasChunkHigherRes` | Plugins/Voxel/Source/Voxel/Private/VoxelRender/Private/VoxelChunk.cpp:220-223 | false at depth 0, the stored flag otherwise |
| `VoxelChunks.VoxelChunk.UpdateFoliage` | Plugins/Voxel/Source/Voxel/Private/VoxelRender/Private/VoxelChunk.cpp:225-246 | with no tasks outstanding, starts exactly the planned tasks and returns true; otherwise returns false and changes nothing |
| `VoxelChunks.VoxelChunk.OnFoliageComplete` | Plugins/Voxel/Source/Voxel/Private/VoxelRender/Private/VoxelChunk.cpp:249-256 | when the incremented counter reaches the number of tasks, exactly one apply-foliage request and the counter back at 0; otherwise the counter is incremented and nothing is queued |
| `VoxelChunks.VoxelChunk.OnAllFoliageComplete` | Plugins/Voxel/Source/Voxel/Private/VoxelRender/Private/VoxelChunk.cpp:258-262 | exactly one apply-foliage request, counter reset to 0 |
| `VoxelChunks.VoxelChunk.ApplyNewFoliage` | Plugins/Voxel/Source/Voxel/Private/VoxelRender/Private/VoxelChunk.cpp:264-338 | every old component destroyed in order; the components become one per non-empty task in task order; no task left |
| `VoxelChunks.VoxelChunk.DeleteTasks` | Plugins/Voxel/Source/Voxel/Private/VoxelRender/Private/VoxelChunk.cpp:341-360 | mesh task, polygonizer and foliage tasks all gone and nothing else changed, so a second call changes nothing |
| `VoxelChunks.VoxelChunk.CreateBuilder` | Plugins/Voxel/Source/Voxel/Private/VoxelRender/Private/VoxelChunk.cpp:362-371 | requires no polygonizer; makes one from the depth, corner and current flags, with transitions on only at non-zero depth and when the world computes them |
| `ChunkScenarios.RepeatedAsyncUpdate` | Plugins/Voxel/Source/Voxel/Private/VoxelRender/Private/VoxelChunk.cpp:79-93 | of two async updates with no apply between them, only the first starts a task, and the task stays the first one |
| `ChunkScenarios.CompleteFoliageGroup` | Plugins/Voxel/Source/Voxel/Private/VoxelRender/Private/VoxelChunk.cpp:249-262 | one completion per task of a group queues exactly one apply-foliage request and leaves the counter at 0 |
| `ChunkScenarios.MeshThenFoliage` | Plugins/Voxel/Source/Voxel/Private/VoxelRender/Private/VoxelChunk.cpp:182-246 | foliage planned after a mesh apply works on the section the chunk shows |
| `ChunkScenarios.ReuseAfterUnload` | Plugins/Voxel/Source/Voxel/Private/VoxelRender/Private/VoxelChunk.cpp:143-180 | unload, delete and rebinding leave no task, mesh or foliage from the previous binding |

The `Valid()` invariant of `VoxelChunk` says that the mesh task and its polygonizer
exist together and belong together. Every operation a render manager calls
preserves it. The one exception is `CreateBuilder`, an internal step that fills the
polygonizer slot alone; `Update` fills the mesh-task slot right after it, or shows the
built section and empties the polygonizer slot again. So when `Update` starts an
asynchronous build, `CreateBuilder`'s requirement that no polygonizer exists always
holds (line 364).

## Left out

- Engine component setup: the mesh component in the constructor (lines 23-31) and all
  of the instanced-mesh configuration, attachment, transform, per-instance render data
  and cluster tree (lines 287-332). These are engine calls with no logic of their own
  to check. A foliage component is recorded as its variety, seed and instance buffer.
- Actor rotation and scale (lines 50-51), editor labels (lines 44-47, 161-163),
  `SetMaterial` and the navigation-octree update (line 212). The location is kept as
  the node's integer minimal corner.
- What the polygonizer and foliage tasks compute. A built section is the symbolic
  `Polygonized(builder)`. A foliage task's result is given by the parameter
  `generate`, a function of the task's inputs. The voxel data passed to the
  polygonizer is not modelled.
- Thread pools and real concurrency. Starting a task is filling its slot. Waiting for
  a task (`EnsureCompletion`) is immediate. A finished task is the
  `OnMeshComplete` / `OnFoliageComplete` event. The callbacks a task might make while
  it is being waited for in teardown are not modelled, because the task bodies are not
  part of this model.
- VoxelChunks.VoxelChunk.Update: with `bAsync` false it waits for a possibly
  unfinished mesh task (line 98) before building synchronously. A completion callback
  that task might make during the wait is not modelled, so the contract says this path
  queues exactly one foliage update.
- `FCrc::StrCrc32` and `InvertTransitionDirection` are defined elsewhere. They are
  parameters (`strCrc32`, `invert`), and only the zero-to-one seed fix-up is modelled.
- The timer manager. `Unload` records the delay of the timer it arms in
  `deleteTimer`, which then holds the delay of the last timer armed: nothing clears
  it when the timer fires. The timer firing is the caller invoking `Delete`.
- The tree's adjacency query is passed in as six optional neighbour records. A
  neighbour node without a chunk cannot be expressed in such a record, so the fatal
  check at line 133 has no counterpart in the model.
- VoxelChunks.VoxelChunk.OnFoliageComplete: the counter is an unbounded `nat`. The
  source's `int` could overflow only after 2^31 completions, and that overflow is not
  modelled.
- VoxelChunks.VoxelChunk.CheckTransitions and VoxelChunks.VoxelChunk.Update take the
  adjacency as one snapshot per call, so the tree cannot change between two
  directions of one loop.
