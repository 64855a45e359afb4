/**
 * A voxel chunk and the render manager it reports to. The chunk owns at
 * most one mesh task with its polygonizer, at most one group of foliage
 * tasks, the foliage components it applied, and its binding to an octree
 * node. Every method runs on the single control thread; a task finishing
 * is an event on that thread, and waiting for a task is immediate.
 */
module VoxelChunks {
  import opened VoxelTypes
  import opened Transitions
  import opened Foliage

  /** The calls a chunk makes into its render manager, in the order made. */
  datatype Request =
    | AddTransitionCheck(chunk: VoxelChunk)
    | AddApplyNewMesh(chunk: VoxelChunk)
    | AddFoliageUpdate(chunk: VoxelChunk)
    | AddApplyNewFoliage(chunk: VoxelChunk)
    | UpdateChunk(node: NodeId, isAsync: bool)
    | SetChunkAsInactive(chunk: VoxelChunk)

  /** The asynchronous remesh requests for the given nodes, in order. */
  function RemeshRequests(nodes: seq<NodeId>): (requests: seq<Request>)
    ensures |requests| == |nodes|
    ensures forall k :: 0 <= k < |nodes| ==> requests[k] == UpdateChunk(nodes[k], true)
  {
    if nodes == [] then []
    else RemeshRequests(nodes[..|nodes| - 1]) + [UpdateChunk(nodes[|nodes| - 1], true)]
  }

  /**
   * The render manager as the chunk sees it: the world configuration it
   * exposes and the requests it has received.
   */
  class VoxelRender {
    const world: VoxelWorld
    var requests: seq<Request>

    constructor (world: VoxelWorld)
      ensures this.world == world && requests == []
    {
      this.world := world;
      requests := [];
    }
  }

  class VoxelChunk {
    /** The actor's name, part of the foliage seed. */
    const name: string
    /** Per direction: does the neighbour have a higher resolution? */
    const chunkHasHigherRes: array<bool>

    var render: VoxelRender?
    var currentOctree: Option<OctreeNode>
    /** The actor's location: the bound node's minimal corner. */
    var location: IntVector

    /** The outstanding mesh task, if any. */
    var meshBuilder: Option<MeshTask>
    /** The polygonizer of the outstanding mesh task, if any. */
    var builder: Option<Polygonizer>
    /** The last section a polygonizer produced, staged for the next apply. */
    var section: MeshSection
    /** The section the chunk's mesh component shows. */
    var primaryMesh: MeshSection

    var foliageTasks: seq<FoliageTask>
    var completedFoliageTaskCount: nat
    var foliageComponents: seq<FoliageComponent>
    /** The components destroyed so far, in the order destroyed. */
    var destroyedComponents: seq<FoliageComponent>
    /**
     * The delay of the last deletion timer `Unload` armed, once one is set;
     * nothing clears it when the timer fires, as nothing resets the handle.
     */
    var deleteTimer: Option<real>

    /**
     * The chunk's invariant: six flags; the mesh task and its polygonizer
     * exist together and belong together; a chunk has a render manager
     * exactly while it is bound to a node.
     */
    ghost predicate Valid()
      reads this
    {
      chunkHasHigherRes.Length == DirectionCount &&
      (meshBuilder.Some? <==> builder.Some?) &&
      (meshBuilder.Some? ==> meshBuilder.value.builder == builder.value) &&
      (render == null <==> currentOctree.None?)
    }

    predicate IsBound()
      reads this
    {
      render != null && currentOctree.Some?
    }

    /** No mesh task, no polygonizer, no foliage task. */
    predicate TasksCleared()
      reads this
    {
      meshBuilder.None? && builder.None? && foliageTasks == []
    }

    function Depth(): nat
      reads this
      requires currentOctree.Some?
    {
      currentOctree.value.depth
    }

    /** The polygonizer `CreateBuilder` makes from the current state. */
    function PolygonizerFor(): Polygonizer
      reads this, chunkHasHigherRes
      requires IsBound()
    {
      Polygonizer(Depth(), currentOctree.value.minimalCorner, chunkHasHigherRes[..],
        Depth() != 0 && render.world.computeTransitions)
    }

    constructor (name: string)
      ensures this.name == name && Valid() && fresh(chunkHasHigherRes)
      ensures forall d :: 0 <= d < chunkHasHigherRes.Length ==> !chunkHasHigherRes[d]
      ensures render == null && currentOctree.None?
      ensures TasksCleared() && completedFoliageTaskCount == 0
      ensures section == EmptySection && primaryMesh == EmptySection
      ensures foliageComponents == [] && destroyedComponents == [] && deleteTimer.None?
    {
      this.name := name;
      chunkHasHigherRes := new bool[DirectionCount](_ => false);
      render := null;
      currentOctree := None;
      location := IntVector(0, 0, 0);
      meshBuilder, builder := None, None;
      section, primaryMesh := EmptySection, EmptySection;
      foliageTasks, completedFoliageTaskCount := [], 0;
      foliageComponents, destroyedComponents := [], [];
      deleteTimer := None;
    }

    /**
     * Binds the chunk to a node and its render manager, places it at the
     * node's minimal corner and asks for a later transition check.
     */
    method Init(node: OctreeNode, nodeRender: VoxelRender)
      requires Valid()
      modifies this`currentOctree, this`render, this`location, nodeRender`requests
      ensures Valid() && IsBound()
      ensures currentOctree == Some(node) && render == nodeRender && location == node.minimalCorner
      ensures nodeRender.requests == old(nodeRender.requests) + [AddTransitionCheck(this)]
    {
      currentOctree := Some(node);
      render := nodeRender;
      location := node.minimalCorner;
      render.requests := render.requests + [AddTransitionCheck(this)];
    }

    /**
     * Refreshes the transition flags from the node's current neighbours,
     * then starts a mesh task (asynchronously) or builds and applies the
     * mesh at once (synchronously).
     */
    method Update(isAsync: bool, adjacent: seq<Option<Adjacent>>) returns (started: bool)
      requires Valid() && IsBound() && |adjacent| == DirectionCount
      modifies this`meshBuilder, this`builder, this`section, this`primaryMesh, chunkHasHigherRes, render`requests
      ensures Valid()
      ensures Depth() != 0 ==> chunkHasHigherRes[..] == TransitionFlags(Depth(), adjacent)
      ensures Depth() == 0 ==> chunkHasHigherRes[..] == old(chunkHasHigherRes[..])
      ensures isAsync ==> (started == old(meshBuilder).None? && section == old(section) &&
        primaryMesh == old(primaryMesh) && render.requests == old(render.requests))
      ensures isAsync && started ==> builder == Some(PolygonizerFor()) && meshBuilder == Some(MeshTask(builder.value))
      ensures isAsync && !started ==> builder == old(builder) && meshBuilder == old(meshBuilder)
      ensures !isAsync ==> (started && meshBuilder.None? && builder.None? &&
        section == CreateSection(PolygonizerFor()) && primaryMesh == section &&
        render.requests == old(render.requests) + [AddFoliageUpdate(this)])
    {
      var depth := Depth();
      if depth != 0 {
        for i := 0 to DirectionCount
          modifies chunkHasHigherRes
          invariant forall k :: 0 <= k < i ==> chunkHasHigherRes[k] == NeighbourHasHigherRes(depth, adjacent[k])
        {
          var neighbour := adjacent[i];
          if neighbour.Some? {
            chunkHasHigherRes[i] := neighbour.value.depth < depth;
          } else {
            chunkHasHigherRes[i] := false;
          }
        }
      }

      if isAsync {
        if meshBuilder.None? {
          CreateBuilder();
          meshBuilder := Some(MeshTask(builder.value));
          return true;
        } else {
          return false;
        }
      } else {
        // Wait for the outstanding task and drop it with its polygonizer.
        if meshBuilder.Some? {
          meshBuilder := None;
        }
        if builder.Some? {
          builder := None;
        }

        CreateBuilder();
        section := CreateSection(builder.value);
        builder := None;

        ApplyNewMesh();
        return true;
      }
    }

    /**
     * Asks every neighbour whose view of this chunk is stale to remesh
     * asynchronously; the chunk itself is left as it is.
     */
    method CheckTransitions(adjacent: seq<Option<Adjacent>>, invert: Direction -> Direction)
      requires Valid() && IsBound() && WellFormed(adjacent)
      modifies render`requests
      ensures render.requests ==
        old(render.requests) + RemeshRequests(RemeshTargets(render.world.computeTransitions, Depth(), adjacent, invert))
    {
      if render.world.computeTransitions {
        for i := 0 to DirectionCount
          invariant render.requests ==
            old(render.requests) + RemeshRequests(StaleNeighbours(Depth(), adjacent, invert, i))
        {
          var neighbour := adjacent[i];
          if neighbour.Some? {
            var thisHasHigherRes := neighbour.value.depth > Depth();
            if thisHasHigherRes != HasHigherRes(neighbour.value.depth, neighbour.value.chunkHasHigherRes, invert(i)) {
              render.requests := render.requests + [UpdateChunk(neighbour.value.node, true)];
            }
          }
          ghost var nodes := StaleNeighbours(Depth(), adjacent, invert, i + 1);
          assert nodes[..|nodes|] == nodes;
        }
      }
    }

    /**
     * Drops every task, asks for a transition check of the half-updated
     * tree and arms the deletion timer; the deletion itself comes later.
     */
    method Unload()
      requires Valid() && IsBound()
      modifies this`meshBuilder, this`builder, this`foliageTasks, this`deleteTimer, render`requests
      ensures Valid() && TasksCleared()
      ensures render.requests == old(render.requests) + [AddTransitionCheck(this)]
      ensures deleteTimer == Some(render.world.deletionDelay)
    {
      DeleteTasks();
      render.requests := render.requests + [AddTransitionCheck(this)];
      deleteTimer := Some(render.world.deletionDelay);
    }

    /**
     * Drops every task, clears the mesh, destroys the foliage components,
     * returns the chunk to the inactive pool and releases the binding.
     */
    method Delete()
      requires Valid() && IsBound()
      modifies this`meshBuilder, this`builder, this`foliageTasks, this`primaryMesh, this`foliageComponents
      modifies this`destroyedComponents, this`render, this`currentOctree, render`requests
      ensures Valid() && TasksCleared() && primaryMesh == EmptySection && foliageComponents == []
      ensures destroyedComponents == old(destroyedComponents) + old(foliageComponents)
      ensures old(render).requests == old(render.requests) + [SetChunkAsInactive(this)]
      ensures render == null && currentOctree.None?
    {
      DeleteTasks();
      primaryMesh := EmptySection;

      for i := 0 to |foliageComponents|
        modifies this`destroyedComponents
        invariant destroyedComponents == old(destroyedComponents) + foliageComponents[..i]
      {
        destroyedComponents := destroyedComponents + [foliageComponents[i]];
      }
      foliageComponents := [];

      render.requests := render.requests + [SetChunkAsInactive(this)];

      render := null;
      currentOctree := None;
    }

    /** A finished mesh task hands over its section, to be applied later on the control thread. */
    method OnMeshComplete(inSection: MeshSection)
      requires render != null
      modifies this`section, render`requests
      ensures section == inSection
      ensures render.requests == old(render.requests) + [AddApplyNewMesh(this)]
    {
      section := inSection;
      render.requests := render.requests + [AddApplyNewMesh(this)];
    }

    /**
     * Releases the mesh task and its polygonizer, asks for a foliage update
     * and shows the staged section.
     */
    method ApplyNewMesh()
      requires Valid() && IsBound()
      modifies this`meshBuilder, this`builder, this`primaryMesh, render`requests
      ensures Valid() && meshBuilder.None? && builder.None?
      ensures render.requests == old(render.requests) + [AddFoliageUpdate(this)]
      ensures primaryMesh == section
    {
      if meshBuilder.Some? {
        meshBuilder := None;
      }
      if builder.Some? {
        builder := None;
      }
      render.requests := render.requests + [AddFoliageUpdate(this)];
      primaryMesh := section;
    }

    /** What the chunk answers when a neighbour asks about direction d. */
    function HasChunkHigherRes(d: Direction): (r: bool)
      reads this, chunkHasHigherRes
      requires Valid() && currentOctree.Some?
      ensures Depth() == 0 ==> !r
      ensures Depth() != 0 ==> r == chunkHasHigherRes[d]
    {
      HasHigherRes(Depth(), chunkHasHigherRes[..], d)
    }

    /**
     * Starts one foliage task per variety of every grass type over the
     * staged section, unless a group of foliage tasks is outstanding.
     */
    method UpdateFoliage() returns (started: bool)
      requires foliageTasks == [] ==> IsBound()
      modifies this`foliageTasks
      ensures started == (old(foliageTasks) == [])
      ensures started ==> (foliageTasks ==
        PlanFoliage(section, render.world.grassTypes, render.world.voxelSize, currentOctree.value.minimalCorner))
      ensures !started ==> foliageTasks == old(foliageTasks)
    {
      if foliageTasks == [] {
        var grassTypes := render.world.grassTypes;
        var voxelSize := render.world.voxelSize;
        var corner := currentOctree.value.minimalCorner;
        for index := 0 to |grassTypes|
          modifies this`foliageTasks
          invariant foliageTasks == PlanFoliage(section, grassTypes[..index], voxelSize, corner)
        {
          var varieties := grassTypes[index].varieties;
          for v := 0 to |varieties|
            modifies this`foliageTasks
            invariant foliageTasks ==
              PlanFoliage(section, grassTypes[..index], voxelSize, corner) +
              VarietyTasks(section, varieties[..v], index, voxelSize, corner)
          {
            foliageTasks := foliageTasks + [FoliageTask(section, varieties[v], index, voxelSize, corner, FoliageDensity)];
            assert varieties[..v + 1][..v] == varieties[..v];
          }
          assert varieties[..|varieties|] == varieties;
          assert grassTypes[..index + 1][..index] == grassTypes[..index];
        }
        assert grassTypes[..|grassTypes|] == grassTypes;
        return true;
      } else {
        return false;
      }
    }

    /**
     * One foliage task has finished; when it is the last of its group the
     * chunk asks for a foliage apply and starts counting afresh.
     */
    method OnFoliageComplete()
      requires completedFoliageTaskCount + 1 == |foliageTasks| ==> render != null
      modifies this`completedFoliageTaskCount, render
      ensures old(completedFoliageTaskCount) + 1 == |foliageTasks| ==>
        completedFoliageTaskCount == 0 && render.requests == old(render.requests) + [AddApplyNewFoliage(this)]
      ensures old(completedFoliageTaskCount) + 1 != |foliageTasks| ==>
        completedFoliageTaskCount == old(completedFoliageTaskCount) + 1 &&
        (render != null ==> render.requests == old(render.requests))
    {
      completedFoliageTaskCount := completedFoliageTaskCount + 1;
      if completedFoliageTaskCount == |foliageTasks| {
        OnAllFoliageComplete();
      }
    }

    method OnAllFoliageComplete()
      requires render != null
      modifies this`completedFoliageTaskCount, render`requests
      ensures completedFoliageTaskCount == 0
      ensures render.requests == old(render.requests) + [AddApplyNewFoliage(this)]
    {
      render.requests := render.requests + [AddApplyNewFoliage(this)];
      completedFoliageTaskCount := 0;
    }

    /**
     * Destroys the applied foliage components, then creates one component
     * per finished task that produced instances, and drops the tasks.
     * `generate` stands for what a finished task computes from its inputs,
     * `strCrc32` for the string hash.
     */
    method ApplyNewFoliage(generate: FoliageTask -> InstanceBuffer, strCrc32: string -> int32)
      modifies this`foliageComponents, this`destroyedComponents, this`foliageTasks
      ensures destroyedComponents == old(destroyedComponents) + old(foliageComponents)
      ensures foliageComponents == NewComponents(old(foliageTasks), generate, strCrc32, name)
      ensures foliageTasks == []
    {
      for i := 0 to |foliageComponents|
        modifies this`destroyedComponents
        invariant destroyedComponents == old(destroyedComponents) + foliageComponents[..i]
      {
        destroyedComponents := destroyedComponents + [foliageComponents[i]];
      }
      foliageComponents := [];

      for i := 0 to |foliageTasks|
        modifies this`foliageComponents
        invariant foliageComponents == NewComponents(foliageTasks[..i], generate, strCrc32, name)
      {
        var task := foliageTasks[i];
        var instances := generate(task);
        if instances.numInstances > 0 {
          var seed := strCrc32(task.variety.grassMesh + name);
          if seed == 0 {
            seed := seed + 1;
          }
          foliageComponents := foliageComponents + [FoliageComponent(task.variety, seed, instances)];
        }
        assert foliageTasks[..i + 1][..i] == foliageTasks[..i];
      }
      assert foliageTasks[..|foliageTasks|] == foliageTasks;
      foliageTasks := [];
    }

    /** Waits for and drops the mesh task, its polygonizer and every foliage task. */
    method DeleteTasks()
      requires Valid()
      modifies this`meshBuilder, this`builder, this`foliageTasks
      ensures Valid() && TasksCleared()
    {
      if meshBuilder.Some? {
        meshBuilder := None;
      }
      if builder.Some? {
        builder := None;
      }
      // Each foliage task is waited for and dropped.
      foliageTasks := [];
    }

    /** Makes the polygonizer for the next mesh; a previous one must be gone. */
    method CreateBuilder()
      requires IsBound() && builder.None?
      modifies this`builder
      ensures builder == Some(PolygonizerFor())
    {
      builder := Some(Polygonizer(Depth(), currentOctree.value.minimalCorner, chunkHasHigherRes[..],
        Depth() != 0 && render.world.computeTransitions));
    }
  }
}
