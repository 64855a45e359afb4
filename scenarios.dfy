/**
 * Sequences of calls a render manager makes on one chunk, checked against
 * the chunk's contracts alone.
 */
module ChunkScenarios {
  import opened VoxelTypes
  import opened Foliage
  import opened VoxelChunks

  /**
   * Two asynchronous updates with no apply in between: the first starts the
   * mesh task, the second reports that one is already outstanding and
   * leaves it in place.
   */
  method RepeatedAsyncUpdate(chunk: VoxelChunk, adjacent: seq<Option<Adjacent>>) returns (first: bool, second: bool)
    requires chunk.Valid() && chunk.IsBound() && |adjacent| == DirectionCount && chunk.meshBuilder.None?
    modifies chunk`meshBuilder, chunk`builder, chunk`section, chunk`primaryMesh, chunk.chunkHasHigherRes
    modifies chunk.render`requests
    ensures first && !second
    ensures chunk.builder == Some(chunk.PolygonizerFor()) && chunk.meshBuilder == Some(MeshTask(chunk.builder.value))
    ensures chunk.render.requests == old(chunk.render.requests)
  {
    first := chunk.Update(true, adjacent);
    second := chunk.Update(true, adjacent);
  }

  /**
   * Every task of a foliage group reports completion once: exactly one
   * foliage apply is requested, after the last one, and the counter is
   * back at 0.
   */
  method CompleteFoliageGroup(chunk: VoxelChunk)
    requires chunk.render != null && chunk.completedFoliageTaskCount == 0 && chunk.foliageTasks != []
    modifies chunk`completedFoliageTaskCount, chunk.render
    ensures chunk.completedFoliageTaskCount == 0
    ensures chunk.render.requests == old(chunk.render.requests) + [AddApplyNewFoliage(chunk)]
  {
    var n := |chunk.foliageTasks|;
    for i := 0 to n
      invariant chunk.completedFoliageTaskCount == (if i < n then i else 0)
      invariant i < n ==> chunk.render.requests == old(chunk.render.requests)
      invariant i == n ==> chunk.render.requests == old(chunk.render.requests) + [AddApplyNewFoliage(chunk)]
    {
      chunk.OnFoliageComplete();
    }
  }

  /**
   * A finished mesh is applied before foliage is planned over it: every
   * foliage task then works on the section the chunk shows.
   */
  method MeshThenFoliage(chunk: VoxelChunk, built: MeshSection) returns (started: bool)
    requires chunk.Valid() && chunk.IsBound() && chunk.foliageTasks == []
    modifies chunk`section, chunk`meshBuilder, chunk`builder, chunk`primaryMesh, chunk`foliageTasks
    modifies chunk.render`requests
    ensures started && chunk.primaryMesh == built
    ensures |chunk.foliageTasks| == VarietyCount(chunk.render.world.grassTypes)
    ensures forall k :: 0 <= k < |chunk.foliageTasks| ==> chunk.foliageTasks[k].section == chunk.primaryMesh
    ensures chunk.render.requests ==
      old(chunk.render.requests) + [AddApplyNewMesh(chunk), AddFoliageUpdate(chunk)]
  {
    chunk.OnMeshComplete(built);
    chunk.ApplyNewMesh();
    started := chunk.UpdateFoliage();
  }

  /**
   * Unloading, deleting and binding the chunk to another node leaves no
   * task, mesh or foliage from the previous binding.
   */
  method ReuseAfterUnload(chunk: VoxelChunk, node: OctreeNode, nodeRender: VoxelRender)
    requires chunk.Valid() && chunk.IsBound()
    modifies chunk`meshBuilder, chunk`builder, chunk`foliageTasks, chunk`deleteTimer, chunk`primaryMesh
    modifies chunk`foliageComponents, chunk`destroyedComponents, chunk`render, chunk`currentOctree, chunk`location
    modifies chunk.render`requests, nodeRender`requests
    ensures chunk.Valid() && chunk.IsBound() && chunk.TasksCleared()
    ensures chunk.currentOctree == Some(node) && chunk.render == nodeRender && chunk.location == node.minimalCorner
    ensures chunk.primaryMesh == EmptySection && chunk.foliageComponents == []
    ensures chunk.destroyedComponents == old(chunk.destroyedComponents) + old(chunk.foliageComponents)
  {
    chunk.Unload();
    chunk.Delete();
    chunk.Init(node, nodeRender);
  }
}
