/**
 * The foliage pipeline of a chunk as values: the tasks a foliage update
 * starts, and the components a foliage apply creates from their results.
 */
module Foliage {
  import opened VoxelTypes

  /**
   * The instancing seed of a foliage component: the hash of the grass mesh
   * and chunk names, with 0 (reserved by the random source) moved to 1.
   */
  function FoliageSeed(hash: int32): (seed: int32)
    ensures seed != 0
    ensures hash != 0 ==> seed == hash
    ensures hash == 0 ==> seed == 1
  {
    if hash == 0 then 1 else hash
  }

  /** The task started for one grass variety of the grass type at `typeIndex`. */
  function TaskFor(section: MeshSection, variety: GrassVariety, typeIndex: nat, voxelSize: real, corner: IntVector)
    : FoliageTask
  {
    FoliageTask(section, variety, typeIndex, voxelSize, corner, FoliageDensity)
  }

  /** The tasks started for the varieties of one grass type, in variety order. */
  function VarietyTasks(
    section: MeshSection, varieties: seq<GrassVariety>, typeIndex: nat, voxelSize: real, corner: IntVector)
    : (tasks: seq<FoliageTask>)
    ensures |tasks| == |varieties|
    ensures forall v :: 0 <= v < |tasks| ==> tasks[v] == TaskFor(section, varieties[v], typeIndex, voxelSize, corner)
  {
    if varieties == [] then []
    else
      var n := |varieties| - 1;
      VarietyTasks(section, varieties[..n], typeIndex, voxelSize, corner) +
      [TaskFor(section, varieties[n], typeIndex, voxelSize, corner)]
  }

  /** The number of varieties over all grass types. */
  function VarietyCount(grassTypes: seq<GrassType>): nat
  {
    if grassTypes == [] then 0
    else VarietyCount(grassTypes[..|grassTypes| - 1]) + |grassTypes[|grassTypes| - 1].varieties|
  }

  /**
   * The tasks a foliage update starts: grass type by grass type, and within
   * a type variety by variety, all over the chunk's current section.
   */
  function PlanFoliage(section: MeshSection, grassTypes: seq<GrassType>, voxelSize: real, corner: IntVector)
    : (tasks: seq<FoliageTask>)
    ensures |tasks| == VarietyCount(grassTypes)
    ensures forall k :: 0 <= k < |tasks| ==>
      tasks[k].section == section && tasks[k].typeIndex < |grassTypes| &&
      tasks[k].variety in grassTypes[tasks[k].typeIndex].varieties
  {
    if grassTypes == [] then []
    else
      var n := |grassTypes| - 1;
      PlanFoliage(section, grassTypes[..n], voxelSize, corner) +
      VarietyTasks(section, grassTypes[n].varieties, n, voxelSize, corner)
  }

  /** Tasks of an earlier grass type come before those of a later one. */
  lemma {:induction false} PlanFoliageOrdered(
    section: MeshSection, grassTypes: seq<GrassType>, voxelSize: real, corner: IntVector, j: nat, k: nat)
    requires j <= k < VarietyCount(grassTypes)
    ensures PlanFoliage(section, grassTypes, voxelSize, corner)[j].typeIndex <=
      PlanFoliage(section, grassTypes, voxelSize, corner)[k].typeIndex
  {
    var n := |grassTypes| - 1;
    var prefix := PlanFoliage(section, grassTypes[..n], voxelSize, corner);
    if k < |prefix| {
      PlanFoliageOrdered(section, grassTypes[..n], voxelSize, corner, j, k);
    }
  }

  /**
   * Exactly one task per variety, at a known place: the task of variety v of
   * grass type t follows the tasks of all earlier types, and is that
   * variety's task.
   */
  lemma {:induction false} PlanFoliageAt(
    section: MeshSection, grassTypes: seq<GrassType>, voxelSize: real, corner: IntVector, t: nat, v: nat)
    requires t < |grassTypes| && v < |grassTypes[t].varieties|
    ensures VarietyCount(grassTypes[..t]) + v < VarietyCount(grassTypes)
    ensures PlanFoliage(section, grassTypes, voxelSize, corner)[VarietyCount(grassTypes[..t]) + v] ==
      TaskFor(section, grassTypes[t].varieties[v], t, voxelSize, corner)
  {
    var n := |grassTypes| - 1;
    if t < n {
      assert grassTypes[..n][..t] == grassTypes[..t];
      PlanFoliageAt(section, grassTypes[..n], voxelSize, corner, t, v);
    } else {
      assert grassTypes[..t] == grassTypes[..n];
    }
  }

  /** The component a foliage apply creates for a task whose buffer is non-empty. */
  function ComponentFor(task: FoliageTask, instances: InstanceBuffer, strCrc32: string -> int32, chunkName: string)
    : (c: FoliageComponent)
    ensures c.variety == task.variety && c.instances == instances && c.seed != 0
    ensures strCrc32(task.variety.grassMesh + chunkName) != 0 ==> c.seed == strCrc32(task.variety.grassMesh + chunkName)
  {
    FoliageComponent(task.variety, FoliageSeed(strCrc32(task.variety.grassMesh + chunkName)), instances)
  }

  /**
   * The components a foliage apply creates: one per task whose instance
   * buffer is non-empty, in task order. `generate` stands for what a
   * finished task computes from its inputs.
   */
  function NewComponents(
    tasks: seq<FoliageTask>, generate: FoliageTask -> InstanceBuffer, strCrc32: string -> int32, chunkName: string)
    : (components: seq<FoliageComponent>)
    ensures |components| <= |tasks|
    ensures forall k :: 0 <= k < |components| ==>
      components[k].seed != 0 && components[k].instances.numInstances > 0
  {
    if tasks == [] then []
    else
      var n := |tasks| - 1;
      var instances := generate(tasks[n]);
      NewComponents(tasks[..n], generate, strCrc32, chunkName) +
      (if instances.numInstances > 0 then [ComponentFor(tasks[n], instances, strCrc32, chunkName)] else [])
  }

  /** Every new component comes from a task with a non-empty buffer. */
  lemma {:induction false} NewComponentFromTask(
    tasks: seq<FoliageTask>, generate: FoliageTask -> InstanceBuffer, strCrc32: string -> int32, chunkName: string,
    c: FoliageComponent)
    requires c in NewComponents(tasks, generate, strCrc32, chunkName)
    ensures exists t ::
      (t in tasks && generate(t).numInstances > 0 && c == ComponentFor(t, generate(t), strCrc32, chunkName))
  {
    var n := |tasks| - 1;
    if c !in NewComponents(tasks[..n], generate, strCrc32, chunkName) {
      assert tasks[n] in tasks;
    } else {
      NewComponentFromTask(tasks[..n], generate, strCrc32, chunkName, c);
      var t :| t in tasks[..n] && generate(t).numInstances > 0 && c == ComponentFor(t, generate(t), strCrc32, chunkName);
      assert t in tasks;
    }
  }

  /** Every task with a non-empty buffer gets its component. */
  lemma {:induction false} TaskGetsComponent(
    tasks: seq<FoliageTask>, generate: FoliageTask -> InstanceBuffer, strCrc32: string -> int32, chunkName: string,
    t: FoliageTask)
    requires t in tasks && generate(t).numInstances > 0
    ensures ComponentFor(t, generate(t), strCrc32, chunkName) in NewComponents(tasks, generate, strCrc32, chunkName)
  {
    var n := |tasks| - 1;
    if t != tasks[n] {
      assert t in tasks[..n];
      TaskGetsComponent(tasks[..n], generate, strCrc32, chunkName, t);
    }
  }

  /** When every task produced instances, component k belongs to task k. */
  lemma {:induction false} NewComponentsOneToOne(
    tasks: seq<FoliageTask>, generate: FoliageTask -> InstanceBuffer, strCrc32: string -> int32, chunkName: string)
    requires forall t :: t in tasks ==> generate(t).numInstances > 0
    ensures |NewComponents(tasks, generate, strCrc32, chunkName)| == |tasks|
    ensures forall k :: 0 <= k < |tasks| ==>
      NewComponents(tasks, generate, strCrc32, chunkName)[k] == ComponentFor(tasks[k], generate(tasks[k]), strCrc32, chunkName)
  {
    if tasks != [] {
      var n := |tasks| - 1;
      assert tasks[n] in tasks;
      NewComponentsOneToOne(tasks[..n], generate, strCrc32, chunkName);
    }
  }

  /**
   * Applying a batch of tasks is applying its two halves one after the
   * other: so each task contributes its own component (or none), and the
   * components keep the order of their tasks.
   */
  lemma {:induction false} NewComponentsAppend(
    a: seq<FoliageTask>, b: seq<FoliageTask>,
    generate: FoliageTask -> InstanceBuffer, strCrc32: string -> int32, chunkName: string)
    ensures NewComponents(a + b, generate, strCrc32, chunkName) ==
      NewComponents(a, generate, strCrc32, chunkName) + NewComponents(b, generate, strCrc32, chunkName)
    decreases |b|
  {
    if b == [] {
      assert a + b == a;
    } else {
      var n := |b| - 1;
      assert (a + b)[..|a + b| - 1] == a + b[..n];
      assert (a + b)[|a + b| - 1] == b[n];
      NewComponentsAppend(a, b[..n], generate, strCrc32, chunkName);
    }
  }

  /** The number of tasks whose instance buffer is non-empty. */
  function NonEmptyCount(tasks: seq<FoliageTask>, generate: FoliageTask -> InstanceBuffer): nat
  {
    if tasks == [] then 0
    else
      var n := |tasks| - 1;
      NonEmptyCount(tasks[..n], generate) + (if generate(tasks[n]).numInstances > 0 then 1 else 0)
  }

  /**
   * For any mix of tasks, there are exactly as many components as tasks with
   * a non-empty buffer, and the component after those of the first k tasks
   * belongs to task k whenever task k's buffer is non-empty.
   */
  lemma {:induction false} NewComponentsPositions(
    tasks: seq<FoliageTask>, generate: FoliageTask -> InstanceBuffer, strCrc32: string -> int32, chunkName: string,
    k: nat)
    requires k < |tasks| && generate(tasks[k]).numInstances > 0
    ensures |NewComponents(tasks, generate, strCrc32, chunkName)| == NonEmptyCount(tasks, generate)
    ensures NonEmptyCount(tasks[..k], generate) < NonEmptyCount(tasks, generate)
    ensures NewComponents(tasks, generate, strCrc32, chunkName)[NonEmptyCount(tasks[..k], generate)] ==
      ComponentFor(tasks[k], generate(tasks[k]), strCrc32, chunkName)
  {
    NewComponentsCount(tasks, generate, strCrc32, chunkName);
    var n := |tasks| - 1;
    if k < n {
      assert tasks[..n][..k] == tasks[..k];
      NewComponentsPositions(tasks[..n], generate, strCrc32, chunkName, k);
    } else {
      assert tasks[..k] == tasks[..n];
      NewComponentsCount(tasks[..n], generate, strCrc32, chunkName);
    }
  }

  /** One component per task with a non-empty buffer, for any mix of tasks. */
  lemma {:induction false} NewComponentsCount(
    tasks: seq<FoliageTask>, generate: FoliageTask -> InstanceBuffer, strCrc32: string -> int32, chunkName: string)
    ensures |NewComponents(tasks, generate, strCrc32, chunkName)| == NonEmptyCount(tasks, generate)
  {
    if tasks != [] {
      NewComponentsCount(tasks[..|tasks| - 1], generate, strCrc32, chunkName);
    }
  }
}
