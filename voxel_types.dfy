/**
 * Values shared by the chunk model: integer widths, octree views, world
 * configuration, polygonizer and foliage task descriptions, and the
 * foliage components a chunk applies.
 */
module VoxelTypes {

  datatype Option<+T> = None | Some(value: T)

  /** A signed 32-bit integer, the width of the source's `int32`. */
  newtype int32 = x: int | -0x8000_0000 <= x < 0x8000_0000

  /** The six `TransitionDirection` values, as indices 0 to 5. */
  type Direction = d: int | 0 <= d < 6

  /** The number of transition directions of a cubic chunk. */
  const DirectionCount := 6

  datatype IntVector = IntVector(x: int, y: int, z: int)

  /** Identity of an octree node, as seen through a weak pointer. */
  type NodeId = nat

  /**
   * The octree node a chunk is bound to: its identity, its `Depth`
   * (0 is the finest level: a smaller depth means a higher resolution)
   * and its minimal corner.
   */
  datatype OctreeNode = OctreeNode(id: NodeId, depth: nat, minimalCorner: IntVector)

  /**
   * What `GetAdjacentChunk` yields for one direction when the neighbour
   * exists: the neighbour node, its depth, and the `ChunkHasHigherRes`
   * flags currently stored in the chunk bound to that node.
   */
  datatype Adjacent = Adjacent(node: NodeId, depth: nat, chunkHasHigherRes: seq<bool>)

  /** One entry of a world's grass configuration. */
  datatype GrassVariety = GrassVariety(grassMesh: string)

  datatype GrassType = GrassType(varieties: seq<GrassVariety>)

  /** The read-only world configuration a render manager exposes. */
  datatype VoxelWorld = VoxelWorld(
    computeTransitions: bool,
    deletionDelay: real,
    voxelSize: real,
    grassTypes: seq<GrassType>)

  /**
   * The arguments a `VoxelPolygonizer` is built from (the voxel data it
   * also receives is read-only and shared, and is not modelled).
   */
  datatype Polygonizer = Polygonizer(
    depth: nat,
    corner: IntVector,
    chunkHasHigherRes: seq<bool>,
    computeTransitions: bool)

  /** A mesh-building task wraps the polygonizer it runs. */
  datatype MeshTask = MeshTask(builder: Polygonizer)

  /**
   * A procedural mesh section: the empty section, or the section a given
   * polygonizer produces (the geometry itself is opaque here).
   */
  datatype MeshSection = EmptySection | Polygonized(builtBy: Polygonizer)

  /** The section `Builder->CreateSection` yields. */
  function CreateSection(builder: Polygonizer): MeshSection
  {
    Polygonized(builder)
  }

  /** The value passed to every foliage task as its sixth argument. */
  const FoliageDensity := 10

  /** The inputs of one asynchronous foliage task. */
  datatype FoliageTask = FoliageTask(
    section: MeshSection,
    variety: GrassVariety,
    typeIndex: nat,
    voxelSize: real,
    corner: IntVector,
    density: int)

  /** The instances a finished foliage task produced. */
  datatype InstanceBuffer = InstanceBuffer(numInstances: nat)

  /** A hierarchical instanced mesh component created for one task. */
  datatype FoliageComponent = FoliageComponent(
    variety: GrassVariety,
    seed: int32,
    instances: InstanceBuffer)
}
