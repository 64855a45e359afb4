/**
 * The level-of-detail transition rules of a chunk: which neighbours count
 * as higher resolution, what a chunk answers when asked, and which
 * neighbours a transition check queues for a remesh.
 *
 * Depth follows the octree: 0 is the finest level, so a neighbour with a
 * smaller depth than this chunk has a higher resolution.
 */
module Transitions {
  import opened VoxelTypes

  /** The flag `Update` stores for one direction. */
  predicate NeighbourHasHigherRes(depth: nat, neighbour: Option<Adjacent>)
  {
    neighbour.Some? && neighbour.value.depth < depth
  }

  /**
   * The six flags `Update` stores for a chunk of non-zero depth: a flag is
   * set exactly when a neighbour exists in that direction and is finer.
   */
  function TransitionFlags(depth: nat, adjacent: seq<Option<Adjacent>>): (flags: seq<bool>)
    requires |adjacent| == DirectionCount
    ensures |flags| == DirectionCount
    ensures forall d :: 0 <= d < DirectionCount ==>
      (flags[d] <==> adjacent[d].Some? && adjacent[d].value.depth < depth)
  {
    seq(DirectionCount, i requires 0 <= i < DirectionCount => NeighbourHasHigherRes(depth, adjacent[i]))
  }

  /**
   * The answer of `HasChunkHigherRes` for a chunk of the given depth whose
   * stored flags are `flags`.
   */
  function HasHigherRes(depth: nat, flags: seq<bool>, d: Direction): (r: bool)
    requires |flags| == DirectionCount
    ensures depth == 0 ==> !r
    ensures depth != 0 ==> (r <==> flags[d])
  {
    depth != 0 && flags[d]
  }

  /** Six directions, each neighbour carrying six stored flags. */
  predicate WellFormed(adjacent: seq<Option<Adjacent>>)
  {
    |adjacent| == DirectionCount &&
    forall i :: 0 <= i < |adjacent| && adjacent[i].Some? ==>
      |adjacent[i].value.chunkHasHigherRes| == DirectionCount
  }

  /**
   * The neighbour in direction `d` holds a stale view of this chunk: whether
   * this chunk is the finer one disagrees with what the neighbour's chunk
   * answers for the opposite direction.
   */
  function IsStale(depth: nat, neighbour: Adjacent, d: Direction, invert: Direction -> Direction): (r: bool)
    requires |neighbour.chunkHasHigherRes| == DirectionCount
    ensures neighbour.depth == 0 ==> !r
    ensures neighbour.depth != 0 ==>
      (r <==> (depth < neighbour.depth) != neighbour.chunkHasHigherRes[invert(d)])
  {
    (neighbour.depth > depth) != HasHigherRes(neighbour.depth, neighbour.chunkHasHigherRes, invert(d))
  }

  /** The neighbours with a stale view among directions 0 to n - 1, in direction order. */
  function StaleNeighbours(depth: nat, adjacent: seq<Option<Adjacent>>, invert: Direction -> Direction, n: nat)
    : (nodes: seq<NodeId>)
    requires WellFormed(adjacent) && n <= DirectionCount
    ensures |nodes| <= n
  {
    if n == 0 then []
    else
      var neighbour := adjacent[n - 1];
      StaleNeighbours(depth, adjacent, invert, n - 1) +
      (if neighbour.Some? && IsStale(depth, neighbour.value, n - 1, invert) then [neighbour.value.node] else [])
  }

  /** The nodes a transition check asks to remesh, in direction order. */
  function RemeshTargets(computeTransitions: bool, depth: nat, adjacent: seq<Option<Adjacent>>, invert: Direction -> Direction)
    : (nodes: seq<NodeId>)
    requires WellFormed(adjacent)
    ensures |nodes| <= DirectionCount
    ensures !computeTransitions ==> nodes == []
  {
    if computeTransitions then StaleNeighbours(depth, adjacent, invert, DirectionCount) else []
  }

  /** A chunk at depth 0, the finest level, never reports a higher-resolution neighbour, whatever its flags hold. */
  lemma FinestChunkHasNoHigherResNeighbour(flags: seq<bool>, d: Direction)
    requires |flags| == DirectionCount
    ensures !HasHigherRes(0, flags, d)
  {
  }

  /**
   * After an update, a chunk reports a higher-resolution neighbour in
   * direction d exactly when its depth is non-zero and a neighbour
   * exists there with a smaller depth.
   */
  lemma UpdatedFlagsReportNeighbourDepths(depth: nat, adjacent: seq<Option<Adjacent>>, d: Direction)
    requires |adjacent| == DirectionCount
    ensures HasHigherRes(depth, TransitionFlags(depth, adjacent), d) <==>
      depth != 0 && adjacent[d].Some? && adjacent[d].value.depth < depth
  {
  }

  /** Every stale neighbour is asked to remesh when transitions are computed. */
  lemma {:induction false} StaleNeighbourIsRemeshed(
    depth: nat, adjacent: seq<Option<Adjacent>>, invert: Direction -> Direction, n: nat, d: Direction)
    requires WellFormed(adjacent) && d < n <= DirectionCount
    requires adjacent[d].Some? && IsStale(depth, adjacent[d].value, d, invert)
    ensures adjacent[d].value.node in StaleNeighbours(depth, adjacent, invert, n)
  {
    if d < n - 1 {
      StaleNeighbourIsRemeshed(depth, adjacent, invert, n - 1, d);
    }
  }

  /** Only neighbours with a stale view are asked to remesh, and only when transitions are computed. */
  lemma {:induction false} RemeshedNodeIsStaleNeighbour(
    depth: nat, adjacent: seq<Option<Adjacent>>, invert: Direction -> Direction, n: nat, node: NodeId)
    requires WellFormed(adjacent) && n <= DirectionCount
    requires node in StaleNeighbours(depth, adjacent, invert, n)
    ensures exists d: Direction ::
      (d < n && adjacent[d].Some? && adjacent[d].value.node == node && IsStale(depth, adjacent[d].value, d, invert))
  {
    var neighbour := adjacent[n - 1];
    if neighbour.Some? && IsStale(depth, neighbour.value, n - 1, invert) && node == neighbour.value.node {
    } else {
      RemeshedNodeIsStaleNeighbour(depth, adjacent, invert, n - 1, node);
    }
  }

  /**
   * The requests of a transition check, both ways: a node is asked to
   * remesh exactly when transitions are computed and some direction holds
   * that node as a neighbour with a stale view.
   */
  lemma RemeshTargetsExact(
    computeTransitions: bool, depth: nat, adjacent: seq<Option<Adjacent>>, invert: Direction -> Direction, node: NodeId)
    requires WellFormed(adjacent)
    ensures node in RemeshTargets(computeTransitions, depth, adjacent, invert) <==>
      computeTransitions && exists d: Direction ::
        (adjacent[d].Some? && adjacent[d].value.node == node && IsStale(depth, adjacent[d].value, d, invert))
  {
    if computeTransitions {
      if node in RemeshTargets(computeTransitions, depth, adjacent, invert) {
        RemeshedNodeIsStaleNeighbour(depth, adjacent, invert, DirectionCount, node);
      }
      if exists d: Direction ::
          (adjacent[d].Some? && adjacent[d].value.node == node && IsStale(depth, adjacent[d].value, d, invert)) {
        var d: Direction :| adjacent[d].Some? && adjacent[d].value.node == node &&
          IsStale(depth, adjacent[d].value, d, invert);
        StaleNeighbourIsRemeshed(depth, adjacent, invert, DirectionCount, d);
      }
    }
  }

  /**
   * Once a neighbour has refreshed its flags while this chunk sat at its
   * current depth in the opposite direction, the neighbour's view is no
   * longer stale: a transition check then leaves it alone. A neighbour at
   * depth 0, which answers false for every direction, is never stale either.
   */
  lemma RefreshedNeighbourIsNotStale(
    depth: nat, here: NodeId, d: Direction, neighbour: Adjacent,
    neighbourAdjacent: seq<Option<Adjacent>>, invert: Direction -> Direction)
    requires |neighbourAdjacent| == DirectionCount && |neighbour.chunkHasHigherRes| == DirectionCount
    requires neighbour.depth != 0 ==> neighbour.chunkHasHigherRes == TransitionFlags(neighbour.depth, neighbourAdjacent)
    requires neighbourAdjacent[invert(d)].Some?
    requires neighbourAdjacent[invert(d)].value.node == here && neighbourAdjacent[invert(d)].value.depth == depth
    ensures !IsStale(depth, neighbour, d, invert)
  {
  }

  /**
   * A neighbour of non-zero depth is stale exactly when the depth it saw
   * in the opposite direction at its last update stands in a different
   * finer-or-not relation to it than this chunk's current depth.
   */
  lemma StaleMeansRelationChanged(
    depth: nat, d: Direction, neighbour: Adjacent,
    neighbourAdjacent: seq<Option<Adjacent>>, invert: Direction -> Direction)
    requires |neighbourAdjacent| == DirectionCount && |neighbour.chunkHasHigherRes| == DirectionCount
    requires neighbour.depth != 0 && neighbour.chunkHasHigherRes == TransitionFlags(neighbour.depth, neighbourAdjacent)
    ensures IsStale(depth, neighbour, d, invert) <==>
      NeighbourHasHigherRes(neighbour.depth, neighbourAdjacent[invert(d)]) != (depth < neighbour.depth)
  {
  }
}
