/** Rooms: the space a BSP leaf allocates, the floor carved into it by a
    bounded random walk, the padded bounding box of the carved floor and
    the ring of non-walkable tiles around it. */
module Rooms {
  import opened Common
  import opened Tiles

  const INT_MAX: int := 0x7fff_ffff
  const INT_MIN: int := -0x8000_0000

  /** The room centre: lower-left corner plus half the size, rounded down. */
  function CenterOf(lowerLeft: Vec2, maxSize: Vec2): (c: Vec2)
    requires maxSize.x >= 0 && maxSize.y >= 0
    ensures 2 * (c.x - lowerLeft.x) <= maxSize.x <= 2 * (c.x - lowerLeft.x) + 1
    ensures 2 * (c.y - lowerLeft.y) <= maxSize.y <= 2 * (c.y - lowerLeft.y) + 1
  {
    lowerLeft.Plus(Vec2(maxSize.x / 2, maxSize.y / 2))
  }

  /** The four walk directions, indexed by the draw Random.Range(0, 4). */
  function Dir(d: int): (v: Vec2)
    requires 0 <= d < 4
    ensures Abs(v.x) + Abs(v.y) == 1
  {
    [Vec2(-1, 0), Vec2(1, 0), Vec2(0, -1), Vec2(0, 1)][d]
  }

  /** The walk's acceptance test: strictly between the inner bounds on both axes. */
  predicate StrictlyInside(p: Vec2, minInternal: Vec2, maxInternal: Vec2) {
    minInternal.x < p.x < maxInternal.x && minInternal.y < p.y < maxInternal.y
  }

  function ManhattanDist(a: Vec2, b: Vec2): nat {
    Abs(a.x - b.x) + Abs(a.y - b.y)
  }

  /** One walk step: move one unit in direction d if the target passes the
      bounds, otherwise stay. */
  function Step(lastPos: Vec2, d: int, minInternal: Vec2, maxInternal: Vec2): (next: Vec2)
    requires 0 <= d < 4
    ensures next == lastPos || (StrictlyInside(next, minInternal, maxInternal) && ManhattanDist(lastPos, next) == 1)
    ensures StrictlyInside(lastPos.Plus(Dir(d)), minInternal, maxInternal) <==> next != lastPos
  {
    var newPos := lastPos.Plus(Dir(d));
    if StrictlyInside(newPos, minInternal, maxInternal) then newPos else lastPos
  }

  predicate ValidDirs(steps: seq<int>) {
    forall i :: 0 <= i < |steps| ==> 0 <= steps[i] < 4
  }

  predicate ValidWalks(walks: seq<seq<int>>) {
    forall k :: 0 <= k < |walks| ==> ValidDirs(walks[k])
  }

  /** Where a walk from `start` with the given direction draws ends. */
  function WalkEnd(start: Vec2, steps: seq<int>, minInternal: Vec2, maxInternal: Vec2): Vec2
    requires ValidDirs(steps)
  {
    if steps == [] then start
    else Step(WalkEnd(start, steps[..|steps| - 1], minInternal, maxInternal), steps[|steps| - 1], minInternal, maxInternal)
  }

  /** The positions a single walk adds to the carved set: every accepted step's target. */
  function WalkTrail(start: Vec2, steps: seq<int>, minInternal: Vec2, maxInternal: Vec2): set<Vec2>
    requires ValidDirs(steps)
  {
    if steps == [] then {}
    else
      var prefix := steps[..|steps| - 1];
      var newPos := WalkEnd(start, prefix, minInternal, maxInternal).Plus(Dir(steps[|steps| - 1]));
      WalkTrail(start, prefix, minInternal, maxInternal) +
      (if StrictlyInside(newPos, minInternal, maxInternal) then {newPos} else {})
  }

  /** The carved set: the union of the trails of all walks, each restarting at `start`. */
  function Carved(start: Vec2, walks: seq<seq<int>>, minInternal: Vec2, maxInternal: Vec2): set<Vec2>
    requires ValidWalks(walks)
  {
    if walks == [] then {}
    else Carved(start, walks[..|walks| - 1], minInternal, maxInternal) + WalkTrail(start, walks[|walks| - 1], minInternal, maxInternal)
  }

  /** A walk ends at its start or strictly inside the bounds, and never more
      steps away from the start than it took. */
  lemma {:induction false} WalkEndBounded(start: Vec2, steps: seq<int>, minInternal: Vec2, maxInternal: Vec2)
    requires ValidDirs(steps)
    ensures var e := WalkEnd(start, steps, minInternal, maxInternal);
            (e == start || StrictlyInside(e, minInternal, maxInternal)) && ManhattanDist(start, e) <= |steps|
  {
    if steps != [] {
      WalkEndBounded(start, steps[..|steps| - 1], minInternal, maxInternal);
    }
  }

  /** Every position a walk carves passes the strict bounds and lies within
      |steps| unit moves of the start. */
  lemma {:induction false} TrailBounded(start: Vec2, steps: seq<int>, minInternal: Vec2, maxInternal: Vec2)
    requires ValidDirs(steps)
    ensures forall p :: p in WalkTrail(start, steps, minInternal, maxInternal) ==>
              StrictlyInside(p, minInternal, maxInternal) && ManhattanDist(start, p) <= |steps|
  {
    if steps != [] {
      var prefix := steps[..|steps| - 1];
      TrailBounded(start, prefix, minInternal, maxInternal);
      WalkEndBounded(start, prefix, minInternal, maxInternal);
    }
  }

  /** Every carved position passes the walk's strict bounds, and lies within
      walkLength unit moves of the start. */
  lemma {:induction false} CarvedInside(start: Vec2, walks: seq<seq<int>>, minInternal: Vec2, maxInternal: Vec2, walkLength: nat)
    requires ValidWalks(walks)
    requires forall k :: 0 <= k < |walks| ==> |walks[k]| == walkLength
    ensures forall p :: p in Carved(start, walks, minInternal, maxInternal) ==>
              StrictlyInside(p, minInternal, maxInternal) && ManhattanDist(start, p) <= walkLength
  {
    if walks != [] {
      CarvedInside(start, walks[..|walks| - 1], minInternal, maxInternal, walkLength);
      TrailBounded(start, walks[|walks| - 1], minInternal, maxInternal);
    }
  }

  /** The carved set only grows: the walks done so far carve a subset of
      what all the walks carve. */
  lemma {:induction false} CarvedGrows(start: Vec2, walks: seq<seq<int>>, k: nat, minInternal: Vec2, maxInternal: Vec2)
    requires ValidWalks(walks) && k <= |walks|
    ensures Carved(start, walks[..k], minInternal, maxInternal) <= Carved(start, walks, minInternal, maxInternal)
    decreases |walks| - k
  {
    if k < |walks| {
      CarvedGrows(start, walks, k + 1, minInternal, maxInternal);
      assert walks[..k + 1][..k] == walks[..k];
    } else {
      assert walks[..k] == walks;
    }
  }

  /** The inner bounds of a room whose size is at most 3 on some axis admit
      no position, so such a room carves nothing. */
  lemma NarrowRoomCarvesNothing(lowerLeft: Vec2, maxSize: Vec2, walks: seq<seq<int>>)
    requires maxSize.x >= 0 && maxSize.y >= 0 && ValidWalks(walks)
    requires forall k :: 0 <= k < |walks| ==> |walks[k]| == maxSize.y
    requires maxSize.x <= 3 || maxSize.y <= 3
    ensures Carved(CenterOf(lowerLeft, maxSize), walks, lowerLeft,
                   Vec2(lowerLeft.x + maxSize.x - 2, lowerLeft.y + maxSize.y - 2)) == {}
  {
    var maxInternal := Vec2(lowerLeft.x + maxSize.x - 2, lowerLeft.y + maxSize.y - 2);
    CarvedInside(CenterOf(lowerLeft, maxSize), walks, lowerLeft, maxInternal, maxSize.y);
  }

  /** The tiles of `s` that are not walkable. */
  ghost function NonWalkable(s: seq<FloorNode>): set<FloorNode>
    reads set n | n in s
  {
    set n | n in s && !n.walkable
  }

  /** All neighbours and corners of the given tiles. */
  ghost function Adjacent(tiles: set<FloorNode>): set<FloorNode>
    reads tiles
  {
    (set t, n | t in tiles && n in t.neighbors :: n) + (set t, n | t in tiles && n in t.corners :: n)
  }

  /** The border ring of a set of floor tiles: their neighbours and corners
      that are not walkable. */
  ghost function BorderOf(tiles: set<FloorNode>): set<FloorNode>
    reads tiles, Adjacent(tiles)
  {
    set n | n in Adjacent(tiles) && !n.walkable
  }

  lemma BorderOfAdd(done: set<FloorNode>, t: FloorNode)
    ensures BorderOf(done + {t}) == BorderOf(done) + NonWalkable(t.neighbors) + NonWalkable(t.corners)
  {
    assert Adjacent(done + {t}) == Adjacent(done) + (set n | n in t.neighbors) + (set n | n in t.corners);
  }

  class Room {
    const lowerLeft: Vec2
    const maxSize: Vec2
    const center: Vec2
    // cut-offs for the random walk; one more column and row is kept free
    // at the upper end to leave hallway space
    const minInternalRoom: Vec2
    const maxInternalRoom: Vec2

    /** The positions carved by the random walk. */
    var internalTilePositions: set<Vec2>
    var roomFloorTiles: set<FloorNode>
    var borderFloorTiles: set<FloorNode>
    var roomApproximation: set<FloorNode>
    var approximationLowerLeft: Vec2
    var approximationUpperRight: Vec2

    /** `walks[k][i]` is the direction drawn for step i of walk k. */
    constructor (lowerLeft: Vec2, maxSize: Vec2, walks: seq<seq<int>>)
      requires maxSize.x >= 0 && maxSize.y >= 0
      requires |walks| == maxSize.x && ValidWalks(walks)
      requires forall k :: 0 <= k < |walks| ==> |walks[k]| == maxSize.y
      ensures this.lowerLeft == lowerLeft && this.maxSize == maxSize
      ensures minInternalRoom == lowerLeft
      ensures maxInternalRoom == Vec2(lowerLeft.x + maxSize.x - 2, lowerLeft.y + maxSize.y - 2)
      ensures center == CenterOf(lowerLeft, maxSize)
      ensures internalTilePositions == Carved(center, walks, minInternalRoom, maxInternalRoom)
      ensures roomFloorTiles == {} && borderFloorTiles == {} && roomApproximation == {}
    {
      this.lowerLeft := lowerLeft;
      this.maxSize := maxSize;
      minInternalRoom := Vec2(lowerLeft.x, lowerLeft.y);
      maxInternalRoom := Vec2(lowerLeft.x + maxSize.x - 2, lowerLeft.y + maxSize.y - 2);
      center := lowerLeft.Plus(Vec2(maxSize.x / 2, maxSize.y / 2));
      roomFloorTiles := {};
      borderFloorTiles := {};
      roomApproximation := {};
      new;
      internalTilePositions := RandomWalk(center, maxSize.x, maxSize.y, walks);
    }

    /** `iterations` walks, each restarting at startPos and taking walkLength
        steps; a step whose target fails the strict bounds is skipped. */
    method RandomWalk(startPos: Vec2, iterations: int, walkLength: int, walks: seq<seq<int>>) returns (path: set<Vec2>)
      requires iterations >= 0 && walkLength >= 0
      requires |walks| == iterations && ValidWalks(walks)
      requires forall k :: 0 <= k < |walks| ==> |walks[k]| == walkLength
      ensures path == Carved(startPos, walks, minInternalRoom, maxInternalRoom)
    {
      path := {};
      var k := 0;
      while k < iterations
        invariant 0 <= k <= iterations
        invariant path == Carved(startPos, walks[..k], minInternalRoom, maxInternalRoom)
      {
        var lastPos := startPos;
        var i := 0;
        ghost var before := path;
        while i < walkLength
          invariant 0 <= i <= walkLength
          invariant lastPos == WalkEnd(startPos, walks[k][..i], minInternalRoom, maxInternalRoom)
          invariant path == before + WalkTrail(startPos, walks[k][..i], minInternalRoom, maxInternalRoom)
        {
          assert walks[k][..i + 1][..i] == walks[k][..i];
          var newPos := lastPos.Plus(Dir(walks[k][i]));
          if newPos.x > minInternalRoom.x && newPos.x < maxInternalRoom.x && newPos.y > minInternalRoom.y && newPos.y < maxInternalRoom.y {
            path := path + {newPos};
            lastPos := newPos;
          }
          i := i + 1;
        }
        assert walks[k][..i] == walks[k];
        assert walks[..k + 1][..k] == walks[..k];
        k := k + 1;
      }
      assert walks[..k] == walks;
    }

    method AddInternalTile(tile: FloorNode)
      modifies this`roomFloorTiles
      ensures roomFloorTiles == old(roomFloorTiles) + {tile}
    {
      roomFloorTiles := roomFloorTiles + {tile};
    }

    method AddApproximationTile(tile: FloorNode)
      modifies this`roomApproximation
      ensures roomApproximation == old(roomApproximation) + {tile}
    {
      roomApproximation := roomApproximation + {tile};
    }

    /** The bounding box of the floor tiles' world positions, padded by 4 on
        every side. The extremes start from the 32-bit sentinels, so with no
        floor tiles the lower corner ends up above the upper one. */
    method Approximate()
      modifies this`approximationLowerLeft, this`approximationUpperRight
      ensures var lo := approximationLowerLeft.Plus(Vec2(4, 4));
              var hi := approximationUpperRight.Plus(Vec2(-4, -4));
              IsLowerExtreme(roomFloorTiles, lo) && IsUpperExtreme(roomFloorTiles, hi)
      ensures roomFloorTiles == {} ==>
                approximationLowerLeft == Vec2(INT_MAX - 4, INT_MAX - 4) &&
                approximationUpperRight == Vec2(INT_MIN + 4, INT_MIN + 4)
    {
      var minX, maxX, minZ, maxZ := INT_MAX, INT_MIN, INT_MAX, INT_MIN;
      var remaining := roomFloorTiles;
      while remaining != {}
        invariant remaining <= roomFloorTiles
        invariant IsLowerExtreme(roomFloorTiles - remaining, Vec2(minX, minZ))
        invariant IsUpperExtreme(roomFloorTiles - remaining, Vec2(maxX, maxZ))
        decreases remaining
      {
        var node :| node in remaining;
        var pos := node.GetWorldPos();
        if pos.x < minX {
          minX := pos.x;
        }
        if pos.x > maxX {
          maxX := pos.x;
        }
        if pos.y < minZ {
          minZ := pos.y;
        }
        if pos.y > maxZ {
          maxZ := pos.y;
        }
        remaining := remaining - {node};
      }
      assert roomFloorTiles - remaining == roomFloorTiles;
      approximationLowerLeft := Vec2(minX - 4, minZ - 4);
      approximationUpperRight := Vec2(maxX + 4, maxZ + 4);
    }

    /** One inner loop of CacheBorderTiles: the tiles of the list that are
        not walkable. */
    method CollectNonWalkable(tiles: seq<FloorNode>) returns (found: set<FloorNode>)
      ensures forall n :: n in found <==> n in tiles && !n.walkable
    {
      found := {};
      var i := 0;
      while i < |tiles|
        invariant 0 <= i <= |tiles|
        invariant found == NonWalkable(tiles[..i])
      {
        assert tiles[..i + 1] == tiles[..i] + [tiles[i]];
        if !tiles[i].GetWalkable() {
          found := found + {tiles[i]};
        }
        i := i + 1;
      }
      assert tiles[..i] == tiles;
    }

    /** Adds to the border set every neighbour and corner of a floor tile
        that is not walkable when the method runs. The tiles found are
        gathered first and added at the end; nothing the loop reads is
        changed by adding them. */
    method CacheBorderTiles()
      modifies this`borderFloorTiles
      ensures borderFloorTiles == old(borderFloorTiles) + old(BorderOf(roomFloorTiles))
    {
      var border: set<FloorNode> := {};
      var remaining := roomFloorTiles;
      while remaining != {}
        invariant remaining <= roomFloorTiles
        invariant border == BorderOf(roomFloorTiles - remaining)
        modifies {}
        decreases remaining
      {
        var floorTile :| floorTile in remaining;
        ghost var done := roomFloorTiles - remaining;
        var nbrs := CollectNonWalkable(floorTile.GetNeighbors());
        var crns := CollectNonWalkable(floorTile.GetCorners());
        assert border == BorderOf(done);
        BorderOfAdd(done, floorTile);
        border := border + nbrs + crns;
        assert roomFloorTiles - (remaining - {floorTile}) == done + {floorTile};
        remaining := remaining - {floorTile};
      }
      assert roomFloorTiles - remaining == roomFloorTiles;
      borderFloorTiles := borderFloorTiles + border;
    }
  }

  /** lo is the componentwise minimum of the INT_MAX sentinel and the tiles'
      world positions: a lower bound of all of them, reached by one of them
      unless it is the sentinel. */
  ghost predicate IsLowerExtreme(tiles: set<FloorNode>, lo: Vec2) {
    lo.x <= INT_MAX && lo.y <= INT_MAX &&
    (forall t :: t in tiles ==> lo.x <= t.worldPos.x && lo.y <= t.worldPos.y) &&
    (lo.x == INT_MAX || exists t :: t in tiles && t.worldPos.x == lo.x) &&
    (lo.y == INT_MAX || exists t :: t in tiles && t.worldPos.y == lo.y)
  }

  /** hi is the componentwise maximum of the INT_MIN sentinel and the tiles'
      world positions. */
  ghost predicate IsUpperExtreme(tiles: set<FloorNode>, hi: Vec2) {
    hi.x >= INT_MIN && hi.y >= INT_MIN &&
    (forall t :: t in tiles ==> t.worldPos.x <= hi.x && t.worldPos.y <= hi.y) &&
    (hi.x == INT_MIN || exists t :: t in tiles && t.worldPos.x == hi.x) &&
    (hi.y == INT_MIN || exists t :: t in tiles && t.worldPos.y == hi.y)
  }

  /** With at least one floor tile inside the sentinel range the padded box
      is non-empty: lower corner at most upper corner minus 8. */
  lemma ApproximationNonEmpty(tiles: set<FloorNode>, lo: Vec2, hi: Vec2)
    requires IsLowerExtreme(tiles, lo) && IsUpperExtreme(tiles, hi)
    requires exists t :: t in tiles && INT_MIN <= t.worldPos.x <= INT_MAX && INT_MIN <= t.worldPos.y <= INT_MAX
    ensures lo.x <= hi.x && lo.y <= hi.y
    ensures forall t :: t in tiles ==> lo.x <= t.worldPos.x <= hi.x && lo.y <= t.worldPos.y <= hi.y
  {
  }
}
