/** One cell of the dungeon grid (FloorNode): identity, walkable flag,
    cached adjacency and the scratch state of an A* search. */
module Tiles {
  import opened Common

  class FloorNode {
    // identity: fixed by the constructor, never changed afterwards
    const worldPos: Vec2
    const gridPos: Vec2
    var walkable: bool
    /** The owning room, as an index into the generator's room list. */
    var parentRoom: Option<nat>

    // adjacency caches, filled once the whole grid exists
    var neighbors: seq<FloorNode>
    var corners: seq<FloorNode>

    // A* scratch state
    var pathParent: FloorNode?
    var gCost: int
    var hCost: int

    constructor (worldPos: Vec2, walkable: bool, gridPos: Vec2)
      ensures this.worldPos == worldPos && this.gridPos == gridPos
      ensures this.walkable == walkable && parentRoom == None
      ensures neighbors == [] && corners == []
      ensures pathParent == null && gCost == 0 && hCost == 0
    {
      this.worldPos := worldPos;
      this.walkable := walkable;
      this.gridPos := gridPos;
      parentRoom := None;
      neighbors := [];
      corners := [];
      pathParent := null;
      gCost := 0;
      hCost := 0;
    }

    function GetWorldPos(): Vec2 { worldPos }

    function GetGridPos(): Vec2 { gridPos }

    method SetWalkable(walkable: bool)
      modifies this`walkable
      ensures GetWalkable() == walkable
    {
      this.walkable := walkable;
    }

    function GetWalkable(): bool
      reads this`walkable
    {
      walkable
    }

    method SetNeighbors(neighbors: seq<FloorNode>)
      modifies this`neighbors
      ensures GetNeighbors() == neighbors
    {
      this.neighbors := neighbors;
    }

    function GetNeighbors(): seq<FloorNode>
      reads this`neighbors
    {
      neighbors
    }

    method SetCorners(corners: seq<FloorNode>)
      modifies this`corners
      ensures GetCorners() == corners
    {
      this.corners := corners;
    }

    function GetCorners(): seq<FloorNode>
      reads this`corners
    {
      corners
    }

    method SetParentRoom(parentRoom: nat)
      modifies this`parentRoom
      ensures GetParentRoom() == Some(parentRoom)
    {
      this.parentRoom := Some(parentRoom);
    }

    function GetParentRoom(): Option<nat>
      reads this`parentRoom
    {
      parentRoom
    }

    method SetPathParent(pathParent: FloorNode)
      modifies this`pathParent
      ensures GetPathParent() == pathParent
    {
      this.pathParent := pathParent;
    }

    function GetPathParent(): FloorNode?
      reads this`pathParent
    {
      pathParent
    }

    method SetGCost(gCost: int)
      modifies this`gCost
      ensures GetGCost() == gCost
    {
      this.gCost := gCost;
    }

    function GetGCost(): int
      reads this`gCost
    {
      gCost
    }

    method SetHCost(hCost: int)
      modifies this`hCost
      ensures GetHCost() == hCost
    {
      this.hCost := hCost;
    }

    function GetHCost(): int
      reads this`hCost
    {
      hCost
    }

    function GetFCost(): int
      reads this`gCost, this`hCost
    {
      gCost + hCost
    }

    /** Manhattan distance between the two world positions. */
    function DistTo(other: FloorNode): (d: int)
      ensures d >= 0
      ensures d == 0 <==> worldPos == other.worldPos
    {
      Abs(worldPos.x - other.worldPos.x) + Abs(worldPos.y - other.worldPos.y)
    }
  }

  /** DistTo is a metric on world positions. */
  lemma DistToIsMetric(a: FloorNode, b: FloorNode, c: FloorNode)
    ensures a.DistTo(a) == 0
    ensures a.DistTo(b) == b.DistTo(a)
    ensures a.DistTo(c) <= a.DistTo(b) + b.DistTo(c)
  {
  }

  /** When world positions are an integer affine image of grid positions
      (origin plus tile diameter times grid coordinate), DistTo is the tile
      diameter times the Manhattan distance of the grid cells. */
  lemma DistToOnScaledGrid(a: FloorNode, b: FloorNode, origin: Vec2, diameter: nat)
    requires a.worldPos == Vec2(origin.x + diameter * a.gridPos.x, origin.y + diameter * a.gridPos.y)
    requires b.worldPos == Vec2(origin.x + diameter * b.gridPos.x, origin.y + diameter * b.gridPos.y)
    ensures a.DistTo(b) == diameter * (Abs(a.gridPos.x - b.gridPos.x) + Abs(a.gridPos.y - b.gridPos.y))
  {
    assert a.worldPos.x - b.worldPos.x == diameter * (a.gridPos.x - b.gridPos.x);
    assert a.worldPos.y - b.worldPos.y == diameter * (a.gridPos.y - b.gridPos.y);
    AbsScales(a.gridPos.x - b.gridPos.x, diameter);
    AbsScales(a.gridPos.y - b.gridPos.y, diameter);
  }

  lemma AbsScales(n: int, k: nat)
    ensures Abs(k * n) == k * Abs(n)
  {
    if n < 0 {
      assert k * n == -(k * -n);
    }
  }
}
