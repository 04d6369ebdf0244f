/** The generation pipeline (DungeonGenerator): partition the grid into
    rooms, stamp one FloorNode per cell, cache adjacency, plan the room
    links and carve a hallway along an A* path for each link. World
    positions are grid coordinates (tile diameter 1, origin at cell 0, 0),
    so NodeFromWorldPoint becomes a clamped array lookup. */
module Generation {
  import opened Common
  import opened Tiles
  import opened Links
  import opened Partition
  import opened Rooms
  import opened GridCells
  import opened PathFinding
  import opened Connectivity

  /** The cells of a room's allocated rectangle. */
  predicate InRoom(r: Room, p: Vec2) {
    Contains(Region(r.lowerLeft, r.maxSize), p)
  }

  /** The rooms' rectangles tile the grid: none is empty, each lies inside
      the grid, and every cell of the grid lies in exactly one of them. */
  ghost predicate RoomsTile(rooms: seq<Room>, size: Vec2) {
    && (forall k :: 0 <= k < |rooms| ==> rooms[k].maxSize.x >= 1 && rooms[k].maxSize.y >= 1)
    && (forall p :: InGrid(p, size) ==> exists k :: 0 <= k < |rooms| && InRoom(rooms[k], p))
    && (forall k, p :: 0 <= k < |rooms| && InRoom(rooms[k], p) ==> InGrid(p, size))
    && (forall k1, k2, p :: 0 <= k1 < |rooms| && 0 <= k2 < |rooms| && InRoom(rooms[k1], p) && InRoom(rooms[k2], p) ==> k1 == k2)
  }

  /** The direction draws of one room's random walk: walk i, step j takes
      draw base + i * size.y + j of the stream. */
  function WalksFrom(next: Stream, base: nat, size: Vec2): (walks: seq<seq<int>>)
    requires size.x >= 0 && size.y >= 0
    ensures |walks| == size.x && forall i :: 0 <= i < size.x ==> |walks[i]| == size.y
  {
    seq(size.x, i requires 0 <= i < size.x => seq(size.y, j requires 0 <= j < size.y => next(base + i * size.y + j, 0, 4)))
  }

  function Area(size: Vec2): (a: nat)
    requires size.x >= 0 && size.y >= 0
    ensures a == size.x * size.y
  {
    size.x * size.y
  }

  lemma WalksValid(next: Stream, base: nat, size: Vec2)
    requires HonestStream(next) && size.x >= 0 && size.y >= 0
    ensures ValidWalks(WalksFrom(next, base, size))
  {
    var walks := WalksFrom(next, base, size);
    forall i, j | 0 <= i < size.x && 0 <= j < size.y ensures 0 <= walks[i][j] < 4 {
      assert InRange(next(base + i * size.y + j, 0, 4), 0, 4);
    }
  }

  /** `new Room(lowerLeft, size)` for a leaf region, its walk drawing
      directions from walkRandom starting at draw `drawn`. */
  method NewRoom(region: Region, walkRandom: Stream, drawn: nat) returns (room: Room)
    requires HonestStream(walkRandom) && region.size.x >= 0 && region.size.y >= 0
    ensures fresh(room) && room.lowerLeft == region.lowerLeft && room.maxSize == region.size
    ensures room.center == CenterOf(room.lowerLeft, room.maxSize)
    ensures room.internalTilePositions ==
      Carved(room.center, WalksFrom(walkRandom, drawn, region.size), room.minInternalRoom, room.maxInternalRoom)
    ensures room.roomFloorTiles == {} && room.roomApproximation == {} && room.borderFloorTiles == {}
  {
    WalksValid(walkRandom, drawn, region.size);
    room := new Room(region.lowerLeft, region.size, WalksFrom(walkRandom, drawn, region.size));
  }

  /** The rooms built for the leaves, one per leaf in the given order, tile
      the grid when the leaves do. */
  lemma LeavesGiveRooms(nodes: seq<TreeNode>, leaves: set<nat>, size: Vec2, order: seq<nat>, rooms: seq<Room>)
    requires Tiling(nodes, leaves, Region(Vec2(0, 0), size))
    requires Distinct(order) && Elems(order) == leaves && Laid(rooms, nodes, order)
    requires forall l :: l in leaves ==> nodes[l].room.size.x >= 1 && nodes[l].room.size.y >= 1
    ensures RoomsTile(rooms, size)
  {
    var root := Region(Vec2(0, 0), size);
    forall p | InGrid(p, size) ensures exists k :: 0 <= k < |rooms| && InRoom(rooms[k], p) {
      assert Contains(root, p);
      var l :| l in leaves && Contains(nodes[l].room, p);
      assert l in Elems(order);
      var k :| 0 <= k < |order| && order[k] == l;
      assert InRoom(rooms[k], p);
    }
    forall k, p | 0 <= k < |rooms| && InRoom(rooms[k], p) ensures InGrid(p, size) {
      assert Contains(nodes[order[k]].room, p);
      assert Contains(root, p);
    }
    forall k1, k2, p | 0 <= k1 < |rooms| && 0 <= k2 < |rooms| && InRoom(rooms[k1], p) && InRoom(rooms[k2], p)
      ensures k1 == k2
    {
      assert Contains(nodes[order[k1]].room, p) && Contains(nodes[order[k2]].room, p);
    }
  }

  /** Room k was built for leaf order[k]: it has that leaf's rectangle,
      and its centre is the rectangle's centre. */
  ghost predicate Laid(rooms: seq<Room>, nodes: seq<TreeNode>, order: seq<nat>) {
    && |rooms| == |order|
    && (forall k :: 0 <= k < |order| ==> order[k] < |nodes|)
    && (forall k :: 0 <= k < |rooms| ==>
         && rooms[k].lowerLeft == nodes[order[k]].room.lowerLeft && rooms[k].maxSize == nodes[order[k]].room.size
         && rooms[k].maxSize.x >= 0 && rooms[k].maxSize.y >= 0
         && rooms[k].center == CenterOf(rooms[k].lowerLeft, rooms[k].maxSize))
  }

  lemma LaidSnoc(rooms: seq<Room>, nodes: seq<TreeNode>, order: seq<nat>, room: Room, leaf: nat)
    requires Laid(rooms, nodes, order) && leaf < |nodes|
    requires room.lowerLeft == nodes[leaf].room.lowerLeft && room.maxSize == nodes[leaf].room.size
    requires room.maxSize.x >= 0 && room.maxSize.y >= 0 && room.center == CenterOf(room.lowerLeft, room.maxSize)
    ensures Laid(rooms + [room], nodes, order + [leaf])
  { }

  /** No room has floor, border or approximation tiles yet. */
  ghost predicate Blank(rooms: seq<Room>)
    reads set k | 0 <= k < |rooms| :: rooms[k]
  {
    forall k :: 0 <= k < |rooms| ==>
      rooms[k].roomFloorTiles == {} && rooms[k].roomApproximation == {} && rooms[k].borderFloorTiles == {}
  }

  /** Taking one more leaf out of the remaining set extends the order. */
  lemma OrderSnoc(order: seq<nat>, leaves: set<nat>, remaining: set<nat>, leaf: nat)
    requires Distinct(order) && Elems(order) == leaves - remaining && leaf in remaining && remaining <= leaves
    ensures Distinct(order + [leaf]) && Elems(order + [leaf]) == leaves - (remaining - {leaf})
  {
    DistinctSnoc(order, leaf);
    assert leaves - (remaining - {leaf}) == (leaves - remaining) + {leaf};
  }

  lemma BlankSnoc(rooms: seq<Room>, room: Room)
    requires Blank(rooms) && room.roomFloorTiles == {} && room.roomApproximation == {} && room.borderFloorTiles == {}
    ensures Blank(rooms + [room])
  { }

  /** Every room's size is a size. */
  ghost predicate Sized(rooms: seq<Room>) {
    forall k :: 0 <= k < |rooms| ==> rooms[k].maxSize.x >= 0 && rooms[k].maxSize.y >= 0
  }

  /** What room r carves with the walks drawn from walkRandom starting at
      draw base. */
  ghost function DrawnCarve(walkRandom: Stream, base: nat, r: Room): set<Vec2>
    requires HonestStream(walkRandom) && r.maxSize.x >= 0 && r.maxSize.y >= 0
  {
    WalksValid(walkRandom, base, r.maxSize);
    Carved(r.center, WalksFrom(walkRandom, base, r.maxSize), r.minInternalRoom, r.maxInternalRoom)
  }

  /** Room k carves with the walks drawn from walkRandom starting at draw
      bases[k]; the rooms draw one after the other in list order, each
      taking one direction draw per step of each of its walks, and the
      last base is the first draw left over. */
  ghost predicate Walked(rooms: seq<Room>, walkRandom: Stream, bases: seq<nat>)
    requires HonestStream(walkRandom) && Sized(rooms)
    reads (set r | r in rooms)`internalTilePositions
  {
    && |bases| == |rooms| + 1 && bases[0] == 0
    && forall k {:trigger DrawnCarve(walkRandom, bases[k], rooms[k])} :: 0 <= k < |rooms| ==>
         && bases[k + 1] == bases[k] + Area(rooms[k].maxSize)
         && rooms[k].internalTilePositions == DrawnCarve(walkRandom, bases[k], rooms[k])
  }

  lemma SizedSnoc(rooms: seq<Room>, room: Room)
    requires Sized(rooms) && room.maxSize.x >= 0 && room.maxSize.y >= 0
    ensures Sized(rooms + [room])
  {
    forall k | 0 <= k < |rooms| + 1
      ensures (rooms + [room])[k].maxSize.x >= 0 && (rooms + [room])[k].maxSize.y >= 0
    {
      if k < |rooms| { assert (rooms + [room])[k] == rooms[k]; }
    }
  }

  /** Appending a room that carves from the next free draw keeps the list
      walked. */
  lemma WalkedSnoc(rooms: seq<Room>, room: Room, walkRandom: Stream, bases: seq<nat>)
    requires HonestStream(walkRandom) && Sized(rooms) && room.maxSize.x >= 0 && room.maxSize.y >= 0
    requires Walked(rooms, walkRandom, bases)
    requires room.internalTilePositions == DrawnCarve(walkRandom, bases[|rooms|], room)
    ensures Sized(rooms + [room]) && Walked(rooms + [room], walkRandom, bases + [bases[|rooms|] + Area(room.maxSize)])
  {
    SizedSnoc(rooms, room);
    var rooms', bases' := rooms + [room], bases + [bases[|rooms|] + Area(room.maxSize)];
    forall k | 0 <= k < |rooms'|
      ensures bases'[k + 1] == bases'[k] + Area(rooms'[k].maxSize)
      ensures rooms'[k].internalTilePositions == DrawnCarve(walkRandom, bases'[k], rooms'[k])
    {
      if k < |rooms| {
        assert rooms'[k] == rooms[k] && bases'[k] == bases[k] && bases'[k + 1] == bases[k + 1];
        assert rooms[k].internalTilePositions == DrawnCarve(walkRandom, bases[k], rooms[k]);
      }
    }
  }

  /** The room list built so far by the leaf loop of CreateFloor: room k
      was laid for leaf order[k], has no tiles yet, and carved with the
      walks drawn right after those of the rooms before it. */
  ghost predicate Built(rooms: seq<Room>, nodes: seq<TreeNode>, order: seq<nat>, walkRandom: Stream, bases: seq<nat>)
    requires HonestStream(walkRandom)
    reads set k | 0 <= k < |rooms| :: rooms[k]
  {
    && Laid(rooms, nodes, order) && Blank(rooms) && Sized(rooms) && Walked(rooms, walkRandom, bases)
  }

  lemma BuiltSnoc(rooms: seq<Room>, nodes: seq<TreeNode>, order: seq<nat>, walkRandom: Stream, bases: seq<nat>,
                  room: Room, leaf: nat, next: nat)
    requires HonestStream(walkRandom) && Built(rooms, nodes, order, walkRandom, bases) && leaf < |nodes|
    requires room.lowerLeft == nodes[leaf].room.lowerLeft && room.maxSize == nodes[leaf].room.size
    requires room.maxSize.x >= 0 && room.maxSize.y >= 0 && room.center == CenterOf(room.lowerLeft, room.maxSize)
    requires room.roomFloorTiles == {} && room.roomApproximation == {} && room.borderFloorTiles == {}
    requires room.internalTilePositions == DrawnCarve(walkRandom, bases[|rooms|], room)
    requires next == bases[|rooms|] + Area(room.maxSize)
    ensures Built(rooms + [room], nodes, order + [leaf], walkRandom, bases + [next])
  {
    LaidSnoc(rooms, nodes, order, room, leaf);
    BlankSnoc(rooms, room);
    WalkedSnoc(rooms, room, walkRandom, bases);
  }

  /** The BSP of the whole dungeon, then one room per leaf: the rooms tile
      the grid, and each carves with its own stretch of the walk stream. */
  method PartitionedRooms(size: Vec2, minRoomSize: Vec2, partitionRandom: Stream, walkRandom: Stream)
    returns (rooms: seq<Room>, ghost bases: seq<nat>)
    requires ValidMinSize(minRoomSize) && HonestStream(partitionRandom) && HonestStream(walkRandom)
    requires size.x >= 1 && size.y >= 1
    ensures RoomsTile(rooms, size) && |rooms| >= 1
    ensures forall k :: 0 <= k < |rooms| ==> rooms[k].center == CenterOf(rooms[k].lowerLeft, rooms[k].maxSize)
    ensures forall k :: 0 <= k < |rooms| ==> fresh(rooms[k])
    ensures Blank(rooms) && Sized(rooms) && Walked(rooms, walkRandom, bases)
  {
    var root := Region(Vec2(0, 0), size);
    var bsp := new BSP(root, minRoomSize, partitionRandom);
    var leaves := bsp.GetLeaves();
    var nodes := bsp.nodes;
    assert forall l :: l in leaves ==> l < |nodes| && nodes[l].room.size.x >= 1 && nodes[l].room.size.y >= 1;
    ghost var order;
    rooms, order, bases := RoomsFromLeaves(nodes, leaves, walkRandom);
    LeavesGiveRooms(nodes, leaves, size, order, rooms);
    assert InGrid(Vec2(0, 0), size);
  }

  /** The leaf loop of CreateFloor: one new room per leaf, in the
      (unspecified) order the leaf set is enumerated, each carving with
      the walk draws right after those of the rooms before it. */
  method RoomsFromLeaves(nodes: seq<TreeNode>, leaves: set<nat>, walkRandom: Stream)
    returns (rooms: seq<Room>, ghost order: seq<nat>, ghost bases: seq<nat>)
    requires HonestStream(walkRandom)
    requires forall l :: l in leaves ==> l < |nodes| && nodes[l].room.size.x >= 1 && nodes[l].room.size.y >= 1
    ensures Distinct(order) && Elems(order) == leaves
    ensures forall k :: 0 <= k < |rooms| ==> fresh(rooms[k])
    ensures Laid(rooms, nodes, order) && Blank(rooms) && Sized(rooms) && Walked(rooms, walkRandom, bases)
  {
    rooms := [];
    var remaining := leaves;
    order := [];
    bases := [0];
    var drawn: nat := 0;
    while remaining != {}
      invariant remaining <= leaves && |order| == |rooms|
      invariant Distinct(order) && Elems(order) == leaves - remaining
      invariant forall k :: 0 <= k < |rooms| ==> fresh(rooms[k])
      invariant Built(rooms, nodes, order, walkRandom, bases) && drawn == bases[|rooms|]
      decreases remaining
    {
      var leaf: nat :| leaf in remaining;
      var region := nodes[leaf].room;
      var room := NewRoom(region, walkRandom, drawn);
      drawn := drawn + Area(region.size);
      BuiltSnoc(rooms, nodes, order, walkRandom, bases, room, leaf, drawn);
      bases := bases + [drawn];
      rooms := rooms + [room];
      OrderSnoc(order, leaves, remaining, leaf);
      order := order + [leaf];
      remaining := remaining - {leaf};
    }
  }

  /** Distinct positions in the list are distinct rooms: their rectangles
      are disjoint and not empty. */
  lemma RoomsDistinct(rooms: seq<Room>, size: Vec2)
    requires RoomsTile(rooms, size)
    ensures forall k1, k2 :: 0 <= k1 < k2 < |rooms| ==> rooms[k1] != rooms[k2]
  {
    forall k1, k2 | 0 <= k1 < k2 < |rooms| ensures rooms[k1] != rooms[k2] {
      assert InRoom(rooms[k1], rooms[k1].lowerLeft);
    }
  }

  /** The planner's start index, drawn as `Random.Range(0, n)`. */
  function PrimsFirst(next: Stream, n: nat): (first: nat)
    requires HonestStream(next) && n >= 1
    ensures first < n
  {
    var v := next(0, 0, n);
    assert InRange(v, 0, n);
    v
  }

  /** The planner's draws, iteration k taking the draws 4k + 1 to 4k + 4 of
      the stream: the branch roll, the target index among the n - k - 1
      unvisited centres, the extra-link roll and the extra target index. */
  function PrimsRolls(next: Stream, n: nat): (rolls: seq<Roll>)
    ensures |rolls| == n
  {
    seq(n, k requires 0 <= k < n =>
      Roll(next(4 * k + 1, 0, 100), next(4 * k + 2, 0, n - k - 1), next(4 * k + 3, 0, 100), next(4 * k + 4, 0, n - k - 1)))
  }

  /** An honest stream yields draws in the ranges the planner's calls ask for. */
  lemma PrimsRollsValid(next: Stream, n: nat)
    requires HonestStream(next)
    ensures ValidRolls(n, PrimsRolls(next, n))
  {
    var rolls := PrimsRolls(next, n);
    forall k | 0 <= k < n
      ensures 0 <= rolls[k].branch < 100 && 0 <= rolls[k].second < 100
      ensures InRange(rolls[k].pick, 0, n - k - 1) && InRange(rolls[k].extra, 0, n - k - 1)
    {
      assert InRange(next(4 * k + 1, 0, 100), 0, 100);
      assert InRange(next(4 * k + 2, 0, n - k - 1), 0, n - k - 1);
      assert InRange(next(4 * k + 3, 0, 100), 0, 100);
      assert InRange(next(4 * k + 4, 0, n - k - 1), 0, n - k - 1);
    }
  }

  /** How CreateHallways ends: every link carved; stopped at link `at`,
      whose second centre is null; or failed at link `at`, for which A*
      found no path (the source then hands null to `UnionWith`, which
      throws, so nothing after it runs). */
  datatype Outcome = Completed | Stopped(at: nat) | Failed(at: nat)

  /** The nodes of a list of walks. */
  function PathsUnion(walks: seq<seq<FloorNode>>): (u: set<FloorNode>)
    ensures forall j, t :: 0 <= j < |walks| && t in walks[j] ==> t in u
  {
    if |walks| == 0 then {} else PathsUnion(walks[..|walks| - 1]) + Nodes(walks[|walks| - 1])
  }

  /** Every node of the union lies on one of the walks. */
  lemma {:induction false} PathsUnionMembers(walks: seq<seq<FloorNode>>, t: FloorNode)
    requires t in PathsUnion(walks)
    ensures exists j :: 0 <= j < |walks| && t in walks[j]
  {
    var p := walks[..|walks| - 1];
    if t in PathsUnion(p) {
      PathsUnionMembers(p, t);
      var j :| 0 <= j < |p| && t in p[j];
      assert walks[j] == p[j];
    } else {
      assert t in walks[|walks| - 1];
    }
  }

  /** Adding a walk adds its nodes. */
  lemma PathsUnionSnoc(walks: seq<seq<FloorNode>>, w: seq<FloorNode>)
    ensures PathsUnion(walks + [w]) == PathsUnion(walks) + Nodes(w)
  {
    assert (walks + [w])[..|walks|] == walks;
  }

  /** n belongs to one of the rooms whose approximations apx lists. */
  ghost predicate OwnedIn(n: FloorNode, apx: seq<set<FloorNode>>)
    reads n`parentRoom
  {
    n.parentRoom.Some? && n.parentRoom.value < |apx|
  }

  /** Every node of some approximation of apx. */
  ghost function UnionOf(apx: seq<set<FloorNode>>): set<FloorNode> {
    set k, t | 0 <= k < |apx| && t in apx[k] :: t
  }

  /** The exclusion set of a link from a to b: every node of some room's
      approximation, minus every node of the approximations of the rooms a
      and b belong to. The approximations are padded, so the two end rooms'
      boxes can take nodes of a neighbouring room out of the set. */
  ghost function Exclusion(a: FloorNode, b: FloorNode, apx: seq<set<FloorNode>>): set<FloorNode>
    requires OwnedIn(a, apx) && OwnedIn(b, apx)
    reads a`parentRoom, b`parentRoom
  {
    UnionOf(apx) - apx[a.parentRoom.value] - apx[b.parentRoom.value]
  }

  /** Both centres of l that are set lie in U and belong to a room. */
  ghost predicate LinkEnds(l: RoomLink, U: set<FloorNode>, apx: seq<set<FloorNode>>)
    reads {l.firstCenter, l.secondCenter}`parentRoom
  {
    && l.firstCenter in U && OwnedIn(l.firstCenter, apx)
    && (l.secondCenter != null ==> l.secondCenter in U && OwnedIn(l.secondCenter, apx))
  }

  /** w is the hallway carved for link l: a walk over U from the link's
      first centre to its second that avoids the link's exclusion set. */
  ghost predicate Hallway(l: RoomLink, w: seq<FloorNode>, U: set<FloorNode>, apx: seq<set<FloorNode>>)
    reads {l.firstCenter, l.secondCenter}`parentRoom, U`neighbors
  {
    && l.secondCenter != null && OwnedIn(l.firstCenter, apx) && OwnedIn(l.secondCenter, apx)
    && IsWalk(w, Exclusion(l.firstCenter, l.secondCenter, apx), U)
    && w[0] == l.firstCenter && w[|w| - 1] == l.secondCenter
  }

  /** A* gave up on link l: cut holds the first centre, not the second,
      and every neighbour of a node of cut is in cut or excluded. */
  ghost predicate Blocked(l: RoomLink, cut: set<FloorNode>, apx: seq<set<FloorNode>>)
    reads {l.firstCenter, l.secondCenter}`parentRoom, cut`neighbors
  {
    && l.secondCenter != null && OwnedIn(l.firstCenter, apx) && OwnedIn(l.secondCenter, apx)
    && Separates(cut, l.firstCenter, l.secondCenter, Exclusion(l.firstCenter, l.secondCenter, apx))
  }

  /** What the plan over the room centres means for CreateHallways: when
      the i-th centre is a node of U that belongs to room i, every link end
      is such a node; with two or more centres every link has a second end,
      and with one centre the first link has none. */
  lemma PlanEnds(p: Prims, first: nat, rolls: seq<Roll>, U: set<FloorNode>, apx: seq<set<FloorNode>>)
    requires p.Planned(first, rolls) && ValidRolls(|p.allNodes|, rolls) && |apx| == |p.allNodes|
    requires forall k :: 0 <= k < |p.allNodes| ==> p.allNodes[k] in U && p.allNodes[k].parentRoom == Some(k)
    ensures forall l :: l in p.roomLinks ==> LinkEnds(l, U, apx)
    ensures |p.allNodes| >= 2 ==> forall l :: l in p.roomLinks ==> l.secondCenter != null
    ensures |p.allNodes| == 1 ==> |p.roomLinks| >= 1 && p.roomLinks[0].secondCenter == null
  {
    var n := |p.allNodes|;
    PlannedEnds(p, first, rolls);
    PlannedOutcome(p, first, rolls);
    forall l | l in p.roomLinks
      ensures LinkEnds(l, U, apx)
    {
      var a :| 0 <= a < n && p.allNodes[a] == l.firstCenter;
      if l.secondCenter != null {
        var b :| 0 <= b < n && p.allNodes[b] == l.secondCenter;
      }
    }
  }

  /** The position of cell c in the order InstantiateFloor visits the
      grid: row by row (z outer), each row left to right (x inner). */
  function RowIndex(c: Vec2, width: int): int {
    c.y * width + c.x
  }

  class DungeonGenerator {
    const dungeonSize: Vec2
    const minRoomSize: Vec2
    const randomRoomConnectionChance: int
    const farthestRoomConnectionChance: int
    const secondRoomConnectionChance: int

    var dungeonFloor: array2<FloorNode?>
    var roomsList: seq<Room>
    var roomsTileSet: set<FloorNode>
    var hallwaysTileSet: set<FloorNode>
    /** The nodes the stamping loops have created (specification only). */
    ghost var made: set<FloorNode>
    /** Where each room's walks start on the walk stream, and the first
        draw left after the last room (specification only). */
    ghost var walkBases: seq<nat>
    var prims: Prims?

    /** The serialized fields the scene sets before Start runs: the
        dungeon's size in tiles, the BSP's minimum leaf size and the three
        connection chances, each a percentage. Nothing is generated yet. */
    constructor (dungeonSize: Vec2, minRoomSize: Vec2, randomRoomConnectionChance: int,
                 farthestRoomConnectionChance: int, secondRoomConnectionChance: int)
      requires 0 <= randomRoomConnectionChance <= 100 && 0 <= farthestRoomConnectionChance <= 100
      requires 0 <= secondRoomConnectionChance <= 100
      ensures this.dungeonSize == dungeonSize && this.minRoomSize == minRoomSize
      ensures this.randomRoomConnectionChance == randomRoomConnectionChance
      ensures this.farthestRoomConnectionChance == farthestRoomConnectionChance
      ensures this.secondRoomConnectionChance == secondRoomConnectionChance
      ensures roomsList == [] && roomsTileSet == {} && hallwaysTileSet == {} && prims == null
    {
      this.dungeonSize := dungeonSize;
      this.minRoomSize := minRoomSize;
      this.randomRoomConnectionChance := randomRoomConnectionChance;
      this.farthestRoomConnectionChance := farthestRoomConnectionChance;
      this.secondRoomConnectionChance := secondRoomConnectionChance;
      dungeonFloor := new FloorNode?[0, 0];
      roomsList := [];
      roomsTileSet := {};
      hallwaysTileSet := {};
      made := {};
      walkBases := [0];
      prims := null;
    }

    /** The grid array has the dungeon's size. */
    predicate Shaped()
      reads this`dungeonFloor
    {
      dungeonFloor.Length0 == dungeonSize.x && dungeonFloor.Length1 == dungeonSize.y
    }

    /** CreateFloor, part one: the BSP leaves become the room list, in the
        (unspecified) order the leaf set is enumerated. */
    method PartitionRooms(partitionRandom: Stream, walkRandom: Stream)
      requires ValidMinSize(minRoomSize) && HonestStream(partitionRandom) && HonestStream(walkRandom)
      requires dungeonSize.x >= 1 && dungeonSize.y >= 1 && roomsList == []
      modifies this`roomsList, this`walkBases
      ensures RoomsTile(roomsList, dungeonSize) && |roomsList| >= 1
      ensures forall k :: 0 <= k < |roomsList| ==> roomsList[k].center == CenterOf(roomsList[k].lowerLeft, roomsList[k].maxSize)
      ensures forall k :: 0 <= k < |roomsList| ==> fresh(roomsList[k])
      ensures forall k :: 0 <= k < |roomsList| ==>
        roomsList[k].roomFloorTiles == {} && roomsList[k].roomApproximation == {} && roomsList[k].borderFloorTiles == {}
      ensures Carves(walkRandom)
    {
      var rooms, bases := PartitionedRooms(dungeonSize, minRoomSize, partitionRandom, walkRandom);
      roomsList, walkBases := rooms, bases;
    }

    /** Cell c holds the node made for room k: grid and world position c,
        created by the stamping loops, parent room k, walkable exactly when the room's walk carved c, and
        listed among the room's floor tiles exactly when walkable. */
    ghost predicate Stamped(c: Vec2, k: nat)
      requires Shaped() && InGrid(c, dungeonSize) && k < |roomsList|
      reads this`dungeonFloor, this`roomsList, this`made, dungeonFloor, dungeonFloor[c.x, c.y], roomsList[k]
    {
      var n := dungeonFloor[c.x, c.y];
      && n != null && n in made && n.gridPos == c && n.worldPos == c && n.parentRoom == Some(k)
      && n.walkable == (c in roomsList[k].internalTilePositions)
      && (n.walkable <==> n in roomsList[k].roomFloorTiles)
    }

    /** Tile t sits in the grid cell of its grid position. */
    ghost predicate Placed(t: FloorNode)
      reads this`dungeonFloor, dungeonFloor
    {
      Shaped() && InGrid(t.gridPos, dungeonSize) && dungeonFloor[t.gridPos.x, t.gridPos.y] == t
    }

    /** The inner body of the stamping loops: a new node for cell c of room k. */
    method StampCell(k: nat, room: Room, c: Vec2)
      requires Shaped() && k < |roomsList| && room == roomsList[k] && InGrid(c, dungeonSize)
      requires room.roomFloorTiles <= roomsTileSet
      modifies dungeonFloor, room`roomFloorTiles, this`roomsTileSet, this`made
      ensures Stamped(c, k)
      ensures forall c', k': nat :: InGrid(c', dungeonSize) && c' != c && k' < |roomsList| && old(Stamped(c', k')) ==> Stamped(c', k')
      ensures forall t: FloorNode :: t.gridPos != c && old(allocated(t)) && old(Placed(t)) ==> Placed(t)
      ensures old(room.roomFloorTiles) <= room.roomFloorTiles
      ensures forall t :: t in room.roomFloorTiles && t !in old(room.roomFloorTiles) ==> t.gridPos == c && Placed(t)
      ensures roomsTileSet == old(roomsTileSet) + room.roomFloorTiles
      ensures old(made) <= made && fresh(made - old(made))
    {
      var state := false;
      if c in room.internalTilePositions {
        state := true;
      }
      var node := new FloorNode(c, state, c);
      dungeonFloor[c.x, c.y] := node;
      made := made + {node};
      node.SetParentRoom(k);
      if state {
        room.AddInternalTile(node);
      }
      roomsTileSet := roomsTileSet + room.roomFloorTiles;
    }

    /** The inner stamping loop: row z of room k, left to right. */
    method StampRow(k: nat, room: Room, z: int)
      requires Shaped() && k < |roomsList| && room == roomsList[k] && RoomsTile(roomsList, dungeonSize)
      requires room.lowerLeft.y <= z < room.lowerLeft.y + room.maxSize.y
      requires room.roomFloorTiles <= roomsTileSet
      modifies dungeonFloor, room`roomFloorTiles, this`roomsTileSet, this`made
      ensures forall x :: room.lowerLeft.x <= x < room.lowerLeft.x + room.maxSize.x ==>
        InGrid(Vec2(x, z), dungeonSize) && Stamped(Vec2(x, z), k)
      ensures forall c', k': nat ::
        InGrid(c', dungeonSize) && !(c'.y == z && InRoom(room, c')) && k' < |roomsList| && old(Stamped(c', k')) ==> Stamped(c', k')
      ensures forall t: FloorNode :: !(t.gridPos.y == z && InRoom(room, t.gridPos)) && old(allocated(t)) && old(Placed(t)) ==> Placed(t)
      ensures old(room.roomFloorTiles) <= room.roomFloorTiles
      ensures forall t :: t in room.roomFloorTiles && t !in old(room.roomFloorTiles) ==>
        t.gridPos.y == z && InRoom(room, t.gridPos) && Placed(t)
      ensures roomsTileSet == old(roomsTileSet) + room.roomFloorTiles
      ensures old(made) <= made && fresh(made - old(made))
    {
      var lo := room.lowerLeft.x;
      var x := lo;
      while x < lo + room.maxSize.x
        invariant lo <= x <= lo + room.maxSize.x
        invariant forall x' :: lo <= x' < x ==> InGrid(Vec2(x', z), dungeonSize) && Stamped(Vec2(x', z), k)
        invariant forall c', k': nat ::
          InGrid(c', dungeonSize) && !(c'.y == z && lo <= c'.x < x) && k' < |roomsList| && old(Stamped(c', k')) ==> Stamped(c', k')
        invariant forall t: FloorNode :: !(t.gridPos.y == z && lo <= t.gridPos.x < x) && old(allocated(t)) && old(Placed(t)) ==> Placed(t)
        invariant old(room.roomFloorTiles) <= room.roomFloorTiles
        invariant forall t :: t in room.roomFloorTiles && t !in old(room.roomFloorTiles) ==>
          t.gridPos.y == z && lo <= t.gridPos.x < x && Placed(t)
        invariant roomsTileSet == old(roomsTileSet) + room.roomFloorTiles
        invariant old(made) <= made && fresh(made - old(made))
      {
        var c := Vec2(x, z);
        assert InRoom(roomsList[k], c);
        StampCell(k, room, c);
        x := x + 1;
      }
    }

    /** The two stamping loops for one room: its rectangle, row by row. */
    method StampRoom(k: nat, room: Room)
      requires Shaped() && k < |roomsList| && room == roomsList[k] && RoomsTile(roomsList, dungeonSize)
      requires room.roomFloorTiles <= roomsTileSet
      modifies dungeonFloor, room`roomFloorTiles, this`roomsTileSet, this`made
      ensures forall c :: InGrid(c, dungeonSize) && InRoom(room, c) ==> Stamped(c, k)
      ensures forall c', k': nat ::
        InGrid(c', dungeonSize) && !InRoom(room, c') && k' < |roomsList| && old(Stamped(c', k')) ==> Stamped(c', k')
      ensures forall t: FloorNode :: !InRoom(room, t.gridPos) && old(allocated(t)) && old(Placed(t)) ==> Placed(t)
      ensures old(room.roomFloorTiles) <= room.roomFloorTiles
      ensures forall t :: t in room.roomFloorTiles && t !in old(room.roomFloorTiles) ==> InRoom(room, t.gridPos) && Placed(t)
      ensures roomsTileSet == old(roomsTileSet) + room.roomFloorTiles
      ensures old(made) <= made && fresh(made - old(made))
    {
      var lo := room.lowerLeft.y;
      var z := lo;
      while z < lo + room.maxSize.y
        invariant lo <= z <= lo + room.maxSize.y
        invariant forall c :: InGrid(c, dungeonSize) && InRoom(room, c) && c.y < z ==> Stamped(c, k)
        invariant forall c', k': nat ::
          InGrid(c', dungeonSize) && !(InRoom(room, c') && c'.y < z) && k' < |roomsList| && old(Stamped(c', k')) ==> Stamped(c', k')
        invariant forall t: FloorNode :: !(InRoom(room, t.gridPos) && t.gridPos.y < z) && old(allocated(t)) && old(Placed(t)) ==> Placed(t)
        invariant old(room.roomFloorTiles) <= room.roomFloorTiles
        invariant forall t :: t in room.roomFloorTiles && t !in old(room.roomFloorTiles) ==>
          InRoom(room, t.gridPos) && t.gridPos.y < z && Placed(t)
        invariant roomsTileSet == old(roomsTileSet) + room.roomFloorTiles
        invariant old(made) <= made && fresh(made - old(made))
      {
        StampRow(k, room, z);
        forall c | InGrid(c, dungeonSize) && InRoom(room, c) && c.y == z ensures Stamped(c, k) {
          assert c == Vec2(c.x, z);
        }
        z := z + 1;
      }
    }

    /** One iteration of the stamping loop over the room list: room k is
        stamped, and what earlier rooms stamped is kept, because the
        rectangles are disjoint. */
    method StampNext(k: nat, room: Room)
      requires Shaped() && k < |roomsList| && room == roomsList[k] && RoomsTile(roomsList, dungeonSize)
      requires room.roomFloorTiles == {}
      modifies dungeonFloor, room`roomFloorTiles, this`roomsTileSet, this`made
      ensures forall c :: InGrid(c, dungeonSize) && InRoom(room, c) ==> Stamped(c, k)
      ensures forall k': nat, c ::
        k' < |roomsList| && k' != k && InGrid(c, dungeonSize) && InRoom(roomsList[k'], c) && old(Stamped(c, k')) ==> Stamped(c, k')
      ensures forall k', t: FloorNode ::
        0 <= k' < |roomsList| && k' != k && InRoom(roomsList[k'], t.gridPos) && old(allocated(t)) && old(Placed(t)) ==> Placed(t)
      ensures forall t :: t in room.roomFloorTiles ==> InRoom(room, t.gridPos) && Placed(t) && t.parentRoom == Some(k)
      ensures forall k' :: 0 <= k' < |roomsList| && k' != k ==> roomsList[k'].roomFloorTiles == old(roomsList[k'].roomFloorTiles)
      ensures roomsTileSet == old(roomsTileSet) + room.roomFloorTiles
      ensures old(made) <= made && fresh(made - old(made))
    {
      RoomsDistinct(roomsList, dungeonSize);
      StampRoom(k, room);
      forall t | t in room.roomFloorTiles ensures t.parentRoom == Some(k) {
        assert Stamped(t.gridPos, k);
      }
    }

    /** The stamping part of CreateFloor: every room's rectangle, in list
        order. Afterwards every cell holds a node made for the room whose
        rectangle contains it, each room's floor tiles are exactly its
        walkable nodes, and roomsTileSet is the union of those. */
    method StampRooms()
      requires Shaped() && RoomsTile(roomsList, dungeonSize) && Blank(roomsList) && roomsTileSet == {} && made == {}
      modifies dungeonFloor, (set r | r in roomsList)`roomFloorTiles, this`roomsTileSet, this`made
      ensures fresh(made)
      ensures forall k: nat, c :: k < |roomsList| && InGrid(c, dungeonSize) && InRoom(roomsList[k], c) ==> Stamped(c, k)
      ensures forall k, t :: 0 <= k < |roomsList| && t in roomsList[k].roomFloorTiles ==> InRoom(roomsList[k], t.gridPos) && Placed(t)
      ensures forall k, t :: 0 <= k < |roomsList| && t in roomsList[k].roomFloorTiles ==> t in roomsTileSet
      ensures forall t :: t in roomsTileSet ==>
        t.parentRoom.Some? && t.parentRoom.value < |roomsList| && t in roomsList[t.parentRoom.value].roomFloorTiles
    {
      var k := 0;
      while k < |roomsList|
        invariant 0 <= k <= |roomsList|
        invariant forall k': nat, c :: k' < k && InGrid(c, dungeonSize) && InRoom(roomsList[k'], c) ==> Stamped(c, k')
        invariant fresh(made)
        invariant forall k', t :: 0 <= k' < k && t in roomsList[k'].roomFloorTiles ==> InRoom(roomsList[k'], t.gridPos) && Placed(t)
        invariant forall k' :: k <= k' < |roomsList| ==> roomsList[k'].roomFloorTiles == {}
        invariant forall k', t :: 0 <= k' < k && t in roomsList[k'].roomFloorTiles ==> t in roomsTileSet
        invariant forall t :: t in roomsTileSet ==>
          t.parentRoom.Some? && t.parentRoom.value < k && t in roomsList[t.parentRoom.value].roomFloorTiles
      {
        var room := roomsList[k];
        StampNext(k, room);
        k := k + 1;
      }
    }

    /** The node at c belongs to the room whose rectangle contains c. */
    ghost predicate Owned(c: Vec2)
      requires Shaped() && InGrid(c, dungeonSize)
      reads this`dungeonFloor, this`roomsList, dungeonFloor, {dungeonFloor[c.x, c.y]}`parentRoom
    {
      var n := dungeonFloor[c.x, c.y];
      n != null && n.parentRoom.Some? && n.parentRoom.value < |roomsList| && InRoom(roomsList[n.parentRoom.value], c)
    }

    /** Every cell holds a node created by the stamping loops and owned by
        the room containing the cell. */
    ghost predicate Owners()
      requires Shaped()
      reads this`dungeonFloor, this`roomsList, this`made, dungeonFloor, made`parentRoom
    {
      forall c :: InGrid(c, dungeonSize) ==> dungeonFloor[c.x, c.y] in made && Owned(c)
    }

    /** Grid cell c is walkable exactly when the room that owns it carved it. */
    ghost predicate CellCarved(c: Vec2)
      requires Shaped() && InGrid(c, dungeonSize) && dungeonFloor[c.x, c.y] in made && Owned(c)
      reads this`dungeonFloor, this`roomsList, this`made, dungeonFloor, made`parentRoom, made`walkable
      reads (set r | r in roomsList)`internalTilePositions
    {
      var n := dungeonFloor[c.x, c.y];
      n.walkable == (c in roomsList[n.parentRoom.value].internalTilePositions)
    }

    /** Every grid cell is walkable exactly when the room that owns it carved it. */
    ghost predicate WalkableCarved()
      requires Shaped() && Owners()
      reads this`dungeonFloor, this`roomsList, this`made, dungeonFloor, made`parentRoom, made`walkable
      reads (set r | r in roomsList)`internalTilePositions
    {
      forall c {:trigger CellCarved(c)} :: InGrid(c, dungeonSize) ==> CellCarved(c)
    }

    /** Each room of the list carved with its own stretch of the walk stream. */
    ghost predicate Carves(walkRandom: Stream)
      reads this`roomsList, this`walkBases, (set r | r in roomsList)`internalTilePositions
    {
      HonestStream(walkRandom) && Sized(roomsList) && Walked(roomsList, walkRandom, walkBases)
    }

    /** The walks keep a row of wall round every room: a walkable cell lies strictly inside
      * its room's internal rectangle, within the walk length of the room's centre. */
    lemma WalkableInside(walkRandom: Stream)
      requires Shaped() && Owners() && WalkableCarved()
      requires Carves(walkRandom)
      ensures forall c :: InGrid(c, dungeonSize) && dungeonFloor[c.x, c.y].walkable ==>
        var r := roomsList[dungeonFloor[c.x, c.y].parentRoom.value];
        StrictlyInside(c, r.minInternalRoom, r.maxInternalRoom) && ManhattanDist(r.center, c) <= r.maxSize.y
    {
      forall c | InGrid(c, dungeonSize) && dungeonFloor[c.x, c.y].walkable
        ensures var r := roomsList[dungeonFloor[c.x, c.y].parentRoom.value];
          StrictlyInside(c, r.minInternalRoom, r.maxInternalRoom) && ManhattanDist(r.center, c) <= r.maxSize.y
      {
        assert CellCarved(c);
        var k := dungeonFloor[c.x, c.y].parentRoom.value;
        var r := roomsList[k];
        assert r.internalTilePositions == DrawnCarve(walkRandom, walkBases[k], r);
        WalksValid(walkRandom, walkBases[k], r.maxSize);
        CarvedInside(r.center, WalksFrom(walkRandom, walkBases[k], r.maxSize), r.minInternalRoom, r.maxInternalRoom, r.maxSize.y);
      }
    }

    /** Because the rooms tile the grid, stamping every room assigns every
        cell: each holds a node created by the stamping loops, owned by the
        room whose rectangle contains the cell, and walkable exactly when
        that room's walk carved the cell. */
    lemma StampedFills()
      requires Shaped() && dungeonSize.x >= 1 && dungeonSize.y >= 1 && RoomsTile(roomsList, dungeonSize)
      requires forall k: nat, c :: k < |roomsList| && InGrid(c, dungeonSize) && InRoom(roomsList[k], c) ==> Stamped(c, k)
      ensures Filled()
      ensures forall c :: InGrid(c, dungeonSize) ==>
        && Owned(c) && dungeonFloor[c.x, c.y] in made
        && var n := dungeonFloor[c.x, c.y];
           n.walkable == (c in roomsList[n.parentRoom.value].internalTilePositions)
    {
      forall c | InGrid(c, dungeonSize)
        ensures var n := dungeonFloor[c.x, c.y];
          && n != null && n in made && n.gridPos == c && n.worldPos == c && Owned(c)
          && n.walkable == (c in roomsList[n.parentRoom.value].internalTilePositions)
      {
        var k :| 0 <= k < |roomsList| && InRoom(roomsList[k], c);
        assert Stamped(c, k);
      }
      forall x, z | 0 <= x < dungeonSize.x && 0 <= z < dungeonSize.y
        ensures dungeonFloor[x, z] != null && dungeonFloor[x, z].gridPos == Vec2(x, z) && dungeonFloor[x, z].worldPos == Vec2(x, z)
      {
        assert InGrid(Vec2(x, z), dungeonSize);
      }
    }

    /** Every tile of roomsTileSet is walkable after stamping: it is a floor
        tile of its parent room, and floor tiles are the walkable nodes. */
    lemma RoomTilesWalkable()
      requires Shaped() && RoomsTile(roomsList, dungeonSize)
      requires forall k: nat, c :: k < |roomsList| && InGrid(c, dungeonSize) && InRoom(roomsList[k], c) ==> Stamped(c, k)
      requires forall k, t :: 0 <= k < |roomsList| && t in roomsList[k].roomFloorTiles ==> InRoom(roomsList[k], t.gridPos) && Placed(t)
      requires forall t :: t in roomsTileSet ==>
        t.parentRoom.Some? && t.parentRoom.value < |roomsList| && t in roomsList[t.parentRoom.value].roomFloorTiles
      ensures forall t :: t in roomsTileSet ==> t.walkable
    {
      forall t | t in roomsTileSet ensures t.walkable {
        var k := t.parentRoom.value;
        assert Stamped(t.gridPos, k);
      }
    }

    /** Every cell holds a node whose grid and world position are that cell. */
    ghost predicate Filled()
      reads this`dungeonFloor, dungeonFloor
    {
      && Shaped() && dungeonSize.x >= 1 && dungeonSize.y >= 1
      && forall x, z :: 0 <= x < dungeonSize.x && 0 <= z < dungeonSize.y ==>
           dungeonFloor[x, z] != null && dungeonFloor[x, z].gridPos == Vec2(x, z) && dungeonFloor[x, z].worldPos == Vec2(x, z)
    }

    /** The cell a world position falls in: each coordinate clamped to the grid. */
    function Snap(pos: Vec2): (c: Vec2)
      requires dungeonSize.x >= 1 && dungeonSize.y >= 1
      ensures InGrid(c, dungeonSize)
      ensures InGrid(pos, dungeonSize) ==> c == pos
    {
      Vec2(Clamp(pos.x, 0, dungeonSize.x - 1), Clamp(pos.y, 0, dungeonSize.y - 1))
    }

    /** The node under a world position; positions off the grid give the
        nearest border node. */
    function NodeFromWorldPoint(pos: Vec2): (n: FloorNode)
      requires Filled()
      reads this`dungeonFloor, dungeonFloor
      ensures n.gridPos == Snap(pos) && n.worldPos == Snap(pos)
      ensures InGrid(pos, dungeonSize) ==> n.gridPos == pos
    {
      dungeonFloor[Snap(pos).x, Snap(pos).y]
    }

    /** The inner approximation loop: row z of the padded box. */
    method ApproxRow(room: Room, lo: Vec2, hi: Vec2, z: int)
      requires Filled() && lo.y <= z <= hi.y
      modifies room`roomApproximation
      ensures forall x :: lo.x <= x <= hi.x ==> NodeFromWorldPoint(Vec2(x, z)) in room.roomApproximation
      ensures old(room.roomApproximation) <= room.roomApproximation
      ensures forall t :: t in room.roomApproximation && t !in old(room.roomApproximation) ==>
        Placed(t) && Snap(lo).x <= t.gridPos.x <= Snap(hi).x && Snap(lo).y <= t.gridPos.y <= Snap(hi).y
    {
      var x := lo.x;
      while x <= hi.x
        invariant forall x' :: lo.x <= x' < x ==> NodeFromWorldPoint(Vec2(x', z)) in room.roomApproximation
        invariant old(room.roomApproximation) <= room.roomApproximation
        invariant forall t :: t in room.roomApproximation && t !in old(room.roomApproximation) ==>
          Placed(t) && t.gridPos.y == Snap(Vec2(lo.x, z)).y && Snap(lo).x <= t.gridPos.x <= Snap(hi).x
        decreases hi.x - x
      {
        ghost var before := room.roomApproximation;
        room.AddApproximationTile(NodeFromWorldPoint(Vec2(x, z)));
        forall x' | lo.x <= x' <= x ensures NodeFromWorldPoint(Vec2(x', z)) in room.roomApproximation {
          if x' < x {
            assert NodeFromWorldPoint(Vec2(x', z)) in before;
          }
        }
        x := x + 1;
      }
    }

    /** The two approximation loops over the box [lo, hi]. */
    method ApproxBox(room: Room, lo: Vec2, hi: Vec2)
      requires Filled()
      modifies room`roomApproximation
      ensures forall x, z :: lo.x <= x <= hi.x && lo.y <= z <= hi.y ==> NodeFromWorldPoint(Vec2(x, z)) in room.roomApproximation
      ensures old(room.roomApproximation) <= room.roomApproximation
      ensures forall t :: t in room.roomApproximation && t !in old(room.roomApproximation) ==>
        Placed(t) && Snap(lo).x <= t.gridPos.x <= Snap(hi).x && Snap(lo).y <= t.gridPos.y <= Snap(hi).y
    {
      var z := lo.y;
      while z <= hi.y
        invariant forall x, z' :: lo.x <= x <= hi.x && lo.y <= z' < z ==> NodeFromWorldPoint(Vec2(x, z')) in room.roomApproximation
        invariant old(room.roomApproximation) <= room.roomApproximation
        invariant forall t :: t in room.roomApproximation && t !in old(room.roomApproximation) ==>
          Placed(t) && Snap(lo).x <= t.gridPos.x <= Snap(hi).x && Snap(lo).y <= t.gridPos.y <= Snap(hi).y
        decreases hi.y - z
      {
        ghost var before := room.roomApproximation;
        ApproxRow(room, lo, hi, z);
        forall x, z' | lo.x <= x <= hi.x && lo.y <= z' <= z ensures NodeFromWorldPoint(Vec2(x, z')) in room.roomApproximation {
          if z' < z {
            assert NodeFromWorldPoint(Vec2(x, z')) in before;
          }
        }
        z := z + 1;
      }
    }

    /** A box that bounds the world positions of placed tiles holds them:
        each is the node under its own position. */
    lemma BoxHoldsTiles(tiles: set<FloorNode>, approx: set<FloorNode>, lo: Vec2, hi: Vec2)
      requires Filled() && forall t :: t in tiles ==> Placed(t)
      requires IsLowerExtreme(tiles, lo.Plus(Vec2(4, 4))) && IsUpperExtreme(tiles, hi.Plus(Vec2(-4, -4)))
      requires forall x, z :: lo.x <= x <= hi.x && lo.y <= z <= hi.y ==> NodeFromWorldPoint(Vec2(x, z)) in approx
      ensures tiles <= approx
    {
      forall t | t in tiles ensures t in approx {
        assert lo.x <= t.worldPos.x <= hi.x && lo.y <= t.worldPos.y <= hi.y;
        assert NodeFromWorldPoint(Vec2(t.gridPos.x, t.gridPos.y)) == t;
      }
    }

    /** The box loops of one room, for corners lo and hi already computed:
        the approximation covers the box and holds every floor tile. */
    method FillBox(room: Room, lo: Vec2, hi: Vec2)
      requires Filled() && room.roomApproximation == {} && forall t :: t in room.roomFloorTiles ==> Placed(t)
      requires IsLowerExtreme(room.roomFloorTiles, lo.Plus(Vec2(4, 4))) && IsUpperExtreme(room.roomFloorTiles, hi.Plus(Vec2(-4, -4)))
      modifies room`roomApproximation
      ensures Boxed(room.roomFloorTiles, room.roomApproximation, lo, hi)
      ensures forall t :: t in room.roomApproximation ==> Placed(t)
      ensures room.roomFloorTiles <= room.roomApproximation
    {
      ApproxBox(room, lo, hi);
      BoxHoldsTiles(room.roomFloorTiles, room.roomApproximation, lo, hi);
    }

    /** approx is the padded bounding box of tiles with corners lo and hi:
        the corners are the tiles' extremes moved out by 4, every cell of
        the box (clamped to the grid) is in approx, and approx holds no node
        outside the clamped box. */
    ghost predicate Boxed(tiles: set<FloorNode>, approx: set<FloorNode>, lo: Vec2, hi: Vec2)
      requires Filled()
      reads this`dungeonFloor, dungeonFloor
    {
      && IsLowerExtreme(tiles, lo.Plus(Vec2(4, 4))) && IsUpperExtreme(tiles, hi.Plus(Vec2(-4, -4)))
      && (forall x, z :: lo.x <= x <= hi.x && lo.y <= z <= hi.y ==> NodeFromWorldPoint(Vec2(x, z)) in approx)
      && (forall t :: t in approx ==> Snap(lo).x <= t.gridPos.x <= Snap(hi).x && Snap(lo).y <= t.gridPos.y <= Snap(hi).y)
    }

    /** Room r's approximation is its padded bounding box, made of grid
        nodes, and holds its floor tiles. */
    ghost predicate RoomApproximated(r: Room)
      requires Filled()
      reads this`dungeonFloor, dungeonFloor, r`roomFloorTiles, r`roomApproximation
      reads r`approximationLowerLeft, r`approximationUpperRight
    {
      && (forall t :: t in r.roomApproximation ==> Placed(t))
      && r.roomFloorTiles <= r.roomApproximation
      && Boxed(r.roomFloorTiles, r.roomApproximation, r.approximationLowerLeft, r.approximationUpperRight)
    }

    /** One room of the approximation loop: the bounding box of its floor
        tiles, padded by 4, is collected cell by cell into its
        approximation (cells off the grid fall on the nearest border cell).
        The approximation then holds every floor tile of the room. */
    method ApproxRoom(room: Room)
      requires Filled() && room.roomApproximation == {} && forall t :: t in room.roomFloorTiles ==> Placed(t)
      modifies room`approximationLowerLeft, room`approximationUpperRight, room`roomApproximation
      ensures RoomApproximated(room)
    {
      room.Approximate();
      var lo, hi := room.approximationLowerLeft, room.approximationUpperRight;
      FillBox(room, lo, hi);
    }

    /** No room appears twice in the room list. */
    ghost predicate RoomsApart()
      reads this`roomsList
    {
      forall a, b :: 0 <= a < b < |roomsList| ==> roomsList[a] != roomsList[b]
    }

    /** One iteration of the approximation loop over the room list: room k
        gets its approximation, and the other rooms' are left alone. */
    method ApproxNext(k: nat)
      requires Filled() && RoomsApart() && k < |roomsList|
      requires forall k' :: 0 <= k' < k ==> RoomApproximated(roomsList[k'])
      requires forall k' :: k <= k' < |roomsList| ==> roomsList[k'].roomApproximation == {}
      requires forall t :: t in roomsList[k].roomFloorTiles ==> Placed(t)
      modifies {roomsList[k]}`approximationLowerLeft, {roomsList[k]}`approximationUpperRight, {roomsList[k]}`roomApproximation
      ensures forall k' :: 0 <= k' <= k ==> RoomApproximated(roomsList[k'])
      ensures forall k' :: k < k' < |roomsList| ==> roomsList[k'].roomApproximation == {}
    {
      var room := roomsList[k];
      ApproxRoom(room);
      forall k' | 0 <= k' < |roomsList| && k' != k
        ensures unchanged(roomsList[k'])
      {
        if k' < k { assert roomsList[k'] != roomsList[k]; } else { assert roomsList[k] != roomsList[k']; }
      }
    }

    /** The approximation loop of CreateFloor, over the room list. */
    method ApproxRooms()
      requires Filled() && RoomsApart()
      requires forall k :: 0 <= k < |roomsList| ==> roomsList[k].roomApproximation == {}
      requires forall k, t :: 0 <= k < |roomsList| && t in roomsList[k].roomFloorTiles ==> Placed(t)
      modifies (set r | r in roomsList)`approximationLowerLeft, (set r | r in roomsList)`approximationUpperRight
      modifies (set r | r in roomsList)`roomApproximation
      ensures forall k :: 0 <= k < |roomsList| ==> RoomApproximated(roomsList[k])
    {
      var k := 0;
      while k < |roomsList|
        invariant 0 <= k <= |roomsList|
        invariant forall k' :: 0 <= k' < k ==> RoomApproximated(roomsList[k'])
        invariant forall k' :: k <= k' < |roomsList| ==> roomsList[k'].roomApproximation == {}
      {
        ApproxNext(k);
        k := k + 1;
      }
    }

    /** The grid positions of a list of nodes, in order. */
    ghost function PositionsOf(ns: seq<FloorNode>): (ps: seq<Vec2>)
      ensures |ps| == |ns| && forall i :: 0 <= i < |ns| ==> ps[i] == ns[i].gridPos
    {
      if |ns| == 0 then [] else PositionsOf(ns[..|ns| - 1]) + [ns[|ns| - 1].gridPos]
    }

    /** One try-block of CacheNeighbors and CacheCorners: the node at q when
        q indexes the array, nothing when the access would throw. */
    method TryAt(list: seq<FloorNode>, q: Vec2) returns (list': seq<FloorNode>)
      requires Filled() && forall t :: t in list ==> Placed(t)
      ensures PositionsOf(list') == PositionsOf(list) + KeepOne(q, dungeonSize)
      ensures forall t :: t in list' ==> Placed(t)
    {
      list' := list;
      if InGrid(q, dungeonSize) {
        var n := dungeonFloor[q.x, q.y];
        assert n != null && n.gridPos == q;
        list' := list + [n];
        assert list'[..|list|] == list;
      }
    }

    /** The list of a node's edge neighbours: the cells left, right, below
        and above it, where they exist. */
    method CacheNeighbors(node: FloorNode)
      requires Filled() && Placed(node)
      modifies node`neighbors
      ensures PositionsOf(node.neighbors) == NeighborCells(node.gridPos, dungeonSize)
      ensures forall t :: t in node.neighbors ==> Placed(t)
    {
      var p := node.GetGridPos();
      ghost var size := dungeonSize;
      assert PositionsOf([]) == [];
      var list := TryAt([], Vec2(p.x - 1, p.y));
      list := TryAt(list, Vec2(p.x + 1, p.y));
      list := TryAt(list, Vec2(p.x, p.y - 1));
      list := TryAt(list, Vec2(p.x, p.y + 1));
      assert PositionsOf(list) == KeepOne(Vec2(p.x - 1, p.y), size) + KeepOne(Vec2(p.x + 1, p.y), size) + KeepOne(Vec2(p.x, p.y - 1), size) + KeepOne(Vec2(p.x, p.y + 1), size);
      NeighborCellsSplit(p, size);
      node.SetNeighbors(list);
    }

    /** The list of a node's diagonal neighbours, where they exist. */
    method CacheCorners(node: FloorNode)
      requires Filled() && Placed(node)
      modifies node`corners
      ensures PositionsOf(node.corners) == CornerCells(node.gridPos, dungeonSize)
      ensures forall t :: t in node.corners ==> Placed(t)
    {
      var p := node.GetGridPos();
      ghost var size := dungeonSize;
      assert PositionsOf([]) == [];
      var list := TryAt([], Vec2(p.x - 1, p.y - 1));
      list := TryAt(list, Vec2(p.x - 1, p.y + 1));
      list := TryAt(list, Vec2(p.x + 1, p.y - 1));
      list := TryAt(list, Vec2(p.x + 1, p.y + 1));
      assert PositionsOf(list) == KeepOne(Vec2(p.x - 1, p.y - 1), size) + KeepOne(Vec2(p.x - 1, p.y + 1), size) + KeepOne(Vec2(p.x + 1, p.y - 1), size) + KeepOne(Vec2(p.x + 1, p.y + 1), size);
      CornerCellsSplit(p, size);
      node.SetCorners(list);
    }

    /** All nodes of a filled grid. */
    ghost function GridNodes(): set<FloorNode>
      requires Filled()
      reads this`dungeonFloor, dungeonFloor
    {
      set x, z | 0 <= x < dungeonSize.x && 0 <= z < dungeonSize.y :: dungeonFloor[x, z] as FloorNode
    }

    /** Every grid node was made by the stamping loops. */
    lemma GridNodesMade()
      requires Filled() && Owners()
      ensures GridNodes() <= made
    {
      forall t | t in GridNodes() ensures t in made {
        var x, z :| 0 <= x < dungeonSize.x && 0 <= z < dungeonSize.y && t == dungeonFloor[x, z];
        assert InGrid(Vec2(x, z), dungeonSize);
      }
    }

    /** The two lists hold the nodes at the in-grid edge and diagonal
        neighbour cells of c, in the order the caching methods add them. */
    ghost predicate ListsFit(c: Vec2, size: Vec2, nbrs: seq<FloorNode>, crns: seq<FloorNode>) {
      PositionsOf(nbrs) == NeighborCells(c, size) && PositionsOf(crns) == CornerCells(c, size)
    }

    /** The node at c holds its in-grid edge neighbours and diagonal
        neighbours, in the order the caching methods add them. */
    ghost predicate Cached(c: Vec2)
      requires Shaped() && InGrid(c, dungeonSize)
      reads this`dungeonFloor, dungeonFloor, {dungeonFloor[c.x, c.y]}`neighbors, {dungeonFloor[c.x, c.y]}`corners
    {
      var n := dungeonFloor[c.x, c.y];
      && n != null
      && ListsFit(c, dungeonSize, n.neighbors, n.corners)
      && (forall t :: t in n.neighbors ==> Placed(t))
      && (forall t :: t in n.corners ==> Placed(t))
    }

    /** The body of the caching pass: both lists of one node. */
    method CacheNode(node: FloorNode)
      requires Filled() && Placed(node)
      modifies node`neighbors, node`corners
      ensures Filled() && Cached(node.gridPos)
      ensures forall c :: InGrid(c, dungeonSize) && c != node.gridPos && old(Cached(c)) ==> Cached(c)
    {
      CacheNeighbors(node);
      CacheCorners(node);
      forall c | InGrid(c, dungeonSize) && c != node.gridPos && old(Cached(c))
        ensures Cached(c)
      {
        assert dungeonFloor[c.x, c.y] != node;
      }
    }

    /** The inner loop of the caching pass: column x, bottom to top. */
    method CacheColumn(x: int)
      requires Filled() && 0 <= x < dungeonSize.x
      modifies GridNodes()`neighbors, GridNodes()`corners
      ensures forall c :: InGrid(c, dungeonSize) && c.x == x ==> Cached(c)
      ensures forall c :: InGrid(c, dungeonSize) && c.x != x && old(Cached(c)) ==> Cached(c)
    {
      var z := 0;
      while z < dungeonSize.y
        invariant 0 <= z <= dungeonSize.y && Filled()
        invariant forall c :: InGrid(c, dungeonSize) && c.x == x && c.y < z ==> Cached(c)
        invariant forall c :: InGrid(c, dungeonSize) && c.x != x && old(Cached(c)) ==> Cached(c)
      {
        var node := dungeonFloor[x, z];
        assert Placed(node);
        CacheNode(node);
        z := z + 1;
      }
    }

    /** Caches the neighbours and corners of every node of the grid. */
    method CacheAll()
      requires Filled()
      modifies GridNodes()`neighbors, GridNodes()`corners
      ensures forall c :: InGrid(c, dungeonSize) ==> Cached(c)
    {
      var x := 0;
      while x < dungeonSize.x
        invariant 0 <= x <= dungeonSize.x
        invariant forall c :: InGrid(c, dungeonSize) && c.x < x ==> Cached(c)
      {
        CacheColumn(x);
        x := x + 1;
      }
    }

    /** One iteration of the border loop of CreateFloor; the other rooms'
        borders are left alone. */
    method BorderNext(k: nat, room: Room)
      requires RoomsTile(roomsList, dungeonSize) && k < |roomsList| && room == roomsList[k]
      modifies room`borderFloorTiles
      ensures room.borderFloorTiles == old(room.borderFloorTiles) + old(BorderOf(room.roomFloorTiles))
      ensures forall k' :: 0 <= k' < |roomsList| && k' != k ==> roomsList[k'].borderFloorTiles == old(roomsList[k'].borderFloorTiles)
    {
      RoomsDistinct(roomsList, dungeonSize);
      room.CacheBorderTiles();
    }

    /** The last loop of CreateFloor: every room adds the non-walkable
        neighbours and corners of its floor tiles to its border. */
    method CacheBorders()
      requires RoomsTile(roomsList, dungeonSize)
      requires forall k :: 0 <= k < |roomsList| ==> roomsList[k].borderFloorTiles == {}
      modifies (set r | r in roomsList)`borderFloorTiles
      ensures forall k :: 0 <= k < |roomsList| ==> roomsList[k].borderFloorTiles == BorderOf(roomsList[k].roomFloorTiles)
    {
      var k := 0;
      while k < |roomsList|
        invariant 0 <= k <= |roomsList|
        invariant forall k' :: 0 <= k' < k ==> roomsList[k'].borderFloorTiles == BorderOf(roomsList[k'].roomFloorTiles)
        invariant forall k' :: k <= k' < |roomsList| ==> roomsList[k'].borderFloorTiles == {}
      {
        BorderNext(k, roomsList[k]);
        k := k + 1;
      }
    }

    /** The first two parts of CreateFloor: the partition's leaves become
        the rooms, and every cell gets a node from the room containing it. */
    method LayFloor(partitionRandom: Stream, walkRandom: Stream)
      requires ValidMinSize(minRoomSize) && HonestStream(partitionRandom) && HonestStream(walkRandom)
      requires dungeonSize.x >= 1 && dungeonSize.y >= 1 && Shaped()
      requires roomsList == [] && roomsTileSet == {} && made == {}
      modifies this`roomsList, this`walkBases, this`roomsTileSet, this`made, dungeonFloor
      ensures Filled() && RoomsTile(roomsList, dungeonSize) && |roomsList| >= 1
      ensures forall k :: 0 <= k < |roomsList| ==> fresh(roomsList[k])
      ensures fresh(made) && GridNodes() <= made && Owners() && WalkableCarved()
      ensures Carves(walkRandom)
      ensures forall k :: 0 <= k < |roomsList| ==> roomsList[k].center == CenterOf(roomsList[k].lowerLeft, roomsList[k].maxSize)
      ensures forall k, t :: 0 <= k < |roomsList| && t in roomsList[k].roomFloorTiles ==> Placed(t)
      ensures RoomTilesUp()
      ensures NoBorders() && forall k :: 0 <= k < |roomsList| ==> roomsList[k].roomApproximation == {}
    {
      PartitionRooms(partitionRandom, walkRandom);
      StampStage();
      GridNodesMade();
    }

    /** The stamping part of LayFloor: one new node per cell, owned by the
        room that covers it and walkable exactly when that room carved it. */
    method StampStage()
      requires dungeonSize.x >= 1 && dungeonSize.y >= 1 && Shaped() && RoomsTile(roomsList, dungeonSize)
      requires Blank(roomsList) && roomsTileSet == {} && made == {}
      modifies dungeonFloor, (set r | r in roomsList)`roomFloorTiles, this`roomsTileSet, this`made
      ensures Filled() && fresh(made) && Owners() && WalkableCarved()
      ensures unchanged((set r | r in roomsList)`internalTilePositions)
      ensures forall k, t :: 0 <= k < |roomsList| && t in roomsList[k].roomFloorTiles ==> Placed(t)
      ensures RoomTilesUp()
      ensures NoBorders() && forall k :: 0 <= k < |roomsList| ==> roomsList[k].roomApproximation == {}
    {
      assert NoBorders();
      StampRooms();
      assert NoBorders() && forall k :: 0 <= k < |roomsList| ==> roomsList[k].roomApproximation == {};
      RoomTilesWalkable();
      StampedFills();
    }

    /** Every tile of roomsTileSet is walkable. */
    ghost predicate RoomTilesUp()
      reads this`roomsTileSet, roomsTileSet`walkable
    {
      forall t :: t in roomsTileSet ==> t.walkable
    }

    /** Every room's approximation is its padded bounding box and holds its
        floor tiles. */
    ghost predicate Approximated()
      requires Filled()
      reads this`dungeonFloor, dungeonFloor, this`roomsList, (set r | r in roomsList)`roomFloorTiles
      reads (set r | r in roomsList)`roomApproximation
      reads (set r | r in roomsList)`approximationLowerLeft, (set r | r in roomsList)`approximationUpperRight
    {
      forall k {:trigger RoomApproximated(roomsList[k])} :: 0 <= k < |roomsList| ==> RoomApproximated(roomsList[k])
    }

    /** Every node of the grid, created by the stamping loops, holds its
        neighbour and corner lists. */
    ghost predicate AllCached()
      requires Shaped()
      reads this`dungeonFloor, this`made, dungeonFloor, made`neighbors, made`corners
    {
      forall c :: InGrid(c, dungeonSize) ==> dungeonFloor[c.x, c.y] in made && Cached(c)
    }

    /** No room has border tiles yet. */
    ghost predicate NoBorders()
      reads this`roomsList, (set r | r in roomsList)`borderFloorTiles
    {
      forall k :: 0 <= k < |roomsList| ==> roomsList[k].borderFloorTiles == {}
    }

    /** The approximation part of CreateFloor, keeping what stamping
        established. */
    method ApproxStage(ghost walkRandom: Stream)
      requires Filled() && RoomsTile(roomsList, dungeonSize) && Owners() && WalkableCarved() && Carves(walkRandom) && RoomTilesUp() && NoBorders()
      requires forall k, t :: 0 <= k < |roomsList| && t in roomsList[k].roomFloorTiles ==> Placed(t)
      requires forall k :: 0 <= k < |roomsList| ==> roomsList[k].roomApproximation == {}
      modifies (set r | r in roomsList)`approximationLowerLeft, (set r | r in roomsList)`approximationUpperRight
      modifies (set r | r in roomsList)`roomApproximation
      ensures Owners() && WalkableCarved() && Carves(walkRandom) && RoomTilesUp() && NoBorders() && Approximated()
    {
      RoomsDistinct(roomsList, dungeonSize);
      ApproxRooms();
    }

    /** The caching part of CreateFloor, keeping what came before. */
    method CacheStage(ghost walkRandom: Stream)
      requires Filled() && Owners() && WalkableCarved() && Carves(walkRandom) && RoomTilesUp() && NoBorders() && Approximated()
      modifies GridNodes()`neighbors, GridNodes()`corners
      ensures Owners() && WalkableCarved() && Carves(walkRandom) && RoomTilesUp() && NoBorders() && Approximated() && AllCached()
    {
      CacheAll();
    }

    /** The border part of CreateFloor, keeping what came before. */
    method BorderStage()
      requires Filled() && RoomsTile(roomsList, dungeonSize)
      requires Owners() && RoomTilesUp() && NoBorders() && Approximated() && AllCached()
      modifies (set r | r in roomsList)`borderFloorTiles
      ensures Owners() && RoomTilesUp() && Approximated() && AllCached()
      ensures forall k :: 0 <= k < |roomsList| ==> roomsList[k].borderFloorTiles == BorderOf(roomsList[k].roomFloorTiles)
    {
      CacheBorders();
    }

    /** CreateFloor: the rooms and the grid, then each room's
        approximation, every node's neighbour and corner lists, and each
        room's border. */
    method CreateFloor(partitionRandom: Stream, walkRandom: Stream)
      requires ValidMinSize(minRoomSize) && HonestStream(partitionRandom) && HonestStream(walkRandom)
      requires dungeonSize.x >= 1 && dungeonSize.y >= 1 && Shaped()
      requires roomsList == [] && roomsTileSet == {} && made == {}
      modifies this`roomsList, this`walkBases, this`roomsTileSet, this`made, dungeonFloor
      ensures Filled() && RoomsTile(roomsList, dungeonSize) && |roomsList| >= 1
      ensures forall k :: 0 <= k < |roomsList| ==> fresh(roomsList[k])
      ensures fresh(made) && Owners() && AllCached() && RoomTilesUp() && Approximated()
      ensures WalkableCarved() && Carves(walkRandom)
      ensures forall k :: 0 <= k < |roomsList| ==> roomsList[k].center == CenterOf(roomsList[k].lowerLeft, roomsList[k].maxSize)
      ensures forall k :: 0 <= k < |roomsList| ==> roomsList[k].borderFloorTiles == BorderOf(roomsList[k].roomFloorTiles)
    {
      LayFloor(partitionRandom, walkRandom);
      FinishStage(walkRandom);
    }

    /** The rest of CreateFloor once the rooms are laid: approximations,
        neighbour and corner lists, borders; the carved sets stay as they are. */
    method FinishStage(ghost walkRandom: Stream)
      requires Filled() && RoomsTile(roomsList, dungeonSize) && Owners() && WalkableCarved() && Carves(walkRandom) && RoomTilesUp() && NoBorders()
      requires GridNodes() <= made
      requires forall k, t :: 0 <= k < |roomsList| && t in roomsList[k].roomFloorTiles ==> Placed(t)
      requires forall k :: 0 <= k < |roomsList| ==> roomsList[k].roomApproximation == {}
      modifies (set r | r in roomsList)`approximationLowerLeft, (set r | r in roomsList)`approximationUpperRight
      modifies (set r | r in roomsList)`roomApproximation, (set r | r in roomsList)`borderFloorTiles
      modifies GridNodes()`neighbors, GridNodes()`corners
      ensures Filled() && Owners() && WalkableCarved() && Carves(walkRandom) && AllCached() && RoomTilesUp() && Approximated()
      ensures forall k :: 0 <= k < |roomsList| ==> roomsList[k].borderFloorTiles == BorderOf(roomsList[k].roomFloorTiles)
    {
      ApproxStage(walkRandom);
      CacheStage(walkRandom);
      BorderStage();
    }

    /** A list of grid nodes holds a grid node exactly when its positions
        hold that node's cell. */
    lemma InListByPosition(ns: seq<FloorNode>, t: FloorNode)
      requires Filled() && Placed(t) && forall u :: u in ns ==> Placed(u)
      ensures t in ns <==> t.gridPos in PositionsOf(ns)
    {
      var ps := PositionsOf(ns);
      if t.gridPos in ps {
        var i :| 0 <= i < |ps| && ps[i] == t.gridPos;
        assert ns[i] in ns;
      }
    }

    /** After caching, a node's neighbour list holds exactly the grid nodes
        at Manhattan distance one, and its corner list exactly the grid
        nodes one step away on both axes. */
    lemma CachedAdjacency(c: Vec2, t: FloorNode)
      requires Filled() && InGrid(c, dungeonSize) && Cached(c) && Placed(t)
      ensures t in dungeonFloor[c.x, c.y].neighbors <==> Abs(t.gridPos.x - c.x) + Abs(t.gridPos.y - c.y) == 1
      ensures t in dungeonFloor[c.x, c.y].corners <==> Abs(t.gridPos.x - c.x) == 1 && Abs(t.gridPos.y - c.y) == 1
    {
      var n := dungeonFloor[c.x, c.y];
      InListByPosition(n.neighbors, t);
      InListByPosition(n.corners, t);
      NeighborCellsExact(c, t.gridPos, dungeonSize);
      CornerCellsExact(c, t.gridPos, dungeonSize);
    }

    /** After caching, the neighbour relation between grid nodes is
        symmetric, and every node has two to four neighbours. */
    lemma CachedNeighborsSymmetric(c: Vec2, d: Vec2)
      requires Filled() && InGrid(c, dungeonSize) && InGrid(d, dungeonSize) && Cached(c) && Cached(d)
      ensures dungeonFloor[d.x, d.y] in dungeonFloor[c.x, c.y].neighbors <==> dungeonFloor[c.x, c.y] in dungeonFloor[d.x, d.y].neighbors
    {
      var m, n := dungeonFloor[c.x, c.y], dungeonFloor[d.x, d.y];
      assert Placed(m) && Placed(n);
      CachedAdjacency(c, n);
      CachedAdjacency(d, m);
      assert Abs(d.x - c.x) == Abs(c.x - d.x) && Abs(d.y - c.y) == Abs(c.y - d.y);
    }

    lemma CachedNeighborCount(c: Vec2)
      requires Filled() && InGrid(c, dungeonSize) && Cached(c) && dungeonSize.x >= 2 && dungeonSize.y >= 2
      ensures 2 <= |dungeonFloor[c.x, c.y].neighbors| <= 4
    {
      NeighborCount(c, dungeonSize);
      assert |PositionsOf(dungeonFloor[c.x, c.y].neighbors)| == |NeighborCells(c, dungeonSize)|;
    }
    /** A placed node belongs to the room whose rectangle holds its cell. */
    lemma PlacedOwned(t: FloorNode)
      requires Filled() && Owners() && Placed(t)
      ensures t.parentRoom.Some? && t.parentRoom.value < |roomsList| && InRoom(roomsList[t.parentRoom.value], t.gridPos)
    {
      assert Owned(t.gridPos);
    }

    /** A room's centre lies in the room's rectangle, and the node under it
        is the grid node of that cell. */
    lemma CentreInRoom(k: nat)
      requires Filled() && RoomsTile(roomsList, dungeonSize) && k < |roomsList|
      requires roomsList[k].center == CenterOf(roomsList[k].lowerLeft, roomsList[k].maxSize)
      ensures InRoom(roomsList[k], roomsList[k].center)
      ensures var n := NodeFromWorldPoint(roomsList[k].center); n.gridPos == roomsList[k].center && Placed(n)
    {
      var r := roomsList[k];
      assert r.maxSize.x >= 1 && r.maxSize.y >= 1;
      assert InRoom(r, r.center);
      assert InGrid(r.center, dungeonSize);
    }

    /** No two rooms share a centre node: their rectangles are disjoint. */
    lemma CentresDistinct(cs: seq<FloorNode>)
      requires Filled() && RoomsTile(roomsList, dungeonSize) && |cs| == |roomsList|
      requires forall k :: 0 <= k < |roomsList| ==> roomsList[k].center == CenterOf(roomsList[k].lowerLeft, roomsList[k].maxSize)
      requires forall k :: 0 <= k < |roomsList| ==> cs[k] == NodeFromWorldPoint(roomsList[k].center)
      ensures forall k :: 0 <= k < |roomsList| ==> Placed(cs[k])
      ensures Distinct(cs)
    {
      forall k | 0 <= k < |roomsList| ensures Placed(cs[k]) && cs[k].gridPos == roomsList[k].center && InRoom(roomsList[k], roomsList[k].center) {
        CentreInRoom(k);
      }
      forall a, b | 0 <= a < b < |cs| ensures cs[a] != cs[b] {
        assert InRoom(roomsList[a], roomsList[a].center) && InRoom(roomsList[b], roomsList[b].center);
      }
    }

    /** No two rooms have the same node under their centres. */
    ghost predicate CentresApart()
      requires Filled()
      reads this`dungeonFloor, dungeonFloor, this`roomsList
    {
      forall a, b :: 0 <= a < b < |roomsList| ==> NodeFromWorldPoint(roomsList[a].center) != NodeFromWorldPoint(roomsList[b].center)
    }

    /** Centre nodes owned by their own rooms are apart. */
    lemma OwnedCentresApart()
      requires Filled()
      requires forall k :: 0 <= k < |roomsList| ==> NodeFromWorldPoint(roomsList[k].center).parentRoom == Some(k)
      ensures CentresApart()
    {
    }

    /** The loop of LinkRooms: the node under each room's centre, in room
        order. */
    method CollectCentres() returns (centers: seq<FloorNode>)
      requires Filled()
      ensures |centers| == |roomsList|
      ensures forall k :: 0 <= k < |roomsList| ==> centers[k] == NodeFromWorldPoint(roomsList[k].center)
    {
      centers := [];
      var k := 0;
      while k < |roomsList|
        invariant 0 <= k <= |roomsList| && |centers| == k
        invariant forall j :: 0 <= j < k ==> centers[j] == NodeFromWorldPoint(roomsList[j].center)
      {
        var roomCenter := roomsList[k].center;
        centers := centers + [NodeFromWorldPoint(roomCenter)];
        k := k + 1;
      }
    }

    /** `new Prims(centers, ...)` with this generator's chances. */
    method PlanLinks(centers: seq<FloorNode>, primsRandom: Stream) returns (p: Prims)
      requires HonestStream(primsRandom) && Distinct(centers) && |centers| >= 1
      ensures fresh(p) && p.allNodes == centers
      ensures p.randomFirstConnectionChance == randomRoomConnectionChance
      ensures p.farthestConnectionChance == farthestRoomConnectionChance
      ensures p.secondConnectionChance == secondRoomConnectionChance
      ensures p.Planned(PrimsFirst(primsRandom, |centers|), PrimsRolls(primsRandom, |centers|))
    {
      var n := |centers|;
      PrimsRollsValid(primsRandom, n);
      p := new Prims(centers, randomRoomConnectionChance, farthestRoomConnectionChance, secondRoomConnectionChance,
                     PrimsFirst(primsRandom, n), PrimsRolls(primsRandom, n));
    }

    /** LinkRooms: the node under every room's centre, in room order, handed
        to the planner; the planner's draws come from primsRandom. */
    method LinkRooms(primsRandom: Stream)
      requires HonestStream(primsRandom) && Filled() && |roomsList| >= 1 && CentresApart()
      modifies this`prims
      ensures prims != null && fresh(prims)
      ensures |prims.allNodes| == |roomsList|
      ensures forall k :: 0 <= k < |roomsList| ==> prims.allNodes[k] == old(NodeFromWorldPoint(roomsList[k].center))
      ensures prims.randomFirstConnectionChance == randomRoomConnectionChance
      ensures prims.farthestConnectionChance == farthestRoomConnectionChance
      ensures prims.secondConnectionChance == secondRoomConnectionChance
      ensures prims.Planned(PrimsFirst(primsRandom, |roomsList|), PrimsRolls(primsRandom, |roomsList|))
    {
      var centers := CollectCentres();
      var p := PlanLinks(centers, primsRandom);
      assert p.Planned(PrimsFirst(primsRandom, |roomsList|), PrimsRolls(primsRandom, |roomsList|));
      prims := p;
    }
    /** The grid nodes are closed under neighbour lists once every node
        holds its cached lists: A* never leaves the grid. */
    lemma GridClosed()
      requires Filled() && AllCached()
      ensures Closed(GridNodes())
    {
      forall n, m | n in GridNodes() && m in n.neighbors ensures m in GridNodes() {
        var x, z :| 0 <= x < dungeonSize.x && 0 <= z < dungeonSize.y && n == dungeonFloor[x, z];
        assert Cached(Vec2(x, z));
        assert Placed(m);
        assert m == dungeonFloor[m.gridPos.x, m.gridPos.y];
      }
    }

    /** apx lists the approximation of every room, in room order. */
    ghost predicate ApproxesAre(apx: seq<set<FloorNode>>)
      reads this`roomsList, (set r | r in roomsList)`roomApproximation
    {
      |apx| == |roomsList| && forall k :: 0 <= k < |apx| ==> apx[k] == roomsList[k].roomApproximation
    }

    /** The room approximations as a value. */
    lemma ApproxesOf() returns (apx: seq<set<FloorNode>>)
      ensures ApproxesAre(apx)
    {
      apx := seq(|roomsList|, k reads this, set r | r in roomsList => if 0 <= k < |roomsList| then roomsList[k].roomApproximation else {});
    }

    /** The first loop of each CreateHallways iteration: the union of all
        room approximations. */
    method UniteApproximations() returns (exclusion: set<FloorNode>)
      ensures forall t :: t in exclusion <==> exists k :: 0 <= k < |roomsList| && t in roomsList[k].roomApproximation
    {
      exclusion := {};
      var k := 0;
      while k < |roomsList|
        invariant 0 <= k <= |roomsList|
        invariant forall t :: t in exclusion <==> exists j :: 0 <= j < k && t in roomsList[j].roomApproximation
      {
        exclusion := exclusion + roomsList[k].roomApproximation;
        k := k + 1;
      }
    }

    /** The last loop of CreateHallways: every hallway tile becomes walkable. */
    method MarkHallways()
      modifies hallwaysTileSet`walkable
      ensures forall t :: t in hallwaysTileSet ==> t.walkable
    {
      var remaining := hallwaysTileSet;
      while remaining != {}
        invariant remaining <= hallwaysTileSet
        invariant forall t :: t in hallwaysTileSet && t !in remaining ==> t.walkable
        decreases |remaining|
      {
        var tile :| tile in remaining;
        tile.SetWalkable(true);
        remaining := remaining - {tile};
      }
    }

    /** The body of CreateHallways for a link with a second centre: the
        exclusion set, A* between the centres, and the path added to the
        hallways; nothing is added when A* finds no path. */
    method CarveLink(link: RoomLink, ghost U: set<FloorNode>, ghost apx: seq<set<FloorNode>>)
      returns (found: bool, ghost walk: seq<FloorNode>, ghost reached: set<FloorNode>)
      requires Closed(U) && hallwaysTileSet <= U && link.secondCenter != null && ApproxesAre(apx)
      requires link.firstCenter in U && link.secondCenter in U && OwnedIn(link.firstCenter, apx) && OwnedIn(link.secondCenter, apx)
      modifies this`hallwaysTileSet, U`gCost, U`hCost, U`pathParent
      ensures found ==> Hallway(link, walk, U, apx) && hallwaysTileSet == old(hallwaysTileSet) + Nodes(walk)
      ensures !found ==> Blocked(link, reached, apx) && hallwaysTileSet == old(hallwaysTileSet)
      ensures hallwaysTileSet <= U
    {
      var exclusion := UniteApproximations();
      var firstCenter := link.GetFirstCenter();
      var secondCenter := link.GetSecondCenter();
      exclusion := exclusion - roomsList[firstCenter.GetParentRoom().value].roomApproximation;
      exclusion := exclusion - roomsList[secondCenter.GetParentRoom().value].roomApproximation;
      assert exclusion == Exclusion(firstCenter, secondCenter, apx);
      var path;
      path, walk, reached := FindPath(firstCenter, secondCenter, exclusion, U);
      assert OwnedIn(firstCenter, apx) && OwnedIn(secondCenter, apx) && exclusion == Exclusion(firstCenter, secondCenter, apx);
      found := path.Some?;
      if found {
        assert Hallway(link, walk, U, apx);
        hallwaysTileSet := hallwaysTileSet + path.value;
      } else {
        assert Blocked(link, reached, apx);
      }
    }

    /** The loop of CreateHallways over the planned links, before any tile
        is made walkable: it stops at a link without a second centre, fails
        at a link whose centres A* cannot join, and otherwise carves every
        link. */
    method CarveAll(roomLinks: seq<RoomLink>, ghost U: set<FloorNode>, ghost apx: seq<set<FloorNode>>)
      returns (outcome: Outcome, ghost walks: seq<seq<FloorNode>>, ghost cut: set<FloorNode>)
      requires Closed(U) && hallwaysTileSet <= U && ApproxesAre(apx)
      requires forall l :: l in roomLinks ==> LinkEnds(l, U, apx)
      modifies this`hallwaysTileSet, U`gCost, U`hCost, U`pathParent
      ensures outcome.Completed? ==> |walks| == |roomLinks|
      ensures outcome.Stopped? ==> outcome.at == |walks| < |roomLinks| && roomLinks[outcome.at].secondCenter == null
      ensures outcome.Failed? ==> outcome.at == |walks| < |roomLinks| && Blocked(roomLinks[outcome.at], cut, apx)
      ensures |walks| <= |roomLinks| && forall j :: 0 <= j < |walks| ==> Hallway(roomLinks[j], walks[j], U, apx)
      ensures ApproxesAre(apx)
      ensures hallwaysTileSet == old(hallwaysTileSet) + PathsUnion(walks) && hallwaysTileSet <= U
    {
      walks := [];
      cut := {};
      var i := 0;
      while i < |roomLinks|
        invariant 0 <= i <= |roomLinks| && |walks| == i
        invariant hallwaysTileSet == old(hallwaysTileSet) + PathsUnion(walks) && hallwaysTileSet <= U
        invariant ApproxesAre(apx)
        invariant forall j :: 0 <= j < i ==> Hallway(roomLinks[j], walks[j], U, apx)
      {
        var link := roomLinks[i];
        assert link in roomLinks;
        if link.GetSecondCenter() == null {
          outcome := Stopped(i);
          return;
        }
        var found, walk, reached := CarveLink(link, U, apx);
        if !found {
          outcome := Failed(i);
          cut := reached;
          return;
        }
        PathsUnionSnoc(walks, walk);
        walks := walks + [walk];
        i := i + 1;
      }
      outcome := Completed;
    }

    /** CreateHallways: for each planned link, A* from the first centre to
        the second, avoiding the link's exclusion set (every node of another
        room's approximation that lies outside both end rooms'
        approximations), and the path
        joins the hallways; the loop stops at a link without a second
        centre, and ends in failure where A* finds no path. Only when every
        link was carved are the hallway tiles made walkable. */
    method CreateHallways(ghost U: set<FloorNode>, ghost apx: seq<set<FloorNode>>)
      returns (outcome: Outcome, ghost walks: seq<seq<FloorNode>>, ghost cut: set<FloorNode>)
      requires Closed(U) && hallwaysTileSet <= U && prims != null && ApproxesAre(apx)
      requires forall l :: l in prims.roomLinks ==> LinkEnds(l, U, apx)
      modifies this`hallwaysTileSet, U`gCost, U`hCost, U`pathParent, U`walkable
      ensures outcome.Completed? ==> |walks| == |prims.roomLinks|
      ensures outcome.Stopped? ==> outcome.at == |walks| < |prims.roomLinks| && prims.roomLinks[outcome.at].secondCenter == null
      ensures outcome.Failed? ==> outcome.at == |walks| < |prims.roomLinks| && Blocked(prims.roomLinks[outcome.at], cut, apx)
      ensures |walks| <= |prims.roomLinks| && forall j :: 0 <= j < |walks| ==> Hallway(prims.roomLinks[j], walks[j], U, apx)
      ensures ApproxesAre(apx)
      ensures hallwaysTileSet == old(hallwaysTileSet) + PathsUnion(walks) && hallwaysTileSet <= U
      ensures forall t :: t in U ==> t.walkable == (old(t.walkable) || (outcome.Completed? && t in hallwaysTileSet))
    {
      var roomLinks := prims.GetRoomLinks();
      outcome, walks, cut := CarveAll(roomLinks, U, apx);
      if outcome.Completed? {
        MarkHallways();
      }
    }

    /** The loops of InstantiateFloor: the cells whose node is walkable, in
        the order a floor tile is instantiated on each. */
    method FloorCells() returns (cells: seq<Vec2>)
      requires Filled()
      ensures forall c :: c in cells <==> InGrid(c, dungeonSize) && dungeonFloor[c.x, c.y] != null && dungeonFloor[c.x, c.y].walkable
      ensures forall i, j :: 0 <= i < j < |cells| ==> RowIndex(cells[i], dungeonSize.x) < RowIndex(cells[j], dungeonSize.x)
    {
      var width := dungeonSize.x;
      cells := [];
      var z := 0;
      while z < dungeonSize.y
        invariant 0 <= z <= dungeonSize.y
        invariant forall c :: c in cells <==> InGrid(c, dungeonSize) && c.y < z && dungeonFloor[c.x, c.y] != null && dungeonFloor[c.x, c.y].walkable
        invariant forall i :: 0 <= i < |cells| ==> RowIndex(cells[i], width) < z * width
        invariant forall i, j :: 0 <= i < j < |cells| ==> RowIndex(cells[i], width) < RowIndex(cells[j], width)
      {
        var x := 0;
        while x < width
          invariant 0 <= x <= width
          invariant forall c :: c in cells <==>
            InGrid(c, dungeonSize) && (c.y < z || (c.y == z && c.x < x)) && dungeonFloor[c.x, c.y] != null && dungeonFloor[c.x, c.y].walkable
          invariant forall i :: 0 <= i < |cells| ==> RowIndex(cells[i], width) < z * width + x
          invariant forall i, j :: 0 <= i < j < |cells| ==> RowIndex(cells[i], width) < RowIndex(cells[j], width)
        {
          if dungeonFloor[x, z].GetWalkable() {
            cells := cells + [Vec2(x, z)];
          }
          x := x + 1;
        }
        assert (z + 1) * width == z * width + width;
        z := z + 1;
      }
    }

    /** InstantiateFloor: a floor tile on every walkable cell, then the
        room tiles are taken out of the hallway set. */
    method InstantiateFloor() returns (cells: seq<Vec2>)
      requires Filled()
      modifies this`hallwaysTileSet
      ensures forall c :: c in cells <==> InGrid(c, dungeonSize) && dungeonFloor[c.x, c.y] != null && dungeonFloor[c.x, c.y].walkable
      ensures hallwaysTileSet == old(hallwaysTileSet) - roomsTileSet && hallwaysTileSet !! roomsTileSet
    {
      cells := FloorCells();
      hallwaysTileSet := hallwaysTileSet - roomsTileSet;
    }

    /** The start of Start: empty tile sets and room list, and a grid array
        of the dungeon's size with no node in it. */
    method ResetFloor()
      requires dungeonSize.x >= 0 && dungeonSize.y >= 0
      modifies this`dungeonFloor, this`roomsList, this`roomsTileSet, this`hallwaysTileSet, this`made
      ensures fresh(dungeonFloor) && Shaped()
      ensures roomsList == [] && roomsTileSet == {} && hallwaysTileSet == {} && made == {}
    {
      roomsTileSet := {};
      hallwaysTileSet := {};
      dungeonFloor := new FloorNode?[dungeonSize.x, dungeonSize.y]((x, z) => null);
      roomsList := [];
      made := {};
    }

    /** LinkRooms, with what its plan means for CreateHallways: every link
        end is a grid node; with two or more rooms every link has a second
        end, and with a single room the first link has none. */
    method PlanStage(primsRandom: Stream, ghost U: set<FloorNode>, ghost apx: seq<set<FloorNode>>)
      requires HonestStream(primsRandom) && Filled() && |roomsList| >= 1 && |apx| == |roomsList|
      requires forall k :: 0 <= k < |roomsList| ==>
        NodeFromWorldPoint(roomsList[k].center) in U && NodeFromWorldPoint(roomsList[k].center).parentRoom == Some(k)
      modifies this`prims
      ensures prims != null && fresh(prims)
      ensures forall l :: l in prims.roomLinks ==> LinkEnds(l, U, apx)
      ensures |roomsList| >= 2 ==> forall l :: l in prims.roomLinks ==> l.secondCenter != null
      ensures |roomsList| == 1 ==> |prims.roomLinks| >= 1 && prims.roomLinks[0].secondCenter == null
    {
      OwnedCentresApart();
      LinkRooms(primsRandom);
      var n := |roomsList|;
      forall k | 0 <= k < n
        ensures prims.allNodes[k] in U && prims.allNodes[k].parentRoom == Some(k)
      {
        var c := prims.allNodes[k];
        assert c == old(NodeFromWorldPoint(roomsList[k].center));
        assert c in U && old(c.parentRoom) == Some(k);
      }
      PrimsRollsValid(primsRandom, n);
      PlanEnds(prims, PrimsFirst(primsRandom, n), PrimsRolls(primsRandom, n), U, apx);
    }

    /** The node under each room's centre is a grid node that belongs to
        that room. */
    lemma CentreNodesOwned()
      requires Filled() && Owners() && RoomsTile(roomsList, dungeonSize)
      requires forall k :: 0 <= k < |roomsList| ==> roomsList[k].center == CenterOf(roomsList[k].lowerLeft, roomsList[k].maxSize)
      ensures forall k :: 0 <= k < |roomsList| ==>
        NodeFromWorldPoint(roomsList[k].center) in GridNodes() && NodeFromWorldPoint(roomsList[k].center).parentRoom == Some(k)
    {
      forall k | 0 <= k < |roomsList|
        ensures NodeFromWorldPoint(roomsList[k].center) in GridNodes() && NodeFromWorldPoint(roomsList[k].center).parentRoom == Some(k)
      {
        CentreInRoom(k);
        var c := NodeFromWorldPoint(roomsList[k].center);
        PlacedOwned(c);
        assert c == dungeonFloor[c.gridPos.x, c.gridPos.y];
      }
    }

    /** CreateHallways and, unless it failed, InstantiateFloor; room tiles
        stay walkable. */
    method HallwayStage(ghost U: set<FloorNode>, ghost apx: seq<set<FloorNode>>)
      returns (outcome: Outcome, ghost walks: seq<seq<FloorNode>>, ghost cut: set<FloorNode>)
      requires Filled() && U == GridNodes() && |roomsList| >= 1 && RoomTilesUp() && Approximated() && hallwaysTileSet == {}
      requires prims != null && Closed(U) && ApproxesAre(apx)
      requires forall l :: l in prims.roomLinks ==> LinkEnds(l, U, apx)
      requires |roomsList| >= 2 ==> forall l :: l in prims.roomLinks ==> l.secondCenter != null
      requires |roomsList| == 1 ==> |prims.roomLinks| >= 1 && prims.roomLinks[0].secondCenter == null
      modifies this`hallwaysTileSet, U`gCost, U`hCost, U`pathParent, U`walkable
      ensures Filled() && U == GridNodes() && RoomTilesUp() && Approximated() && ApproxesAre(apx)
      ensures outcome.Stopped? <==> |roomsList| == 1
      ensures outcome.Completed? ==> |walks| == |prims.roomLinks| && forall j :: 0 <= j < |walks| ==> Hallway(prims.roomLinks[j], walks[j], U, apx)
      ensures outcome.Completed? ==> forall j, t :: 0 <= j < |walks| && t in walks[j] ==> t.walkable
      ensures outcome.Failed? ==> outcome.at < |prims.roomLinks| && Blocked(prims.roomLinks[outcome.at], cut, apx)
      ensures !outcome.Failed? ==> hallwaysTileSet !! roomsTileSet
    {
      outcome, walks, cut := CreateHallways(U, apx);
      assert outcome.Stopped? ==> prims.roomLinks[outcome.at] in prims.roomLinks;
      assert |walks| >= 1 ==> Hallway(prims.roomLinks[0], walks[0], U, apx);
      assert RoomTilesUp();
      if !outcome.Failed? {
        FloorStage(U, apx, prims.roomLinks, walks);
      }
    }

    /** InstantiateFloor after the hallways: the hallway set loses the room
        tiles, and nothing the hallways established changes. */
    method FloorStage(ghost U: set<FloorNode>, ghost apx: seq<set<FloorNode>>, ghost links: seq<RoomLink>, ghost walks: seq<seq<FloorNode>>)
      requires Filled() && RoomTilesUp() && ApproxesAre(apx) && |walks| <= |links|
      requires forall j :: 0 <= j < |walks| ==> Hallway(links[j], walks[j], U, apx)
      modifies this`hallwaysTileSet
      ensures RoomTilesUp() && ApproxesAre(apx) && hallwaysTileSet !! roomsTileSet
      ensures forall j :: 0 <= j < |walks| ==> Hallway(links[j], walks[j], U, apx)
    {
      var cells := InstantiateFloor();
    }

    /** The part of Start between CreateFloor and CreateHallways: LinkRooms,
        and what CreateHallways needs of the floor and the plan. */
    method LinkStage(primsRandom: Stream, ghost U: set<FloorNode>) returns (ghost apx: seq<set<FloorNode>>)
      requires HonestStream(primsRandom) && Filled() && RoomsTile(roomsList, dungeonSize) && |roomsList| >= 1
      requires forall k :: 0 <= k < |roomsList| ==> roomsList[k].center == CenterOf(roomsList[k].lowerLeft, roomsList[k].maxSize)
      requires AllCached() && Owners() && RoomTilesUp() && Approximated() && U == GridNodes() && hallwaysTileSet == {}
      modifies this`prims
      ensures Filled() && U == GridNodes() && |roomsList| >= 1 && RoomTilesUp() && Approximated() && hallwaysTileSet == {}
      ensures prims != null && Closed(U) && ApproxesAre(apx)
      ensures forall l :: l in prims.roomLinks ==> LinkEnds(l, U, apx)
      ensures |roomsList| >= 2 ==> forall l :: l in prims.roomLinks ==> l.secondCenter != null
      ensures |roomsList| == 1 ==> |prims.roomLinks| >= 1 && prims.roomLinks[0].secondCenter == null
    {
      apx := ApproxesOf();
      GridClosed();
      CentreNodesOwned();
      PlanStage(primsRandom, U, apx);
    }

    /** The first part of Start: an empty grid of the dungeon's size, then
        CreateFloor; U is the set of its nodes, all of them new. */
    method BuildFloor(partitionRandom: Stream, walkRandom: Stream) returns (ghost U: set<FloorNode>)
      requires ValidMinSize(minRoomSize) && dungeonSize.x >= 1 && dungeonSize.y >= 1
      requires HonestStream(partitionRandom) && HonestStream(walkRandom)
      modifies this`dungeonFloor, this`roomsList, this`walkBases, this`roomsTileSet, this`hallwaysTileSet, this`made
      ensures fresh(U)
      ensures Filled() && RoomsTile(roomsList, dungeonSize) && |roomsList| >= 1
      ensures forall k :: 0 <= k < |roomsList| ==> roomsList[k].center == CenterOf(roomsList[k].lowerLeft, roomsList[k].maxSize)
      ensures AllCached() && Owners() && RoomTilesUp() && U == GridNodes() && hallwaysTileSet == {}
      ensures Approximated() && WalkableCarved() && Carves(walkRandom)
    {
      ResetFloor();
      CreateFloor(partitionRandom, walkRandom);
      U := GridNodes();
      GridNodesMade();
    }

    /** Start, without rendering: the floor with its rooms, the plan of
        links between their centres, the hallways carved along them and the
        floor tiles. With a single room the hallway loop stops at once; with
        two or more it either joins the centres of every link by a walk of
        walkable tiles that avoids the link's exclusion set (every node of
        another room's approximation that lies outside both end rooms'
        approximations), or fails at a link whose centres no such walk
        joins. Every room keeps its approximation box. */
    method Start(partitionRandom: Stream, walkRandom: Stream, primsRandom: Stream)
      returns (outcome: Outcome, ghost U: set<FloorNode>, ghost apx: seq<set<FloorNode>>, ghost walks: seq<seq<FloorNode>>,
               ghost cut: set<FloorNode>)
      requires ValidMinSize(minRoomSize) && dungeonSize.x >= 1 && dungeonSize.y >= 1
      requires HonestStream(partitionRandom) && HonestStream(walkRandom) && HonestStream(primsRandom)
      modifies this
      ensures Filled() && U == GridNodes() && |roomsList| >= 1 && prims != null && ApproxesAre(apx)
      ensures RoomTilesUp() && Approximated()
      ensures outcome.Stopped? <==> |roomsList| == 1
      ensures outcome.Completed? ==> |walks| == |prims.roomLinks| && forall j :: 0 <= j < |walks| ==> Hallway(prims.roomLinks[j], walks[j], U, apx)
      ensures outcome.Completed? ==> forall j, t :: 0 <= j < |walks| && t in walks[j] ==> t.walkable
      ensures outcome.Failed? ==> outcome.at < |prims.roomLinks| && Blocked(prims.roomLinks[outcome.at], cut, apx)
      ensures !outcome.Failed? ==> hallwaysTileSet !! roomsTileSet
    {
      U := BuildFloor(partitionRandom, walkRandom);
      apx := LinkStage(primsRandom, U);
      outcome, walks, cut := HallwayStage(U, apx);
    }
  }
}
