# ProceduralDungeon generator, modelled in Dafny

ProceduralDungeon builds a tile dungeon on a rectangular grid in six steps:

1. **Partition.** A binary space partition (`BSP`) cuts the grid into rectangles. Each cut is vertical or horizontal. Its direction and position are drawn at random. A node is cut only along a side at least twice the minimum room size; the cut is drawn so that the left or lower half is at least the minimum plus one wide and the right or upper half at least the minimum minus one (BSP.cs:80-83), so a half can end up one below the minimum.
2. **Carve rooms.** Each leaf rectangle becomes a `Room`. The room carves its floor shape by random walks from its centre. The walks stay strictly inside the room's internal rectangle.
3. **Stamp the grid.** The generator gives every cell of the grid one `FloorNode`. A node is walkable exactly when its cell was carved by the room that owns it.
4. **Cache and outline.** Each room is approximated by the box around its floor tiles, padded by four cells on every side. Each node caches its edge neighbours and its diagonal corners. Each room collects its border: the non-walkable neighbours and corners of its floor tiles.
5. **Plan links.** A randomised variant of Prim's algorithm (`Prims`) walks over the room centres. At each step it links the current centre to the nearest unvisited centre, the farthest one or a random one. Sometimes it adds a second link.
6. **Carve hallways.** For every link, A* (`AStar.FindPath`) searches a path between the two centres. The path avoids every node of another room's approximation that lies outside both end rooms' approximations; since the approximations are padded by four, the end rooms' boxes can open up parts of a neighbouring room. Its nodes become walkable hallway tiles.

The model follows the source's own form:

- Classes whose fields the source updates in place: `FloorNode`, `Room`, `BSP`, `Prims` and `DungeonGenerator`.
- Methods with loops, each carrying its invariants, where the source iterates.
- Datatypes for values: `RoomLink`, the partition tree's nodes, and A*'s per-node scratch state.

Modules:

- `Common`: the shared vocabulary: vectors, options and random streams.
- `Tiles`: the grid node.
- `Links`: room links.
- `Partition`: the BSP.
- `Rooms`: a room, its random walk, approximation and border.
- `GridCells`: the cell arithmetic behind neighbour caching and `NodeFromWorldPoint`.
- `PathFinding`: A*.
- `Connectivity`: the Prim's variant.
- `Generation`: the `DungeonGenerator` pipeline.

Randomness is modelled as input:

- A `Stream` gives the k-th draw from a half-open integer range. `HonestStream` says every draw lies in its range.
- The BSP takes its own stream, as the source's `System.Random` does. The room walks and the link plan each take a stream of their own, whereas the source draws both from the one shared `UnityEngine.Random`.
- The link plan reserves four stream positions per Prim's step. The source takes only two to four draws per step (see "## Left out").

`DungeonGenerator.Start` and `CreateFloor` are split into stage methods of the same class. Each stage only runs its part of the source in order and passes the facts on to the next (DungeonGenerator.cs):

- `BuildFloor`: lines 42-55, the empty sets and grid, then `CreateFloor`.
- `CreateFloor`: lines 177-238, as `LayFloor` then `FinishStage`.
- `LayFloor`: lines 183-212, as `PartitionRooms` (183-187) then `StampStage` (189-212, `StampRooms`).
- `FinishStage`: lines 214-237, as `ApproxStage` (214-227, `ApproxRooms`), `CacheStage` (229-233, `CacheAll`) and `BorderStage` (234-237, `CacheBorders`).
- `LinkStage` and `PlanStage`: line 56, `LinkRooms` (240-250).
- `HallwayStage`: lines 57-58, `CreateHallways` (252-279) then `FloorStage`.
- `FloorStage`: line 58, `InstantiateFloor` (69-85).

## Model

| member | source | states |
|---|---|---|
| Tiles.FloorNode.constructor | ProceduralDungeon/Assets/Scripts/FloorNode.cs:31-36 | A new node holds its world position, walkability and grid position. It has no room, no neighbours or corners, no path parent and zero costs. |
| Tiles.FloorNode.SetWalkable | ProceduralDungeon/Assets/Scripts/FloorNode.cs:48-56 | Afterwards `GetWalkable` returns the value set. Only the walkable flag changes. |
| Tiles.FloorNode.SetNeighbors | ProceduralDungeon/Assets/Scripts/FloorNode.cs:58-66 | Afterwards `GetNeighbors` returns the list set. Only that list changes. |
| Tiles.FloorNode.SetCorners | ProceduralDungeon/Assets/Scripts/FloorNode.cs:68-76 | Afterwards `GetCorners` returns the list set. Only that list changes. |
| Tiles.FloorNode.SetParentRoom | ProceduralDungeon/Assets/Scripts/FloorNode.cs:78-86 | Afterwards `GetParentRoom` names the given room. |
| Tiles.FloorNode.SetPathParent | ProceduralDungeon/Assets/Scripts/FloorNode.cs:88-96 | Afterwards `GetPathParent` returns the given node. |
| Tiles.FloorNode.SetGCost | ProceduralDungeon/Assets/Scripts/FloorNode.cs:98-106 | Afterwards `GetGCost` returns the given cost. |
| Tiles.FloorNode.SetHCost | ProceduralDungeon/Assets/Scripts/FloorNode.cs:108-116 | Afterwards `GetHCost` returns the given cost. |
| Tiles.FloorNode.DistTo | ProceduralDungeon/Assets/Scripts/FloorNode.cs:123-126 | The distance is never negative. It is zero exactly when the two world positions coincide. |
| Tiles.DistToIsMetric | ProceduralDungeon/Assets/Scripts/FloorNode.cs:123-126 | `DistTo` is a metric on positions: zero to itself, symmetric, and it obeys the triangle inequality. This makes it an admissible A* heuristic. |
| Tiles.DistToOnScaledGrid | ProceduralDungeon/Assets/Scripts/FloorNode.cs:123-126 | When world positions are origin + diameter × grid position, `DistTo` is the diameter times the Manhattan distance between grid cells. |
| Links.EndpointsKept | ProceduralDungeon/Assets/Scripts/RoomLink.cs:13-27 | A link returns the two centres it was built with, including a null second centre. |
| Links.EndpointOrderKept | ProceduralDungeon/Assets/Scripts/RoomLink.cs:13-27 | Swapping the arguments swaps the getters. The last clause, that a link equals its reverse only when both ends are the same node, is a fact about the model's `RoomLink` value type; the source's `RoomLink` is a reference class without an equality of its own. |
| Partition.ChooseAxis | ProceduralDungeon/Assets/Scripts/BSP.cs:42-69 | A node stays a leaf exactly when it is below the minimum size, or when it cannot be halved either way. A vertical cut needs room for two minimum widths, and a horizontal cut two minimum heights. Direction 0 prefers a horizontal cut and direction 1 a vertical one. The other axis is used only when the preferred one is impossible. |
| Partition.VerticalHalves | ProceduralDungeon/Assets/Scripts/BSP.cs:82-83 | The two halves of a vertical cut have widths that add up to the parent's width. Both have the parent's height, and the right half starts where the left half ends. |
| Partition.HorizontalHalves | ProceduralDungeon/Assets/Scripts/BSP.cs:100-101 | The horizontal counterpart: the heights add up, both halves keep the width, and the upper half starts where the lower half ends. |
| Partition.HalvesTile | ProceduralDungeon/Assets/Scripts/BSP.cs:76-107 | Both kinds of cut tile the parent: every cell of the parent lies in exactly one half, and nothing else does. |
| Partition.LeavesOf | ProceduralDungeon/Assets/Scripts/BSP.cs:125-141 | Every gathered index is a leaf at or after the starting index. A leaf gathers only itself. |
| Partition.LeavesTile | ProceduralDungeon/Assets/Scripts/BSP.cs:24-71 | The leaves of any subtree built by the subdivision tile that subtree's rectangle: every cell is in exactly one leaf. |
| Partition.TwoLeavesWhenSplittable | ProceduralDungeon/Assets/Scripts/BSP.cs:42-69 | A root large enough to be cut yields at least two leaves. |
| Partition.BSP.constructor | ProceduralDungeon/Assets/Scripts/BSP.cs:16-22 | Building the partition subdivides the root completely. The tree is valid, and the root keeps the given rectangle. |
| Partition.BSP.GetLeaves | ProceduralDungeon/Assets/Scripts/BSP.cs:24-31 | Returns the root's leaves, and they tile the whole grid. |
| Partition.BSP.Subdivide | ProceduralDungeon/Assets/Scripts/BSP.cs:33-71 | The queue loop ends: the pending area strictly decreases with every node it processes. It leaves a valid tree in which every node was split or kept exactly as its drawn direction and cut dictate. |
| Partition.BSP.ProcessFront | ProceduralDungeon/Assets/Scripts/BSP.cs:36-70 | One queue step keeps the queue invariant, and strictly lowers the pending area. |
| Partition.BSP.DrawAndSplit | ProceduralDungeon/Assets/Scripts/BSP.cs:47-69 | For a node at least the minimum size, the direction draw and the split it leads to keep the queue invariant and the root's rectangle, and strictly lower the pending area. |
| Partition.BSP.SplitByDirection | ProceduralDungeon/Assets/Scripts/BSP.cs:48-69 | The node is split along the axis `ChooseAxis` picks for the drawn direction, or left as a leaf. |
| Partition.BSP.SplitVertical | ProceduralDungeon/Assets/Scripts/BSP.cs:76-89 | The cut is drawn in [minX, width - minX]. The node gets its two halves as new children, appended to the arena. Their combined weight is below the parent's. |
| Partition.BSP.SplitHorizontal | ProceduralDungeon/Assets/Scripts/BSP.cs:94-107 | The same for a horizontal cut in [minY, height - minY]. |
| Rooms.CenterOf | ProceduralDungeon/Assets/Scripts/Room.cs:39 | The centre lies at half the room's size from its lower-left corner, rounded down. |
| Rooms.Step | ProceduralDungeon/Assets/Scripts/Room.cs:159-164 | A walk step either stays put or moves one cell. It moves exactly when the target cell is strictly inside the internal rectangle. |
| Rooms.CarvedInside | ProceduralDungeon/Assets/Scripts/Room.cs:150-168 | Every carved position lies strictly inside the internal rectangle. |
| Rooms.CarvedGrows | ProceduralDungeon/Assets/Scripts/Room.cs:152-166 | Each further walk only adds positions. |
| Rooms.NarrowRoomCarvesNothing | ProceduralDungeon/Assets/Scripts/Room.cs:36-42 | A room three cells wide or high, or smaller, cannot step anywhere: it carves nothing, and not even its centre is added. |
| Rooms.BorderOfAdd | ProceduralDungeon/Assets/Scripts/Room.cs:129-148 | The border of a tile set grows tile by tile by that tile's non-walkable neighbours and corners. |
| Rooms.Room.constructor | ProceduralDungeon/Assets/Scripts/Room.cs:30-45 | Sets the corner, size, internal rectangle and centre. The carved positions are the union of the random walks from the centre. All tile sets start empty. |
| Rooms.Room.RandomWalk | ProceduralDungeon/Assets/Scripts/Room.cs:150-168 | The nested loops return exactly the positions `Carved` describes for the given walks. |
| Rooms.Room.AddInternalTile | ProceduralDungeon/Assets/Scripts/Room.cs:77-80 | The tile joins the room's floor tiles. |
| Rooms.Room.AddApproximationTile | ProceduralDungeon/Assets/Scripts/Room.cs:82-85 | The tile joins the room's approximation. |
| Rooms.Room.Approximate | ProceduralDungeon/Assets/Scripts/Room.cs:102-127 | The corners are the least and greatest floor coordinates, padded by four. With no floor tiles the model's corners are `int.MaxValue - 4` and `int.MinValue + 4` (lower above upper). |
| Rooms.ApproximationNonEmpty | ProceduralDungeon/Assets/Scripts/Room.cs:102-127 | With any floor tile in range, the padded box lies the right way round and contains every floor tile. |
| Rooms.Room.CollectNonWalkable | ProceduralDungeon/Assets/Scripts/Room.cs:133-146 | Returns exactly the non-walkable nodes of the list. |
| Rooms.Room.CacheBorderTiles | ProceduralDungeon/Assets/Scripts/Room.cs:129-148 | The border gains exactly the non-walkable neighbours and corners of the room's floor tiles. |
| GridCells.Clamp | ProceduralDungeon/Assets/Scripts/DungeonGenerator.cs:341-344 | The result lies in [lo, hi], and a value already in range is unchanged. |
| GridCells.NeighborCellsExact | ProceduralDungeon/Assets/Scripts/DungeonGenerator.cs:281-307 | The cached neighbours of a cell are exactly the in-grid cells at Manhattan distance one. |
| GridCells.CornerCellsExact | ProceduralDungeon/Assets/Scripts/DungeonGenerator.cs:309-335 | The cached corners of a cell are exactly the in-grid diagonal cells. |
| GridCells.NeighborSymmetric | ProceduralDungeon/Assets/Scripts/DungeonGenerator.cs:281-307 | Within the grid, q neighbours p exactly when p neighbours q. |
| GridCells.NeighborCount | ProceduralDungeon/Assets/Scripts/DungeonGenerator.cs:281-307 | On a grid of at least 2 by 2 every cell has two to four neighbours. An inner cell has all four, in left, right, down, up order. |
| PathFinding.LowestCost | ProceduralDungeon/Assets/Scripts/AStar.cs:22-29 | The scan returns a node that no other open node beats, by f cost and then h cost. Among equals it returns the first one. |
| PathFinding.Relaxed | ProceduralDungeon/Assets/Scripts/AStar.cs:53-63 | A neighbour not yet open always gets the new g and h costs via the current node. An open neighbour gets them exactly when the new g cost is lower, and otherwise keeps its state. |
| PathFinding.RelaxedIdempotent | ProceduralDungeon/Assets/Scripts/AStar.cs:53-63 | Relaxing the same neighbour again through the same node changes nothing. |
| PathFinding.RemoveAtMembers | ProceduralDungeon/Assets/Scripts/AStar.cs:31 | Removing the chosen node from the open list keeps the others and their distinctness. |
| PathFinding.TakeLowest | ProceduralDungeon/Assets/Scripts/AStar.cs:22-32 | The dequeued node is an open node that no open node beats. It leaves the open list, which keeps every other node, and joins the processed set. The search invariant holds with that node ranked next, and no scratch field changes. |
| PathFinding.RelaxOne | ProceduralDungeon/Assets/Scripts/AStar.cs:53-64 | An unprocessed neighbour not yet open is appended to the open list; otherwise the list is unchanged. Only that neighbour's scratch state changes, to its relaxed value via the current node. |
| PathFinding.Relax | ProceduralDungeon/Assets/Scripts/AStar.cs:47-65 | After the neighbour loop every unprocessed neighbour of the current node is open. Each has the relaxed state via the current node, every other node keeps its state, and the old open list is a prefix of the new one. The search invariant still holds. |
| PathFinding.RetracePath | ProceduralDungeon/Assets/Scripts/AStar.cs:36-44 | Following path parents back from the end reaches the start. The returned set is the node set of a walk from start to end along cached neighbours, outside the exclusion set after the start, that follows the parent chain. |
| PathFinding.Round | ProceduralDungeon/Assets/Scripts/AStar.cs:20-66 | One pass of the search loop either returns a path that is such a walk, or keeps the search invariant with one more node ranked. Excluded nodes and the start keep their scratch fields. |
| PathFinding.FindPath | ProceduralDungeon/Assets/Scripts/AStar.cs:13-69 | A found path is the node set of a walk over the grid. The walk runs from start to end, moves between cached neighbours, avoids the exclusion set after the start, and follows the parent and cost chain. No path means the explored set holds the start but not the end, and only excluded nodes lie beyond it. Scratch fields of excluded nodes are never touched. |
| PathFinding.FoundPathCost | ProceduralDungeon/Assets/Scripts/AStar.cs:34-45 | Along a found path the end's g cost is the start's plus the path length. This is at least the straight distance. |
| PathFinding.SeparatedUnreachable | ProceduralDungeon/Assets/Scripts/AStar.cs:68 | When the search gives up, no walk avoiding the exclusion set leads from start to end. |
| Connectivity.UnvisitedMembers | ProceduralDungeon/Assets/Scripts/Prims.cs:46-48 | The possible next nodes are exactly the nodes not yet visited. |
| Connectivity.UnvisitedCount | ProceduralDungeon/Assets/Scripts/Prims.cs:46-48 | The number of possible next nodes is the total minus the visited count. |
| Connectivity.Pick | ProceduralDungeon/Assets/Scripts/Prims.cs:115-128 | Null exactly when the index is out of range. Otherwise the result is one of the possibles. |
| Connectivity.ClosestNode | ProceduralDungeon/Assets/Scripts/Prims.cs:79-95 | Null exactly when there is nothing to pick. Otherwise the first node at least distance. |
| Connectivity.FarthestNode | ProceduralDungeon/Assets/Scripts/Prims.cs:97-113 | Null exactly when there is nothing to pick. Otherwise the first node at greatest distance. |
| Connectivity.RandomNode | ProceduralDungeon/Assets/Scripts/Prims.cs:115-128 | Returns the node at the drawn index, or null when the index is out of range. |
| Connectivity.LinkCount | ProceduralDungeon/Assets/Scripts/Prims.cs:44-76 | k steps produce between k and 2k links: one primary link per step plus the extra second links. |
| Connectivity.PrimaryAt | ProceduralDungeon/Assets/Scripts/Prims.cs:66-73 | Step i's primary link joins the i-th and (i+1)-th nodes of the chain. It is followed by the extra link when that step drew one. |
| Connectivity.WalkCoversAll | ProceduralDungeon/Assets/Scripts/Prims.cs:44 | A chain of distinct nodes as long as the node list visits every node. |
| Connectivity.LinksOfMembers | ProceduralDungeon/Assets/Scripts/Prims.cs:66-73 | Every link comes from some step, as its primary link or its extra one. |
| Connectivity.Prims.constructor | ProceduralDungeon/Assets/Scripts/Prims.cs:17-25 | Stores the nodes and the three chances, and leaves the links as planned by the walk from the drawn first node. |
| Connectivity.Prims.MST | ProceduralDungeon/Assets/Scripts/Prims.cs:39-77 | After the loop the links are exactly those of a walk that visits every node once. At each step it chooses by the drawn branch (random, farthest, closest), with an optional second link. |
| Connectivity.Prims.Iterate | ProceduralDungeon/Assets/Scripts/Prims.cs:46-75 | One iteration picks the next node and optional extra as the rolls dictate, and appends that iteration's links. |
| Connectivity.PlannedEnds | ProceduralDungeon/Assets/Scripts/Prims.cs:66-73 | Every link end is one of the nodes. With two or more nodes, every link has a second end. |
| Connectivity.PlannedOutcome | ProceduralDungeon/Assets/Scripts/Prims.cs:39-77 | With n ≥ 2 nodes there are n-1 steps and n-1 to 2(n-1) links, and the chain visits every node. With one node there is at least one link, and the first is (node, null). |
| Generation.RoomsDistinct | ProceduralDungeon/Assets/Scripts/DungeonGenerator.cs:183-187 | Rooms that tile the grid are distinct objects. |
| Generation.LeavesGiveRooms | ProceduralDungeon/Assets/Scripts/DungeonGenerator.cs:183-187 | Rooms built one per leaf of a tiling partition tile the grid. |
| Generation.PathsUnionMembers | ProceduralDungeon/Assets/Scripts/DungeonGenerator.cs:272 | Every hallway tile comes from some carved path. |
| Generation.PlanEnds | ProceduralDungeon/Assets/Scripts/DungeonGenerator.cs:240-268 | When the i-th centre is a grid node owned by room i, every link end is such a node. With two or more rooms no link has a null second end; with one room the first link has one. |
| Generation.NewRoom | ProceduralDungeon/Assets/Scripts/BSP.cs:82-83 | A new room over the leaf's rectangle, with its centre at half its size. Its carved positions are those of the walks drawn from the stream, and its tile sets are empty. |
| Generation.DungeonGenerator.constructor | ProceduralDungeon/Assets/Scripts/DungeonGenerator.cs:12-35 | Stores the dungeon size, minimum room size and the three chances, with nothing generated yet. |
| Generation.DungeonGenerator.ResetFloor | ProceduralDungeon/Assets/Scripts/DungeonGenerator.cs:47-52 | A fresh grid of the dungeon's size, with empty room list, room tile set and hallway set. |
| Generation.PartitionedRooms | ProceduralDungeon/Assets/Scripts/DungeonGenerator.cs:183-187 | The rooms built from the BSP leaves of the whole dungeon tile the grid. There is at least one. Each is new, has its centre at half its size and empty tile sets, and carved with its own stretch of the walk stream (`Walked`). |
| Generation.RoomsFromLeaves | ProceduralDungeon/Assets/Scripts/DungeonGenerator.cs:184-187 | One new room per leaf, each leaf used exactly once, with empty tile sets. Room k's carved set is `Carved` of the walks drawn from draw `bases[k]`, and each room's base follows the previous room's draws (`Walked`). |
| Generation.DungeonGenerator.PartitionRooms | ProceduralDungeon/Assets/Scripts/DungeonGenerator.cs:183-187 | The rooms built from the BSP leaves tile the grid. There is at least one, and each has its centre at half its size. Each room's carved set is the one its walks drew from the walk stream (`Carves`). |
| Generation.DungeonGenerator.StampCell | ProceduralDungeon/Assets/Scripts/DungeonGenerator.cs:198-209 | Cell c gets a new node owned by room k, walkable exactly when the room carved c. Only a walkable node joins the room's floor tiles and the room tile set. Every other cell keeps its node. |
| Generation.DungeonGenerator.StampRooms | ProceduralDungeon/Assets/Scripts/DungeonGenerator.cs:189-212 | Every cell of every room holds a new node owned by that room. It is walkable exactly when the room carved that cell. The room tile set holds exactly the walkable ones. |
| Generation.DungeonGenerator.StampedFills | ProceduralDungeon/Assets/Scripts/DungeonGenerator.cs:189-212 | Because the rooms tile the grid, stamping fills every grid cell with a node at that cell. Each cell's node is walkable exactly when the room that owns it carved that cell. |
| Generation.DungeonGenerator.Snap | ProceduralDungeon/Assets/Scripts/DungeonGenerator.cs:337-346 | The snapped cell is in the grid, and an in-grid position snaps to itself. |
| Generation.DungeonGenerator.NodeFromWorldPoint | ProceduralDungeon/Assets/Scripts/DungeonGenerator.cs:337-346 | Returns the node at the clamped cell. For a position inside the grid, that is the node at that very position. |
| Generation.DungeonGenerator.ApproxRoom | ProceduralDungeon/Assets/Scripts/DungeonGenerator.cs:214-227 | The corners are the floor's extremes padded by four. The approximation holds the node of every position in that box, and every node in it lies between the snapped corners. It consists of grid nodes and holds every floor tile. |
| Generation.DungeonGenerator.ApproxRooms | ProceduralDungeon/Assets/Scripts/DungeonGenerator.cs:214-227 | Every room's approximation consists of grid nodes and contains all its floor tiles. It is the padded bounding box of the floor: it holds the node of every position in the box, and every node in it lies between the snapped corners. |
| Generation.DungeonGenerator.TryAt | ProceduralDungeon/Assets/Scripts/DungeonGenerator.cs:286-305 | One guarded access appends the node at q when q is in the grid, and nothing when the access would throw. |
| Generation.DungeonGenerator.CacheNeighbors | ProceduralDungeon/Assets/Scripts/DungeonGenerator.cs:281-307 | The node's neighbour list holds, in order, the nodes at the in-grid cells among left, right, down and up. |
| Generation.DungeonGenerator.CacheCorners | ProceduralDungeon/Assets/Scripts/DungeonGenerator.cs:309-335 | The node's corner list holds, in order, the nodes at the in-grid diagonal cells. |
| Generation.DungeonGenerator.CacheAll | ProceduralDungeon/Assets/Scripts/DungeonGenerator.cs:229-233 | After the loops every grid node has its neighbour and corner lists cached. |
| Generation.DungeonGenerator.CacheBorders | ProceduralDungeon/Assets/Scripts/DungeonGenerator.cs:234-237 | Every room's border is the set of non-walkable neighbours and corners of its floor tiles. |
| Generation.DungeonGenerator.CreateFloor | ProceduralDungeon/Assets/Scripts/DungeonGenerator.cs:177-238 | The grid is full, and the rooms tile it. Room tiles are walkable. Each room's approximation is its padded bounding box: it holds the node of every position in the box and of every floor tile, and nothing outside the snapped corners. Adjacency is cached and borders are set. Every cell is walkable exactly when its room carved it (`WalkableCarved`), and each room's carved set is the one its walks drew (`Carves`). |
| Generation.DungeonGenerator.WalkableInside | ProceduralDungeon/Assets/Scripts/Room.cs:35-37 | After the floor is built, every walkable cell lies strictly inside its room's internal rectangle, which leaves room for hallways, and within the walk length of the room's centre (Room.cs:150-168). |
| Generation.DungeonGenerator.CachedAdjacency | ProceduralDungeon/Assets/Scripts/DungeonGenerator.cs:281-335 | A grid node t is in a cached node's neighbours exactly when the two are one step apart. It is in its corners exactly when they are diagonal. |
| Generation.DungeonGenerator.CachedNeighborsSymmetric | ProceduralDungeon/Assets/Scripts/DungeonGenerator.cs:281-307 | Cached neighbourhood is symmetric between grid nodes. |
| Generation.DungeonGenerator.CachedNeighborCount | ProceduralDungeon/Assets/Scripts/DungeonGenerator.cs:281-307 | Every cached node of a grid at least 2 by 2 has two to four neighbours. |
| Generation.DungeonGenerator.PlacedOwned | ProceduralDungeon/Assets/Scripts/DungeonGenerator.cs:203-204 | Every grid node belongs to the room whose rectangle contains it. |
| Generation.DungeonGenerator.CentreInRoom | ProceduralDungeon/Assets/Scripts/DungeonGenerator.cs:243-248 | A room's centre lies in its own rectangle, and `NodeFromWorldPoint` of it is the grid node at the centre. |
| Generation.DungeonGenerator.CentresDistinct | ProceduralDungeon/Assets/Scripts/DungeonGenerator.cs:243-249 | The centre nodes handed to `Prims` are grid nodes, and no two are the same. |
| Generation.DungeonGenerator.CollectCentres | ProceduralDungeon/Assets/Scripts/DungeonGenerator.cs:243-248 | The list holds, room by room, the node at each room's centre. |
| Generation.DungeonGenerator.LinkRooms | ProceduralDungeon/Assets/Scripts/DungeonGenerator.cs:240-250 | The planner holds the room centres in room order and the generator's three chances. Its links are those planned from the drawn first centre and rolls. |
| Generation.DungeonGenerator.GridClosed | ProceduralDungeon/Assets/Scripts/DungeonGenerator.cs:229-233 | Once adjacency is cached, every neighbour of a grid node is a grid node. |
| Generation.DungeonGenerator.UniteApproximations | ProceduralDungeon/Assets/Scripts/DungeonGenerator.cs:257-261 | The union holds exactly the nodes of some room's approximation. |
| Generation.DungeonGenerator.CarveLink | ProceduralDungeon/Assets/Scripts/DungeonGenerator.cs:257-272 | A found path is a walk between the link's centres that avoids the link's exclusion set (every node of another room's approximation that lies outside both end rooms' approximations), and its nodes join the hallways. Otherwise the start is cut off from the end and the hallways are unchanged. |
| Generation.DungeonGenerator.CreateHallways | ProceduralDungeon/Assets/Scripts/DungeonGenerator.cs:252-279 | Links are carved in order. The loop stops at the first link with no second centre, or fails at a link A* cannot join. The hallways are the union of the walks carved so far. Only after a complete pass do the hallway tiles become walkable. |
| Generation.DungeonGenerator.MarkHallways | ProceduralDungeon/Assets/Scripts/DungeonGenerator.cs:275-278 | Every hallway tile is walkable afterwards. |
| Generation.DungeonGenerator.FloorCells | ProceduralDungeon/Assets/Scripts/DungeonGenerator.cs:69-83 | The cells that get a floor tile are exactly the walkable grid cells, visited row by row. |
| Generation.DungeonGenerator.InstantiateFloor | ProceduralDungeon/Assets/Scripts/DungeonGenerator.cs:69-85 | Floor tiles go on the walkable cells. Room tiles are then taken out of the hallway set, which becomes disjoint from the room tiles. |
| Generation.DungeonGenerator.Start | ProceduralDungeon/Assets/Scripts/DungeonGenerator.cs:40-67 | After generation the grid is full and room tiles are walkable. With one room the hallway loop stops at once. With more rooms it either carves, for every link, a walkable walk between the centres that avoids the link's exclusion set (every node of another room's approximation that lies outside both end rooms' approximations), or it fails at a link whose centres no such walk joins. Unless it fails, hallway and room tiles are disjoint. Every room keeps its approximation box (`Approximated`). |

## Left out

- Floating point and world coordinates:
  - World positions are the grid coordinates themselves, with tile diameter 1 and origin (0, 0). `Snap` replaces the rounding in `NodeFromWorldPoint`. It is an abstraction, not the source's arithmetic: the source adds the integer `dungeonSize.x / 2`, so with an odd size it does not map every cell to itself (with size 5, cells 2 and 3 both go to node 2).
  - `Tiles.DistToOnScaledGrid` states what `DistTo` gives under any integer origin and diameter.
  - `Vector3.Distance` in `ClosestNode`/`FarthestNode` is replaced by the squared integer distance `SqDist`, which orders nodes the same way.
- Rendering and the scene:
  - `InstantiateWalls` and `InstantiateCeiling`, the floor GameObjects and the `worldTiles` parent transform are left out. `FloorCells` states which cells get a floor tile.
  - The Player scripts are not part of this model.
- Randomness: `System.Random`, `UnityEngine.Random` and the Guid-derived seeds are replaced by integer streams passed as parameters.
  - The generator draws the link plan's first node and then four numbers per Prim's step, from one stream.
- `Generation.PrimsRolls` reserves four draws for every Prim's step. The source draws two to four:
  - the branch roll and the second-link roll always (Prims.cs:51, 69);
  - the target index only in the random branch (Prims.cs:54, 117);
  - the extra target index only when the second-link roll succeeds (Prims.cs:69-71, 117).
  The model reads the same decisions from its own positions, so the unused positions are skipped rather than shared with the next step.
- 32-bit integers: arithmetic is unbounded. The only overflow that matters, the `int.MaxValue`/`int.MinValue` sentinels of `Approximate`, is written out with those constants.
- `Rooms.Room.Approximate`: with no floor tiles, the model pads the exact sentinels by four. The source keeps the extremes in `float`s (Room.cs:104, 124-125), where `int.MaxValue - 4` rounds back to 2^31 and `int.MinValue + 4` to -2^31. Nothing observes the difference: the box is empty either way, so the approximation loop adds no node.
- Iteration order of `HashSet`s:
  - The leaves become rooms in an arbitrary order.
  - Room tile sets are iterated in an arbitrary order.
  - The unvisited centres of `Prims` are taken in list order, which is the order .NET gives a set filled from that list.
- `Rooms.Room.CacheBorderTiles`: the source adds each non-walkable neighbour while it iterates. The model gathers the border and then adds it; the resulting set is the same.
- `Tiles.FloorNode.constructor` starts the neighbour and corner lists empty, where the source leaves them null. `CacheAll` fills both lists for every node before anything reads them.
- Rooms of inner partition nodes: the source constructs a `Room`, and so runs its random walk, for the root (DungeonGenerator.cs:183) and for both halves of every cut (BSP.cs:82-83, 100-101). The model builds rooms only for the leaves, so the draws spent on the inner rooms' walks are not modelled.
- `Partition.BSP.constructor`: the ghost record of directions and cuts is not tied to the order in which the partition stream is drawn. Each single split does tie its cut to the stream (`SplitVertical`, `SplitHorizontal`).
- `Generation.DungeonGenerator.Start`, `BuildFloor`, `PartitionRooms` and `Generation.PartitionedRooms` require both dungeon dimensions to be at least 1. With a dimension of 0 the source throws on the array access in `NodeFromWorldPoint` (DungeonGenerator.cs:343-345).
- The n/e/s/w and ne/se/sw/nw public fields of `FloorNode` are never assigned by the generator, so they are not modelled.
- `FloorNode.parentRoom` holds the index of the owning room in the room list rather than a reference to the room.
- `Partition.BSP.constructor`, `Generation.DungeonGenerator.PartitionRooms` and `Generation.PartitionedRooms` require a minimum room size of at least 2 in each dimension. With 0 or 1 the source can split forever or produce empty rooms.
- `Generation.DungeonGenerator.constructor` requires the three connection chances to lie in 0..100, the range the inspector exposes.
- `Generation.DungeonGenerator.CreateHallways`: when A* returns null the source passes null to `UnionWith`, which throws and aborts generation. The model ends with the `Failed` outcome at that link instead.
- `Tiles.FloorNode.GetFCost` and the plain getters have no contract of their own. They appear inside the contracts above.
