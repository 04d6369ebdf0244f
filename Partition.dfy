/** Binary space partitioning of the dungeon rectangle (BSP). The tree is
    kept as an arena: `nodes[0]` is the root and a node's children are
    indices into the same sequence, always greater than its own index. */
module Partition {
  import opened Common

  /** The bounds a BSP node holds: lower-left cell and size. */
  datatype Region = Region(lowerLeft: Vec2, size: Vec2)

  predicate Contains(r: Region, p: Vec2) {
    r.lowerLeft.x <= p.x < r.lowerLeft.x + r.size.x &&
    r.lowerLeft.y <= p.y < r.lowerLeft.y + r.size.y
  }

  /** Regions a and b together cover exactly the cells of r, with no cell in both. */
  ghost predicate TilesPair(r: Region, a: Region, b: Region) {
    (forall p :: Contains(r, p) <==> Contains(a, p) || Contains(b, p)) &&
    (forall p :: !(Contains(a, p) && Contains(b, p)))
  }

  /** A tree node: its region and its children (null as None). */
  datatype TreeNode = TreeNode(room: Region, left: Option<nat>, right: Option<nat>) {
    predicate IsLeaf() { left.None? && right.None? }
  }

  datatype Axis = Stay | Vertical | Horizontal

  predicate ValidMinSize(minSplitSize: Vec2) {
    minSplitSize.x >= 2 && minSplitSize.y >= 2
  }

  /** The split a node of the given size gets when the direction draw is
      `dir` (0 tries a horizontal cut first, anything else a vertical one). */
  function ChooseAxis(size: Vec2, minSplitSize: Vec2, dir: int): (axis: Axis)
    ensures axis == Stay <==>
              size.x < minSplitSize.x || size.y < minSplitSize.y ||
              (size.x < minSplitSize.x * 2 && size.y < minSplitSize.y * 2)
    ensures axis == Vertical ==> size.x >= minSplitSize.x * 2 && size.y >= minSplitSize.y
    ensures axis == Horizontal ==> size.y >= minSplitSize.y * 2 && size.x >= minSplitSize.x
    ensures axis == Vertical && dir == 0 ==> size.y < minSplitSize.y * 2
    ensures axis == Horizontal && dir != 0 ==> size.x < minSplitSize.x * 2
  {
    if size.x < minSplitSize.x || size.y < minSplitSize.y then Stay
    else if dir == 0 then
      if size.y >= minSplitSize.y * 2 then Horizontal
      else if size.x >= minSplitSize.x * 2 then Vertical
      else Stay
    else
      if size.x >= minSplitSize.x * 2 then Vertical
      else if size.y >= minSplitSize.y * 2 then Horizontal
      else Stay
  }

  /** The two children of a vertical cut after column `cut` (counted from
      the region's left edge). */
  function VerticalHalves(r: Region, cut: int): (halves: (Region, Region))
    requires 0 <= cut < r.size.x
    ensures halves.0.size.x + halves.1.size.x == r.size.x
    ensures halves.0.size.y == r.size.y && halves.1.size.y == r.size.y
    ensures halves.1.lowerLeft.x == r.lowerLeft.x + halves.0.size.x
  {
    (Region(r.lowerLeft, Vec2(cut + 1, r.size.y)),
     Region(r.lowerLeft.Plus(Vec2(cut + 1, 0)), Vec2(r.size.x - cut - 1, r.size.y)))
  }

  /** The two children of a horizontal cut after row `cut`. */
  function HorizontalHalves(r: Region, cut: int): (halves: (Region, Region))
    requires 0 <= cut < r.size.y
    ensures halves.0.size.y + halves.1.size.y == r.size.y
    ensures halves.0.size.x == r.size.x && halves.1.size.x == r.size.x
    ensures halves.1.lowerLeft.y == r.lowerLeft.y + halves.0.size.y
  {
    (Region(r.lowerLeft, Vec2(r.size.x, cut + 1)),
     Region(r.lowerLeft.Plus(Vec2(0, cut + 1)), Vec2(r.size.x, r.size.y - cut - 1)))
  }

  /** Either cut divides a region into two halves that tile it. */
  lemma HalvesTile(r: Region, cut: int)
    ensures 0 <= cut < r.size.x ==> TilesPair(r, VerticalHalves(r, cut).0, VerticalHalves(r, cut).1)
    ensures 0 <= cut < r.size.y ==> TilesPair(r, HorizontalHalves(r, cut).0, HorizontalHalves(r, cut).1)
  {
  }

  /** Children come after their parent and are both present or both absent. */
  predicate Tree(nodes: seq<TreeNode>) {
    forall i :: 0 <= i < |nodes| ==> ChildrenAfter(nodes, i)
  }

  predicate ChildrenAfter(nodes: seq<TreeNode>, i: nat)
    requires i < |nodes|
  {
    var n := nodes[i];
    (n.left.Some? <==> n.right.Some?) &&
    (n.left.Some? ==> i < n.left.value < |nodes| && i < n.right.value < |nodes|)
  }

  /** Node i was processed with direction draw `dir` and cut draw `cut`:
      it is a leaf exactly when ChooseAxis says so, and otherwise its
      children are the two halves of its region at a cut in range. */
  predicate SplitAsDrawn(nodes: seq<TreeNode>, i: nat, minSplitSize: Vec2, dir: int, cut: int)
    requires Tree(nodes) && i < |nodes| && ValidMinSize(minSplitSize)
  {
    var n := nodes[i];
    ChildrenAfter(nodes, i) && (dir == 0 || dir == 1) &&
    match ChooseAxis(n.room.size, minSplitSize, dir)
    case Stay => n.IsLeaf()
    case Vertical =>
      !n.IsLeaf() && minSplitSize.x <= cut <= n.room.size.x - minSplitSize.x &&
      (nodes[n.left.value].room, nodes[n.right.value].room) == VerticalHalves(n.room, cut)
    case Horizontal =>
      !n.IsLeaf() && minSplitSize.y <= cut <= n.room.size.y - minSplitSize.y &&
      (nodes[n.left.value].room, nodes[n.right.value].room) == HorizontalHalves(n.room, cut)
  }

  ghost predicate AllSplitAsDrawn(nodes: seq<TreeNode>, minSplitSize: Vec2, dirs: seq<int>, cuts: seq<int>) {
    ValidMinSize(minSplitSize) && Tree(nodes) && |dirs| == |nodes| && |cuts| == |nodes| &&
    forall i {:trigger SplitAsDrawn(nodes, i, minSplitSize, dirs[i], cuts[i])} :: 0 <= i < |nodes| ==> SplitAsDrawn(nodes, i, minSplitSize, dirs[i], cuts[i])
  }

  /** Node.GetLeaves: the leaf indices of the subtree rooted at i. */
  function LeavesOf(nodes: seq<TreeNode>, i: nat): (leaves: set<nat>)
    requires Tree(nodes) && i < |nodes|
    ensures forall l :: l in leaves ==> i <= l < |nodes| && nodes[l].IsLeaf()
    ensures nodes[i].IsLeaf() ==> leaves == {i}
    decreases |nodes| - i
  {
    var n := nodes[i];
    assert ChildrenAfter(nodes, i);
    var children :=
      (if n.left.Some? then LeavesOf(nodes, n.left.value) else {}) +
      (if n.right.Some? then LeavesOf(nodes, n.right.value) else {});
    if n.left.None? && n.right.None? then children + {i} else children
  }

  /** The leaf regions tile r: every cell of r lies in exactly one of them,
      and none of them reaches outside r. */
  ghost predicate Tiling(nodes: seq<TreeNode>, leaves: set<nat>, r: Region) {
    (forall l :: l in leaves ==> l < |nodes|) &&
    (forall p :: Contains(r, p) ==> exists l :: l in leaves && Contains(nodes[l].room, p)) &&
    (forall l, p :: l in leaves && Contains(nodes[l].room, p) ==> Contains(r, p)) &&
    (forall l1, l2, p :: l1 in leaves && l2 in leaves && Contains(nodes[l1].room, p) && Contains(nodes[l2].room, p) ==> l1 == l2)
  }

  /** The children of a split node tile its region. */
  lemma SplitTiles(nodes: seq<TreeNode>, minSplitSize: Vec2, dir: int, cut: int, i: nat)
    requires Tree(nodes) && i < |nodes| && ValidMinSize(minSplitSize)
    requires SplitAsDrawn(nodes, i, minSplitSize, dir, cut) && !nodes[i].IsLeaf()
    ensures TilesPair(nodes[i].room, nodes[nodes[i].left.value].room, nodes[nodes[i].right.value].room)
  {
    HalvesTile(nodes[i].room, cut);
  }

  /** The leaves under any node tile that node's region. */
  lemma {:induction false} LeavesTile(nodes: seq<TreeNode>, minSplitSize: Vec2, dirs: seq<int>, cuts: seq<int>, i: nat)
    requires AllSplitAsDrawn(nodes, minSplitSize, dirs, cuts) && i < |nodes|
    ensures Tiling(nodes, LeavesOf(nodes, i), nodes[i].room)
    decreases |nodes| - i
  {
    var n := nodes[i];
    if !n.IsLeaf() {
      assert ChildrenAfter(nodes, i);
      var l, r := n.left.value, n.right.value;
      LeavesTile(nodes, minSplitSize, dirs, cuts, l);
      LeavesTile(nodes, minSplitSize, dirs, cuts, r);
      SplitTiles(nodes, minSplitSize, dirs[i], cuts[i], i);
      var ll, rl := LeavesOf(nodes, l), LeavesOf(nodes, r);
      assert LeavesOf(nodes, i) == ll + rl;
      forall p | Contains(n.room, p)
        ensures exists k :: k in ll + rl && Contains(nodes[k].room, p)
      {
        if Contains(nodes[l].room, p) {
          var k :| k in ll && Contains(nodes[k].room, p);
        } else {
          var k :| k in rl && Contains(nodes[k].room, p);
        }
      }
      forall k, p | k in ll + rl && Contains(nodes[k].room, p)
        ensures Contains(n.room, p)
      {
      }
      forall k, p | k in ll && Contains(nodes[k].room, p)
        ensures Contains(nodes[l].room, p) && !Contains(nodes[r].room, p)
      {
      }
      forall k, p | k in rl && Contains(nodes[k].room, p)
        ensures Contains(nodes[r].room, p) && !Contains(nodes[l].room, p)
      {
      }
      forall k1, k2, p | k1 in ll + rl && k2 in ll + rl && Contains(nodes[k1].room, p) && Contains(nodes[k2].room, p)
        ensures k1 == k2
      {
        assert k1 in ll ==> Contains(nodes[l].room, p) && !Contains(nodes[r].room, p);
        assert k1 in rl ==> Contains(nodes[r].room, p) && !Contains(nodes[l].room, p);
        assert k2 in ll ==> Contains(nodes[l].room, p);
        assert k2 in rl ==> Contains(nodes[r].room, p);
      }
    }
  }

  /** A root that can be split at all yields at least two leaves, whatever
      the draws. */
  lemma TwoLeavesWhenSplittable(nodes: seq<TreeNode>, minSplitSize: Vec2, dirs: seq<int>, cuts: seq<int>)
    requires AllSplitAsDrawn(nodes, minSplitSize, dirs, cuts) && |nodes| >= 1
    requires nodes[0].room.size.x >= minSplitSize.x && nodes[0].room.size.y >= minSplitSize.y
    requires nodes[0].room.size.x >= minSplitSize.x * 2 || nodes[0].room.size.y >= minSplitSize.y * 2
    ensures |LeavesOf(nodes, 0)| >= 2
  {
    var n := nodes[0];
    assert SplitAsDrawn(nodes, 0, minSplitSize, dirs[0], cuts[0]);
    assert ChildrenAfter(nodes, 0);
    var l, r := n.left.value, n.right.value;
    LeavesTile(nodes, minSplitSize, dirs, cuts, l);
    LeavesTile(nodes, minSplitSize, dirs, cuts, r);
    SplitTiles(nodes, minSplitSize, dirs[0], cuts[0], 0);
    var p, q := nodes[l].room.lowerLeft, nodes[r].room.lowerLeft;
    assert Contains(nodes[l].room, p) && Contains(nodes[r].room, q);
    var a :| a in LeavesOf(nodes, l) && Contains(nodes[a].room, p);
    var b :| b in LeavesOf(nodes, r) && Contains(nodes[b].room, q);
    assert a != b;
    assert {a, b} <= LeavesOf(nodes, 0);
    assert |{a, b}| == 2;
    SubsetCard({a, b}, LeavesOf(nodes, 0));
  }

  /** Growing the arena and setting the children of other nodes does not
      disturb a node that was already processed. */
  lemma SplitAsDrawnKept(before: seq<TreeNode>, after: seq<TreeNode>, i: nat, minSplitSize: Vec2, dir: int, cut: int)
    requires Tree(before) && Tree(after) && i < |before| <= |after| && ValidMinSize(minSplitSize)
    requires after[i] == before[i]
    requires forall j :: 0 <= j < |before| ==> after[j].room == before[j].room
    requires SplitAsDrawn(before, i, minSplitSize, dir, cut)
    ensures SplitAsDrawn(after, i, minSplitSize, dir, cut)
  {
    assert ChildrenAfter(before, i);
  }

  /** The state of Subdivide's loop when the last q arena slots are still
      queued: processed nodes are split as drawn, queued nodes are leaves
      whose direction has not been drawn, and every node but the root has a
      positive size. */
  ghost predicate QueueState(nodes: seq<TreeNode>, dirs: seq<int>, cuts: seq<int>, minSplitSize: Vec2, q: nat) {
    ValidMinSize(minSplitSize) && 1 <= |nodes| && q <= |nodes| && |dirs| == |nodes| && |cuts| == |nodes| &&
    Tree(nodes) && nodes[0].room.size.x >= 0 && nodes[0].room.size.y >= 0 &&
    (forall i :: 0 < i < |nodes| ==> nodes[i].room.size.x >= 1 && nodes[i].room.size.y >= 1) &&
    (forall i {:trigger SplitAsDrawn(nodes, i, minSplitSize, dirs[i], cuts[i])} :: 0 <= i < |nodes| - q ==> SplitAsDrawn(nodes, i, minSplitSize, dirs[i], cuts[i])) &&
    (forall i :: |nodes| - q <= i < |nodes| ==> nodes[i].IsLeaf() && dirs[i] == 0)
  }

  /** Dequeuing a node that stays a leaf. */
  lemma StayStep(nodes: seq<TreeNode>, dirs: seq<int>, cuts: seq<int>, minSplitSize: Vec2, q: nat, d: int)
    requires QueueState(nodes, dirs, cuts, minSplitSize, q) && q > 0
    requires SplitAsDrawn(nodes, |nodes| - q, minSplitSize, d, cuts[|nodes| - q])
    ensures QueueState(nodes, dirs[|nodes| - q := d], cuts, minSplitSize, q - 1)
    ensures PendingWeight(nodes[|nodes| - (q - 1)..]) < PendingWeight(nodes[|nodes| - q..])
  {
    var c := |nodes| - q;
    assert nodes[c..] == [nodes[c]] + nodes[c + 1..];
    PendingWeightAppend([nodes[c]], nodes[c + 1..]);
  }

  /** Node c of `before` was split: its two children were appended to the
      arena, everything else is as it was, and the children are non-empty
      leaves that together weigh less than their parent. */
  ghost predicate SplitAppended(before: seq<TreeNode>, cuts0: seq<int>, after: seq<TreeNode>, cuts: seq<int>, c: nat) {
    c < |before| && |after| == |before| + 2 && |cuts0| == |before| && |cuts| == |after| &&
    after[c].room == before[c].room &&
    (forall j :: 0 <= j < |before| && j != c ==> after[j] == before[j] && cuts[j] == cuts0[j]) &&
    after[|before|].IsLeaf() && after[|before| + 1].IsLeaf() &&
    after[|before|].room.size.x >= 1 && after[|before|].room.size.y >= 1 &&
    after[|before| + 1].room.size.x >= 1 && after[|before| + 1].room.size.y >= 1 &&
    Weight(after[|before|].room) + Weight(after[|before| + 1].room) < Weight(before[c].room)
  }

  /** Dequeuing a node that is split: its two children are appended to the
      arena and to the queue. */
  lemma GrowStep(before: seq<TreeNode>, dirs0: seq<int>, cuts0: seq<int>,
                 after: seq<TreeNode>, dirs: seq<int>, cuts: seq<int>, minSplitSize: Vec2, q: nat)
    requires QueueState(before, dirs0, cuts0, minSplitSize, q) && q > 0
    requires Tree(after) && |dirs| == |after| && |cuts| == |after|
    requires SplitAppended(before, cuts0, after, cuts, |before| - q)
    requires dirs == dirs0[|before| - q := dirs[|before| - q]] + [0, 0]
    requires SplitAsDrawn(after, |before| - q, minSplitSize, dirs[|before| - q], cuts[|before| - q])
    ensures QueueState(after, dirs, cuts, minSplitSize, q + 1)
    ensures PendingWeight(after[|after| - (q + 1)..]) < PendingWeight(before[|before| - q..])
  {
    var c := |before| - q;
    GrowWeight(before, after, q);
    GrowKeepsProcessed(before, dirs0, cuts0, after, dirs, cuts, minSplitSize, c);
    forall i | c + 1 <= i < |after|
      ensures after[i].IsLeaf() && dirs[i] == 0
    {
      if i < |before| {
        assert after[i] == before[i] && dirs[i] == dirs0[i];
      }
    }
    forall i | 0 < i < |after|
      ensures after[i].room.size.x >= 1 && after[i].room.size.y >= 1
    {
      if i < |before| {
        assert after[i].room == before[i].room;
      }
    }
  }

  /** Nodes processed before the split stay split as drawn. */
  lemma GrowKeepsProcessed(before: seq<TreeNode>, dirs0: seq<int>, cuts0: seq<int>,
                           after: seq<TreeNode>, dirs: seq<int>, cuts: seq<int>, minSplitSize: Vec2, c: nat)
    requires ValidMinSize(minSplitSize) && Tree(before) && Tree(after)
    requires |dirs0| == |before| && |cuts0| == |before| && |dirs| == |after| && |cuts| == |after|
    requires SplitAppended(before, cuts0, after, cuts, c)
    requires forall i :: 0 <= i < c ==> dirs[i] == dirs0[i]
    requires forall i {:trigger SplitAsDrawn(before, i, minSplitSize, dirs0[i], cuts0[i])} ::
               0 <= i < c ==> SplitAsDrawn(before, i, minSplitSize, dirs0[i], cuts0[i])
    ensures forall i {:trigger SplitAsDrawn(after, i, minSplitSize, dirs[i], cuts[i])} ::
              0 <= i < c ==> SplitAsDrawn(after, i, minSplitSize, dirs[i], cuts[i])
  {
    forall i | 0 <= i < c
      ensures SplitAsDrawn(after, i, minSplitSize, dirs[i], cuts[i])
    {
      SplitAsDrawnKept(before, after, i, minSplitSize, dirs0[i], cuts0[i]);
    }
  }

  lemma GrowWeight(before: seq<TreeNode>, after: seq<TreeNode>, q: nat)
    requires 0 < q <= |before| && |after| == |before| + 2
    requires forall j :: |before| - q < j < |before| ==> after[j] == before[j]
    requires Weight(after[|before|].room) + Weight(after[|before| + 1].room) < Weight(before[|before| - q].room)
    ensures PendingWeight(after[|after| - (q + 1)..]) < PendingWeight(before[|before| - q..])
  {
    var c := |before| - q;
    assert before[c..] == [before[c]] + before[c + 1..];
    PendingWeightAppend([before[c]], before[c + 1..]);
    assert after[c + 1..] == before[c + 1..] + after[|before|..];
    PendingWeightAppend(before[c + 1..], after[|before|..]);
    PendingWeightPair(after[|before|..]);
  }

  /** The queue holds the last |nodeQ| indices of an arena of n nodes, in order. */
  predicate QueueShape(nodeQ: seq<nat>, n: nat) {
    |nodeQ| <= n && forall k :: 0 <= k < |nodeQ| ==> nodeQ[k] == n - |nodeQ| + k
  }

  /** What one call of SplitByDirection on node c did: either nothing, or
      it appended the node's two children; in both cases node c is now
      split as drawn. */
  ghost predicate DirectionSplit(before: seq<TreeNode>, dirs0: seq<int>, cuts0: seq<int>,
                                 after: seq<TreeNode>, dirs: seq<int>, cuts: seq<int>,
                                 c: nat, minSplitSize: Vec2, dir: int) {
    ValidMinSize(minSplitSize) && Tree(after) && |dirs| == |after| && |cuts| == |after| &&
    |after| >= |before| && c < |before| &&
    SplitAsDrawn(after, c, minSplitSize, dir, cuts[c]) &&
    (|after| == |before| ==> after == before && cuts == cuts0 && dirs == dirs0) &&
    (|after| != |before| ==> dirs == dirs0 + [0, 0] && SplitAppended(before, cuts0, after, cuts, c))
  }

  /** The loop state after the front node had its direction drawn and was
      split or kept. */
  lemma DirectionStep(before: seq<TreeNode>, dirsPre: seq<int>, cuts0: seq<int>,
                      after: seq<TreeNode>, dirs: seq<int>, cuts: seq<int>,
                      minSplitSize: Vec2, nodeQ: seq<nat>, nodeQ': seq<nat>, d: int)
    requires QueueState(before, dirsPre, cuts0, minSplitSize, |nodeQ|) && QueueShape(nodeQ, |before|) && |nodeQ| > 0
    requires DirectionSplit(before, dirsPre[|before| - |nodeQ| := d], cuts0, after, dirs, cuts,
                            |before| - |nodeQ|, minSplitSize, d)
    requires nodeQ' == nodeQ[1..] + (if |after| > |before| then [|before|, |before| + 1] else [])
    ensures QueueState(after, dirs, cuts, minSplitSize, |nodeQ'|) && QueueShape(nodeQ', |after|)
    ensures PendingWeight(after[|after| - |nodeQ'|..]) < PendingWeight(before[|before| - |nodeQ|..])
    ensures after[0].room == before[0].room
  {
    if |after| > |before| {
      GrowStep(before, dirsPre, cuts0, after, dirs, cuts, minSplitSize, |nodeQ|);
    } else {
      StayStep(before, dirsPre, cuts0, minSplitSize, |nodeQ|, d);
    }
  }

  /** The arena after leaf c receives the two halves as children. */
  function Appended(before: seq<TreeNode>, c: nat, halves: (Region, Region)): (after: seq<TreeNode>)
    requires c < |before|
    ensures |after| == |before| + 2
  {
    before[c := TreeNode(before[c].room, Some(|before|), Some(|before| + 1))]
    + [TreeNode(halves.0, None, None), TreeNode(halves.1, None, None)]
  }

  /** A cut drawn in range on the axis ChooseAxis picks leaves node c split
      as drawn, with everything SplitByDirection promises. */
  lemma CutDrawn(before: seq<TreeNode>, dirs0: seq<int>, cuts0: seq<int>, c: nat,
                 minSplitSize: Vec2, dir: int, cut: int, vertical: bool)
    requires ValidMinSize(minSplitSize) && Tree(before) && c < |before| && before[c].IsLeaf()
    requires |dirs0| == |before| && |cuts0| == |before| && (dir == 0 || dir == 1)
    requires vertical ==> ChooseAxis(before[c].room.size, minSplitSize, dir) == Vertical &&
                          minSplitSize.x <= cut <= before[c].room.size.x - minSplitSize.x
    requires !vertical ==> ChooseAxis(before[c].room.size, minSplitSize, dir) == Horizontal &&
                           minSplitSize.y <= cut <= before[c].room.size.y - minSplitSize.y
    ensures var halves := if vertical then VerticalHalves(before[c].room, cut) else HorizontalHalves(before[c].room, cut);
            var after := Appended(before, c, halves);
            Weight(halves.0) + Weight(halves.1) < Weight(before[c].room) ==>
            DirectionSplit(before, dirs0, cuts0, after, dirs0 + [0, 0], cuts0[c := cut] + [0, 0], c, minSplitSize, dir)
  {
    var halves := if vertical then VerticalHalves(before[c].room, cut) else HorizontalHalves(before[c].room, cut);
    SplitKeepsTree(before, c, halves.0, halves.1);
    var after := Appended(before, c, halves);
    assert ChildrenAfter(after, c);
  }

  /** Giving a leaf two fresh children at the end of the arena keeps it a tree. */
  lemma SplitKeepsTree(before: seq<TreeNode>, node: nat, a: Region, b: Region)
    requires Tree(before) && node < |before| && before[node].IsLeaf()
    ensures Tree(before[node := TreeNode(before[node].room, Some(|before|), Some(|before| + 1))]
                 + [TreeNode(a, None, None), TreeNode(b, None, None)])
  {
    var after := before[node := TreeNode(before[node].room, Some(|before|), Some(|before| + 1))]
                 + [TreeNode(a, None, None), TreeNode(b, None, None)];
    forall i | 0 <= i < |after|
      ensures ChildrenAfter(after, i)
    {
      if i < |before| && i != node {
        assert ChildrenAfter(before, i);
      }
    }
  }

  lemma SubsetCard<T>(a: set<T>, b: set<T>)
    requires a <= b
    ensures |a| <= |b|
  {
    assert b == a + (b - a);
  }

  // Termination measure of Subdivide: every pending node weighs at least 1
  // and a split replaces a node by two children that weigh less together.

  function Weight(r: Region): nat {
    if r.size.x <= 0 || r.size.y <= 0 then 1 else 2 * r.size.x * r.size.y - 1
  }

  function PendingWeight(s: seq<TreeNode>): nat {
    if s == [] then 0 else Weight(s[0].room) + PendingWeight(s[1..])
  }

  lemma {:induction false} PendingWeightAppend(a: seq<TreeNode>, b: seq<TreeNode>)
    ensures PendingWeight(a + b) == PendingWeight(a) + PendingWeight(b)
  {
    if a != [] {
      assert a + b != [] && (a + b)[0] == a[0];
      assert (a + b)[1..] == a[1..] + b;
      PendingWeightAppend(a[1..], b);
    } else {
      assert a + b == b;
    }
  }

  lemma PendingWeightPair(s: seq<TreeNode>)
    requires |s| == 2
    ensures PendingWeight(s) == Weight(s[0].room) + Weight(s[1].room)
  {
    assert PendingWeight(s) == Weight(s[0].room) + PendingWeight(s[1..]);
    assert s[1..][0] == s[1] && s[1..][1..] == [];
    assert PendingWeight(s[1..]) == Weight(s[1].room) + PendingWeight(s[1..][1..]);
  }

  lemma SplitLighter(w1: int, w2: int, h: int)
    requires w1 >= 1 && w2 >= 1 && h >= 1
    ensures (2 * w1 * h - 1) + (2 * w2 * h - 1) < 2 * (w1 + w2) * h - 1
    ensures 2 * w1 * h - 1 >= 1 && 2 * w2 * h - 1 >= 1
  {
    assert (w1 + w2) * h == w1 * h + w2 * h;
    assert w1 * h >= h by { assert w1 * h == (w1 - 1) * h + h; }
    assert w2 * h >= h by { assert w2 * h == (w2 - 1) * h + h; }
  }

  class BSP {
    const minSplitSize: Vec2
    /** System.Random partitionRandom, as a stream of draws. */
    const partitionRandom: Stream
    /** The arena of tree nodes; nodes[0] is the root. */
    var nodes: seq<TreeNode>
    /** How many draws have been taken from partitionRandom. */
    var drawn: nat
    /** The direction and cut draws each node was processed with. */
    ghost var dirs: seq<int>
    ghost var cuts: seq<int>

    ghost predicate Valid()
      reads this`nodes, this`dirs, this`cuts
    {
      |nodes| >= 1 && AllSplitAsDrawn(nodes, minSplitSize, dirs, cuts) &&
      forall i :: 0 < i < |nodes| ==> nodes[i].room.size.x >= 1 && nodes[i].room.size.y >= 1
    }

    constructor (root: Region, minSplitSize: Vec2, partitionRandom: Stream)
      requires ValidMinSize(minSplitSize) && HonestStream(partitionRandom)
      requires root.size.x >= 0 && root.size.y >= 0
      ensures Valid() && nodes[0].room == root
      ensures this.minSplitSize == minSplitSize && this.partitionRandom == partitionRandom
    {
      this.minSplitSize := minSplitSize;
      this.partitionRandom := partitionRandom;
      nodes := [TreeNode(root, None, None)];
      drawn := 0;
      dirs := [0];
      cuts := [0];
      new;
      Subdivide();
    }

    /** BSP.GetLeaves. The root always exists, so the null result of the
        source cannot occur. */
    function GetLeaves(): (leaves: set<nat>)
      reads this`nodes, this`dirs, this`cuts
      requires Valid()
      ensures leaves == LeavesOf(nodes, 0)
      ensures Tiling(nodes, leaves, nodes[0].room)
    {
      LeavesTile(nodes, minSplitSize, dirs, cuts, 0);
      LeavesOf(nodes, 0)
    }

    /** The state of Subdivide's loop: the queue holds exactly the nodes not
        yet processed (the arena's suffix), every processed node is split
        as drawn and every pending node is still a leaf. */
    ghost predicate QueueInvariant(nodeQ: seq<nat>)
      reads this`nodes, this`dirs, this`cuts
    {
      HonestStream(partitionRandom) && QueueState(nodes, dirs, cuts, minSplitSize, |nodeQ|) &&
      QueueShape(nodeQ, |nodes|)
    }

    /** Breadth-first processing of the node queue: every node is dequeued
        once and either stays a leaf or is split into two enqueued children. */
    method Subdivide()
      requires ValidMinSize(minSplitSize) && HonestStream(partitionRandom)
      requires |nodes| == 1 && nodes[0].IsLeaf() && dirs == [0] && cuts == [0]
      requires nodes[0].room.size.x >= 0 && nodes[0].room.size.y >= 0
      modifies this`nodes, this`drawn, this`dirs, this`cuts
      ensures Valid() && nodes[0].room == old(nodes[0].room)
    {
      var nodeQ: seq<nat> := [0];
      while |nodeQ| > 0
        invariant QueueInvariant(nodeQ) && nodes[0].room == old(nodes[0].room)
        decreases PendingWeight(nodes[|nodes| - |nodeQ|..])
      {
        nodeQ := ProcessFront(nodeQ);
      }
    }

    /** One iteration of Subdivide's loop: dequeue the front node, and split
        it unless it is below the minimum size or cannot be split on either
        axis. */
    method ProcessFront(nodeQ: seq<nat>) returns (nodeQ': seq<nat>)
      requires QueueInvariant(nodeQ) && |nodeQ| > 0
      modifies this`nodes, this`drawn, this`dirs, this`cuts
      ensures QueueInvariant(nodeQ') && nodes[0].room == old(nodes[0].room)
      ensures PendingWeight(nodes[|nodes| - |nodeQ'|..]) < old(PendingWeight(nodes[|nodes| - |nodeQ|..]))
    {
      var current := nodeQ[0];
      var currentSize := nodes[current].room.size;
      if currentSize.x < minSplitSize.x || currentSize.y < minSplitSize.y {
        nodeQ' := nodeQ[1..];
        assert dirs[current := 0] == dirs;
        StayStep(nodes, dirs, cuts, minSplitSize, |nodeQ|, 0);
        assert QueueShape(nodeQ', |nodes|);
      } else {
        nodeQ' := DrawAndSplit(nodeQ);
      }
    }

    /** The front node is large enough: draw a direction and split it if
        the chosen axis, or failing that the other one, is long enough. */
    method DrawAndSplit(nodeQ: seq<nat>) returns (nodeQ': seq<nat>)
      requires QueueInvariant(nodeQ) && |nodeQ| > 0
      requires nodes[nodeQ[0]].room.size.x >= minSplitSize.x && nodes[nodeQ[0]].room.size.y >= minSplitSize.y
      modifies this`nodes, this`drawn, this`dirs, this`cuts
      ensures QueueInvariant(nodeQ') && nodes[0].room == old(nodes[0].room)
      ensures PendingWeight(nodes[|nodes| - |nodeQ'|..]) < old(PendingWeight(nodes[|nodes| - |nodeQ|..]))
    {
      ghost var before, dirs0, cuts0 := nodes, dirs, cuts;
      var current := nodeQ[0];
      nodeQ' := nodeQ[1..];
      var randSplitDir := partitionRandom(drawn, 0, 2);
      drawn := drawn + 1;
      dirs := dirs[current := randSplitDir];
      var count := |nodes|;
      SplitByDirection(current, randSplitDir);
      if |nodes| > count {
        nodeQ' := nodeQ' + [count, count + 1];
      }
      DirectionStep(before, dirs0, cuts0, nodes, dirs, cuts, minSplitSize, nodeQ, nodeQ', randSplitDir);
    }

    /** The direction-dependent part of one iteration: with direction draw 0
        a horizontal cut is preferred, otherwise a vertical one; when the
        preferred axis is too short the other one is tried. */
    method SplitByDirection(current: nat, dir: int)
      requires ValidMinSize(minSplitSize) && HonestStream(partitionRandom)
      requires Tree(nodes) && |dirs| == |nodes| && |cuts| == |nodes|
      requires current < |nodes| && nodes[current].IsLeaf() && (dir == 0 || dir == 1)
      requires nodes[current].room.size.x >= minSplitSize.x && nodes[current].room.size.y >= minSplitSize.y
      modifies this`nodes, this`drawn, this`dirs, this`cuts
      ensures DirectionSplit(old(nodes), old(dirs), old(cuts), nodes, dirs, cuts, current, minSplitSize, dir)
    {
      var currentSize := nodes[current].room.size;
      if dir == 0 {
        if currentSize.y >= minSplitSize.y * 2 {
          SplitHorizontal(current, minSplitSize.y, dir);
        } else if currentSize.x >= minSplitSize.x * 2 {
          SplitVertical(current, minSplitSize.x, dir);
        }
      } else {
        if currentSize.x >= minSplitSize.x * 2 {
          SplitVertical(current, minSplitSize.x, dir);
        } else if currentSize.y >= minSplitSize.y * 2 {
          SplitHorizontal(current, minSplitSize.y, dir);
        }
      }
    }

    /** A vertical split: the cutting line is drawn vertically, at a column
        drawn from [minX, width - minX]. */
    method SplitVertical(node: nat, minX: int, ghost dir: int)
      requires HonestStream(partitionRandom) && |dirs| == |nodes| && |cuts| == |nodes|
      requires node < |nodes| && nodes[node].IsLeaf()
      requires Tree(nodes) && 2 <= minX && minX * 2 <= nodes[node].room.size.x && nodes[node].room.size.y >= 1
      requires ValidMinSize(minSplitSize) && minX == minSplitSize.x && (dir == 0 || dir == 1)
      requires ChooseAxis(nodes[node].room.size, minSplitSize, dir) == Vertical
      modifies this`nodes, this`drawn, this`cuts, this`dirs
      ensures var room := old(nodes[node].room);
              var cut := partitionRandom(old(drawn), minX, room.size.x - minX + 1);
              minX <= cut <= room.size.x - minX &&
              nodes == old(nodes)[node := TreeNode(room, Some(|old(nodes)|), Some(|old(nodes)| + 1))]
                       + [TreeNode(VerticalHalves(room, cut).0, None, None),
                          TreeNode(VerticalHalves(room, cut).1, None, None)] &&
              cuts == old(cuts)[node := cut] + [0, 0]
      ensures Tree(nodes) && dirs == old(dirs) + [0, 0] && drawn == old(drawn) + 1
      ensures DirectionSplit(old(nodes), old(dirs), old(cuts), nodes, dirs, cuts, node, minSplitSize, dir)
      ensures Weight(nodes[|old(nodes)|].room) + Weight(nodes[|old(nodes)| + 1].room) < Weight(old(nodes[node].room))
    {
      var room := nodes[node].room;
      var roomSize := room.size;
      var rand := partitionRandom(drawn, minX, roomSize.x - minX + 1);
      drawn := drawn + 1;
      var halves := VerticalHalves(room, rand);
      SplitLighter(halves.0.size.x, halves.1.size.x, roomSize.y);
      CutDrawn(nodes, dirs, cuts, node, minSplitSize, dir, rand, true);
      SplitKeepsTree(nodes, node, halves.0, halves.1);
      var left, right := |nodes|, |nodes| + 1;
      nodes := nodes[node := TreeNode(room, Some(left), Some(right))]
               + [TreeNode(halves.0, None, None), TreeNode(halves.1, None, None)];
      cuts := cuts[node := rand] + [0, 0];
      dirs := dirs + [0, 0];
    }

    /** A horizontal split: the cutting line is drawn horizontally, at a row
        drawn from [minY, height - minY]. */
    method SplitHorizontal(node: nat, minY: int, ghost dir: int)
      requires HonestStream(partitionRandom) && |dirs| == |nodes| && |cuts| == |nodes|
      requires node < |nodes| && nodes[node].IsLeaf()
      requires Tree(nodes) && 2 <= minY && minY * 2 <= nodes[node].room.size.y && nodes[node].room.size.x >= 1
      requires ValidMinSize(minSplitSize) && minY == minSplitSize.y && (dir == 0 || dir == 1)
      requires ChooseAxis(nodes[node].room.size, minSplitSize, dir) == Horizontal
      modifies this`nodes, this`drawn, this`cuts, this`dirs
      ensures var room := old(nodes[node].room);
              var cut := partitionRandom(old(drawn), minY, room.size.y - minY + 1);
              minY <= cut <= room.size.y - minY &&
              nodes == old(nodes)[node := TreeNode(room, Some(|old(nodes)|), Some(|old(nodes)| + 1))]
                       + [TreeNode(HorizontalHalves(room, cut).0, None, None),
                          TreeNode(HorizontalHalves(room, cut).1, None, None)] &&
              cuts == old(cuts)[node := cut] + [0, 0]
      ensures Tree(nodes) && dirs == old(dirs) + [0, 0] && drawn == old(drawn) + 1
      ensures DirectionSplit(old(nodes), old(dirs), old(cuts), nodes, dirs, cuts, node, minSplitSize, dir)
      ensures Weight(nodes[|old(nodes)|].room) + Weight(nodes[|old(nodes)| + 1].room) < Weight(old(nodes[node].room))
    {
      var room := nodes[node].room;
      var roomSize := room.size;
      var rand := partitionRandom(drawn, minY, roomSize.y - minY + 1);
      drawn := drawn + 1;
      var halves := HorizontalHalves(room, rand);
      SplitLighter(halves.0.size.y, halves.1.size.y, roomSize.x);
      CutDrawn(nodes, dirs, cuts, node, minSplitSize, dir, rand, false);
      SplitKeepsTree(nodes, node, halves.0, halves.1);
      var left, right := |nodes|, |nodes| + 1;
      nodes := nodes[node := TreeNode(room, Some(left), Some(right))]
               + [TreeNode(halves.0, None, None), TreeNode(halves.1, None, None)];
      cuts := cuts[node := rand] + [0, 0];
      dirs := dirs + [0, 0];
    }
  }
}
