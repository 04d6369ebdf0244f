/** The room-link planner (Prims). Starting from a random room centre it
    walks through all centres: each iteration links the current centre to
    a random, the farthest or the closest unvisited centre, optionally adds
    a second link from the current centre to a random unvisited one, and
    moves on. The primary links form one chain through every centre. */
module Connectivity {
  import opened Common
  import opened Tiles
  import opened Links

  /** The draws of one MST iteration: `branch` and `second` are
      `Random.Range(0, 100)`, `pick` and `extra` are the indices drawn by
      RandomNode for the primary and the extra link. */
  datatype Roll = Roll(branch: int, pick: int, second: int, extra: int)

  /** Squared Euclidean distance between world positions; it orders
      nodes exactly as `Vector3.Distance` does. */
  function SqDist(a: FloorNode, b: FloorNode): (d: int)
    ensures d >= 0
  {
    var dx := a.worldPos.x - b.worldPos.x;
    var dy := a.worldPos.y - b.worldPos.y;
    dx * dx + dy * dy
  }

  /** `new HashSet(allNodes)` minus the visited set, enumerated in list
      order (entries are only removed, so enumeration keeps that order). */
  function Unvisited(all: seq<FloorNode>, visited: set<FloorNode?>): (r: seq<FloorNode>)
    ensures |r| <= |all|
  {
    if |all| == 0 then []
    else Unvisited(all[..|all| - 1], visited) + (if all[|all| - 1] in visited then [] else [all[|all| - 1]])
  }

  /** The unvisited part holds exactly the list's nodes outside visited. */
  lemma {:induction false} UnvisitedMembers(all: seq<FloorNode>, visited: set<FloorNode?>)
    ensures forall x :: x in Unvisited(all, visited) <==> x in all && x !in visited
  {
    if |all| > 0 {
      var p := all[..|all| - 1];
      UnvisitedMembers(p, visited);
      assert all == p + [all[|all| - 1]];
    }
  }

  /** Of a list without duplicates, the unvisited part has no duplicates. */
  lemma {:induction false} UnvisitedDistinct(all: seq<FloorNode>, visited: set<FloorNode?>)
    requires Distinct(all)
    ensures Distinct(Unvisited(all, visited))
  {
    if |all| > 0 {
      var p := all[..|all| - 1];
      assert Distinct(p);
      UnvisitedDistinct(p, visited);
      UnvisitedMembers(p, visited);
      var r := Unvisited(p, visited);
      var last := all[|all| - 1];
      assert last !in p by {
        forall i | 0 <= i < |p| ensures p[i] != last {
          assert p[i] == all[i];
        }
      }
      forall a | 0 <= a < |r| ensures r[a] != last {
        var x := r[a];
        assert x in r;
      }
    }
  }

  /** With the visited nodes all taken from a list without duplicates,
      the unvisited part holds the list's length minus the visited count. */
  lemma UnvisitedCount(all: seq<FloorNode>, visited: set<FloorNode?>)
    requires Distinct(all) && forall x :: x in visited ==> x in all
    ensures |Unvisited(all, visited)| == |all| - |visited|
  {
    var r := Unvisited(all, visited);
    UnvisitedDistinct(all, visited);
    UnvisitedMembers(all, visited);
    var A: set<FloorNode?> := set x | x in all;
    var R: set<FloorNode?> := set x | x in r;
    assert Distinct<FloorNode?>(all);
    DistinctCard<FloorNode?>(all);
    assert Distinct<FloorNode?>(r);
    DistinctCard<FloorNode?>(r);
    assert R == A - visited;
    assert A == R + visited;
    assert R * visited == {};
  }

  /** The i-th element in enumeration order, or null when there is none:
      what RandomNode returns for the index it drew. */
  function Pick(possibles: seq<FloorNode>, i: int): (r: FloorNode?)
    ensures r == null <==> !(0 <= i < |possibles|)
    ensures r != null ==> r in possibles
  {
    if 0 <= i < |possibles| then possibles[i] else null
  }

  /** possibles[j] is nearest to node, and strictly nearer than every
      element before it (the first nearest one). */
  ghost predicate FirstNearest(node: FloorNode, possibles: seq<FloorNode>, j: int) {
    && 0 <= j < |possibles|
    && (forall t :: 0 <= t < |possibles| ==> SqDist(possibles[j], node) <= SqDist(possibles[t], node))
    && (forall t :: 0 <= t < j ==> SqDist(possibles[j], node) < SqDist(possibles[t], node))
  }

  /** possibles[j] is farthest from node, and strictly farther than every
      element before it (the first farthest one). */
  ghost predicate FirstFarthest(node: FloorNode, possibles: seq<FloorNode>, j: int) {
    && 0 <= j < |possibles|
    && (forall t :: 0 <= t < |possibles| ==> SqDist(possibles[j], node) >= SqDist(possibles[t], node))
    && (forall t :: 0 <= t < j ==> SqDist(possibles[j], node) > SqDist(possibles[t], node))
  }

  /** Prims.ClosestNode: the first element at minimal distance from node,
      null only for an empty set. */
  method ClosestNode(node: FloorNode, possibles: seq<FloorNode>) returns (closest: FloorNode?, ghost at: int)
    ensures closest == null <==> |possibles| == 0
    ensures closest != null ==> FirstNearest(node, possibles, at) && closest == possibles[at]
  {
    closest := null;
    at := -1;
    var t := 0;
    while t < |possibles|
      invariant 0 <= t <= |possibles|
      invariant closest == null <==> t == 0
      invariant t > 0 ==> FirstNearest(node, possibles[..t], at) && closest == possibles[at]
    {
      var target := possibles[t];
      if closest == null {
        closest := target;
        at := t;
      }
      if SqDist(target, node) < SqDist(closest, node) {
        closest := target;
        at := t;
      }
      t := t + 1;
    }
    assert possibles[..t] == possibles;
  }

  /** Prims.FarthestNode: the first element at maximal distance from node,
      null only for an empty set. */
  method FarthestNode(node: FloorNode, possibles: seq<FloorNode>) returns (farthest: FloorNode?, ghost at: int)
    ensures farthest == null <==> |possibles| == 0
    ensures farthest != null ==> FirstFarthest(node, possibles, at) && farthest == possibles[at]
  {
    farthest := null;
    at := -1;
    var t := 0;
    while t < |possibles|
      invariant 0 <= t <= |possibles|
      invariant farthest == null <==> t == 0
      invariant t > 0 ==> FirstFarthest(node, possibles[..t], at) && farthest == possibles[at]
    {
      var target := possibles[t];
      if farthest == null {
        farthest := target;
        at := t;
      }
      if SqDist(target, node) > SqDist(farthest, node) {
        farthest := target;
        at := t;
      }
      t := t + 1;
    }
    assert possibles[..t] == possibles;
  }

  /** Prims.RandomNode for the drawn index i: counts through the set and
      returns the i-th element, or null when the count runs out. */
  method RandomNode(possibles: seq<FloorNode>, i: int) returns (r: FloorNode?)
    ensures r == Pick(possibles, i)
  {
    var counter := 0;
    while counter < |possibles|
      invariant 0 <= counter <= |possibles|
      invariant i < 0 || i >= counter
    {
      var target := possibles[counter];
      if counter == i {
        return target;
      }
      counter := counter + 1;
    }
    return null;
  }

  /** The links one iteration adds: the primary link, then the extra one
      when it was rolled. */
  function IterationLinks(current: FloorNode, other: FloorNode?, extra: Option<FloorNode?>): seq<RoomLink> {
    [RoomLink(current, other)] + (if extra.Some? then [RoomLink(current, extra.value)] else [])
  }

  /** The link list after the iterations that visited chain in order,
      extras[i] being the extra target of iteration i, if any. */
  function LinksOf(chain: seq<FloorNode?>, extras: seq<Option<FloorNode?>>): seq<RoomLink>
    requires |chain| == |extras| + 1
    requires forall i :: 0 <= i < |extras| ==> chain[i] != null
  {
    if |extras| == 0 then []
    else LinksOf(chain[..|chain| - 1], extras[..|extras| - 1])
         + IterationLinks(chain[|chain| - 2], chain[|chain| - 1], extras[|extras| - 1])
  }

  /** Number of extra links rolled in the first i iterations. */
  function ExtrasBefore(extras: seq<Option<FloorNode?>>, i: nat): (c: nat)
    requires i <= |extras|
    ensures c <= i
  {
    if i == 0 then 0 else ExtrasBefore(extras, i - 1) + (if extras[i - 1].Some? then 1 else 0)
  }

  /** k iterations give between k and 2k links. */
  lemma {:induction false} LinkCount(chain: seq<FloorNode?>, extras: seq<Option<FloorNode?>>)
    requires |chain| == |extras| + 1
    requires forall i :: 0 <= i < |extras| ==> chain[i] != null
    ensures |LinksOf(chain, extras)| == |extras| + ExtrasBefore(extras, |extras|)
    ensures |extras| <= |LinksOf(chain, extras)| <= 2 * |extras|
  {
    if |extras| > 0 {
      var c := chain[..|chain| - 1];
      var e := extras[..|extras| - 1];
      LinkCount(c, e);
      assert forall i :: 0 <= i <= |e| ==> ExtrasBefore(e, i) == ExtrasBefore(extras, i) by {
        forall i | 0 <= i <= |e| ensures ExtrasBefore(e, i) == ExtrasBefore(extras, i) {
          ExtrasPrefix(extras, |e|, i);
        }
      }
    }
  }

  lemma {:induction false} ExtrasPrefix(extras: seq<Option<FloorNode?>>, m: nat, i: nat)
    requires i <= m <= |extras|
    ensures ExtrasBefore(extras[..m], i) == ExtrasBefore(extras, i)
  {
    if i > 0 {
      ExtrasPrefix(extras, m, i - 1);
    }
  }

  /** The primary link of iteration i sits at position i plus the number
      of extras before it, and links chain[i] to chain[i + 1]; when the
      iteration rolled an extra link, it follows at the next position. */
  lemma {:induction false} PrimaryAt(chain: seq<FloorNode?>, extras: seq<Option<FloorNode?>>, i: nat)
    requires |chain| == |extras| + 1
    requires forall j :: 0 <= j < |extras| ==> chain[j] != null
    requires i < |extras|
    ensures i + ExtrasBefore(extras, i) < |LinksOf(chain, extras)|
    ensures LinksOf(chain, extras)[i + ExtrasBefore(extras, i)] == RoomLink(chain[i], chain[i + 1])
    ensures extras[i].Some? ==>
      && i + ExtrasBefore(extras, i) + 1 < |LinksOf(chain, extras)|
      && LinksOf(chain, extras)[i + ExtrasBefore(extras, i) + 1] == RoomLink(chain[i], extras[i].value)
  {
    var c := chain[..|chain| - 1];
    var e := extras[..|extras| - 1];
    LinkCount(c, e);
    ExtrasPrefix(extras, |e|, i);
    if i < |e| {
      PrimaryAt(c, e, i);
    }
  }

  /** The draw ranges the source's calls promise: `Random.Range(0, 100)`
      for the two rolls, `Random.Range(0, possibles.Count)` for the picks,
      possibles holding n - k - 1 nodes in iteration k. */
  predicate ValidRolls(n: nat, rolls: seq<Roll>) {
    forall k :: 0 <= k < |rolls| ==>
      && 0 <= rolls[k].branch < 100 && 0 <= rolls[k].second < 100
      && InRange(rolls[k].pick, 0, n - k - 1) && InRange(rolls[k].extra, 0, n - k - 1)
  }

  /** The three percentages of the planner: a random target, the
      farthest target, an extra link. */
  datatype Chances = Chances(random: int, farthest: int, second: int)

  /** One iteration's choice from current over possibles: the branch the
      first roll selects picks other, and the second roll decides the
      extra link's target, drawn from the same possibles. */
  ghost predicate Chosen(current: FloorNode, possibles: seq<FloorNode>, other: FloorNode?, extra: Option<FloorNode?>,
                         roll: Roll, chances: Chances)
  {
    && (roll.branch < chances.random ==> other == Pick(possibles, roll.pick))
    && (chances.random <= roll.branch < chances.random + chances.farthest ==>
          if |possibles| == 0 then other == null
          else exists j :: FirstFarthest(current, possibles, j) && other == possibles[j])
    && (chances.random <= roll.branch && chances.random + chances.farthest <= roll.branch ==>
          if |possibles| == 0 then other == null
          else exists j :: FirstNearest(current, possibles, j) && other == possibles[j])
    && extra == if roll.second < chances.second then Some(Pick(possibles, roll.extra)) else None
  }

  /** Iteration i chose chain[i + 1] from the nodes not among
      chain[..i + 1], and rolled extras[i]. */
  ghost predicate StepChosen(allNodes: seq<FloorNode>, chain: seq<FloorNode?>, extras: seq<Option<FloorNode?>>,
                             rolls: seq<Roll>, chances: Chances, i: nat)
    requires i < |extras| && i < |rolls| && |chain| == |extras| + 1
  {
    && chain[i] != null
    && Chosen(chain[i], Unvisited(allNodes, Elems(chain[..i + 1])), chain[i + 1], extras[i], rolls[i], chances)
  }

  /** The state of MST after k iterations: the walk so far (chain, with
      the extras rolled), the visited set and the links planned. */
  ghost predicate Walking(allNodes: seq<FloorNode>, first: nat, rolls: seq<Roll>, chances: Chances, k: nat,
                          chain: seq<FloorNode?>, extras: seq<Option<FloorNode?>>, visited: set<FloorNode?>,
                          links: seq<RoomLink>)
  {
    var n := |allNodes|;
    && Distinct(allNodes) && first < n && n <= |rolls|
    && k <= n && |chain| == k + 1 && |extras| == k
    && chain[0] == allNodes[first]
    && visited == (if k == 0 then {} else Elems(chain))
    && (forall i :: 0 <= i < k ==> chain[i] != null)
    && links == LinksOf(chain, extras)
    && (forall i :: 0 <= i < k ==> StepChosen(allNodes, chain, extras, rolls, chances, i))
    && (n == 1 ==> k <= 1 && (k == 1 ==> chain == [allNodes[0], null]))
    && (n >= 2 ==> k <= n - 1 && null !in chain && Distinct(chain) && forall x :: x in chain ==> x in allNodes)
  }

  /** At the head of an iteration: current is a node, a roll is left, and
      the possibles (all nodes minus the walk so far) number n - k - 1. */
  lemma RoundStart(allNodes: seq<FloorNode>, first: nat, rolls: seq<Roll>, chances: Chances, k: nat,
                   chain: seq<FloorNode?>, extras: seq<Option<FloorNode?>>, visited: set<FloorNode?>,
                   links: seq<RoomLink>)
    requires Walking(allNodes, first, rolls, chances, k, chain, extras, visited, links)
    requires |visited| < |allNodes|
    ensures k < |rolls| && chain[k] != null
    ensures visited + {chain[k]} == Elems(chain)
    ensures |Unvisited(allNodes, Elems(chain))| == |allNodes| - k - 1
  {
    if k >= 1 {
      DistinctCard(chain);
    }
    assert chain[..k + 1] == chain;
    PossiblesCount(allNodes, chain, Elems(chain), k);
  }

  /** The links after one more iteration are the earlier ones followed
      by that iteration's links. */
  lemma LinksGrow(chain: seq<FloorNode?>, extras: seq<Option<FloorNode?>>, other: FloorNode?,
                  extra: Option<FloorNode?>)
    requires |chain| == |extras| + 1
    requires forall i :: 0 <= i < |chain| ==> chain[i] != null
    ensures LinksOf(chain + [other], extras + [extra])
            == LinksOf(chain, extras) + IterationLinks(chain[|chain| - 1], other, extra)
  {
    var chain' := chain + [other];
    var extras' := extras + [extra];
    assert chain'[..|chain'| - 1] == chain && extras'[..|extras'| - 1] == extras;
  }

  /** With two or more centres, a target chosen from the non-empty
      unvisited set is a centre not yet on the walk, so the walk stays
      free of null and of repeats. */
  lemma ChosenFresh(allNodes: seq<FloorNode>, chain: seq<FloorNode?>, current: FloorNode, other: FloorNode?,
                    extra: Option<FloorNode?>, roll: Roll, chances: Chances)
    requires null !in chain && Distinct(chain) && forall x :: x in chain ==> x in allNodes
    requires |Unvisited(allNodes, Elems(chain))| >= 1 && InRange(roll.pick, 0, |Unvisited(allNodes, Elems(chain))|)
    requires Chosen(current, Unvisited(allNodes, Elems(chain)), other, extra, roll, chances)
    ensures null !in chain + [other] && Distinct(chain + [other])
    ensures forall x :: x in chain + [other] ==> x in allNodes
  {
    var possibles := Unvisited(allNodes, Elems(chain));
    UnvisitedMembers(allNodes, Elems(chain));
    assert other in possibles by {
      if roll.branch < chances.random {
        assert other == Pick(possibles, roll.pick);
      }
    }
    assert other !in chain;
  }

  /** With a single centre nothing is left to choose: the target is null. */
  lemma ChosenNone(current: FloorNode, possibles: seq<FloorNode>, other: FloorNode?, extra: Option<FloorNode?>,
                   roll: Roll, chances: Chances)
    requires |possibles| == 0 && Chosen(current, possibles, other, extra, roll, chances)
    ensures other == null
  {
  }

  /** One iteration extends the walk: the state after it is again a
      walking state, one iteration further. */
  lemma WalkStep(allNodes: seq<FloorNode>, first: nat, rolls: seq<Roll>, chances: Chances, k: nat,
                 chain: seq<FloorNode?>, extras: seq<Option<FloorNode?>>, visited: set<FloorNode?>,
                 links: seq<RoomLink>, other: FloorNode?, extra: Option<FloorNode?>, visited': set<FloorNode?>)
    requires Walking(allNodes, first, rolls, chances, k, chain, extras, visited, links)
    requires ValidRolls(|allNodes|, rolls)
    requires |visited| < |allNodes| && k < |rolls|
    requires chain[k] != null && |Unvisited(allNodes, Elems(chain))| == |allNodes| - k - 1
    requires Chosen(chain[k], Unvisited(allNodes, Elems(chain)), other, extra, rolls[k], chances)
    requires visited' == Elems(chain) + {other}
    ensures Walking(allNodes, first, rolls, chances, k + 1, chain + [other], extras + [extra],
                    visited', links + IterationLinks(chain[k], other, extra))
  {
    var n := |allNodes|;
    var chain' := chain + [other];
    if n >= 2 {
      if k >= 1 {
        DistinctCard(chain);
      }
      assert InRange(rolls[k].pick, 0, n - k - 1);
      ChosenFresh(allNodes, chain, chain[k], other, extra, rolls[k], chances);
    } else {
      ChosenNone(chain[k], Unvisited(allNodes, Elems(chain)), other, extra, rolls[k], chances);
    }
    assert Elems(chain') == visited';
    LinksGrow(chain, extras, other, extra);
    StepKept(allNodes, chain, extras, rolls, chances, other, extra);
  }

  class Prims {
    var roomLinks: seq<RoomLink>
    const allNodes: seq<FloorNode>
    const randomFirstConnectionChance: int
    const farthestConnectionChance: int
    const secondConnectionChance: int

    /** The centres in the order MST visited them, and the extra target
        rolled in each iteration (specification only). */
    ghost var chain: seq<FloorNode?>
    ghost var extras: seq<Option<FloorNode?>>

    ghost function GetChances(): Chances {
      Chances(randomFirstConnectionChance, farthestConnectionChance, secondConnectionChance)
    }

    /** What MST leaves behind, for the given first index and rolls: a
        walk of |allNodes| centres (two or more) visiting each centre once,
        or [centre, null] for a single centre, every iteration choosing as
        its rolls say, and the links of that walk. */
    ghost predicate Planned(first: nat, rolls: seq<Roll>)
      reads this
    {
      var n := |allNodes|;
      && Distinct(allNodes) && first < n
      && |chain| == |extras| + 1 && |extras| <= |rolls|
      && chain[0] == allNodes[first]
      && (forall i :: 0 <= i < |extras| ==> chain[i] != null)
      && roomLinks == LinksOf(chain, extras)
      && (forall i :: 0 <= i < |extras| ==> StepChosen(allNodes, chain, extras, rolls, GetChances(), i))
      && (n == 1 ==> chain == [allNodes[0], null])
      && (n >= 2 ==>
            && |chain| == n && null !in chain && Distinct(chain)
            && forall x :: x in chain ==> x in allNodes)
    }

    constructor (allNodes: seq<FloorNode>, randFirstConChance: int, farthestConnectionChance: int,
                 secondConnectionChance: int, first: nat, rolls: seq<Roll>)
      requires Distinct(allNodes) && first < |allNodes|
      requires |rolls| >= |allNodes| && ValidRolls(|allNodes|, rolls)
      ensures this.allNodes == allNodes
      ensures randomFirstConnectionChance == randFirstConChance
      ensures this.farthestConnectionChance == farthestConnectionChance
      ensures this.secondConnectionChance == secondConnectionChance
      ensures Planned(first, rolls)
    {
      roomLinks := [];
      this.allNodes := allNodes;
      randomFirstConnectionChance := randFirstConChance;
      this.farthestConnectionChance := farthestConnectionChance;
      this.secondConnectionChance := secondConnectionChance;
      chain := [];
      extras := [];
      new;
      MST(first, rolls);
    }

    function GetRoomLinks(): seq<RoomLink>
      reads this`roomLinks
    {
      roomLinks
    }

    /** The greedy walk: first and rolls stand for the draws of
        `Random.Range`. */
    method MST(first: nat, rolls: seq<Roll>)
      requires Distinct(allNodes) && first < |allNodes|
      requires |rolls| >= |allNodes| && ValidRolls(|allNodes|, rolls)
      requires roomLinks == []
      modifies this`roomLinks, this`chain, this`extras
      ensures Planned(first, rolls)
    {
      var n := |allNodes|;
      var visited: set<FloorNode?> := {};
      var current: FloorNode? := allNodes[first];
      var k := 0;
      ghost var ch: seq<FloorNode?> := [current];
      ghost var ex: seq<Option<FloorNode?>> := [];
      while |visited| < |allNodes|
        invariant Walking(allNodes, first, rolls, GetChances(), k, ch, ex, visited, roomLinks)
        invariant current == ch[k]
        decreases n - k
      {
        RoundStart(allNodes, first, rolls, GetChances(), k, ch, ex, visited, roomLinks);
        ghost var visited0 := visited;
        visited := visited + {current};
        var possibles := Unvisited(allNodes, visited);
        ghost var links := roomLinks;
        var other;
        ghost var extra;
        other, extra := Iterate(current, possibles, rolls[k]);
        visited := visited + {other};
        WalkStep(allNodes, first, rolls, GetChances(), k, ch, ex, visited0, links, other, extra, visited);
        ch := ch + [other];
        ex := ex + [extra];
        current := other;
        k := k + 1;
      }
      if n >= 2 {
        DistinctCard(ch);
      }
      chain := ch;
      extras := ex;
    }

    /** The body of one MST iteration from current over possibles: choose
        the target by the first roll, link it, and add the extra link when
        the second roll asks for one. */
    method Iterate(current: FloorNode, possibles: seq<FloorNode>, roll: Roll)
      returns (other: FloorNode?, ghost extra: Option<FloorNode?>)
      modifies this`roomLinks
      ensures Chosen(current, possibles, other, extra, roll, GetChances())
      ensures roomLinks == old(roomLinks) + IterationLinks(current, other, extra)
    {
      if roll.branch < randomFirstConnectionChance {
        other := RandomNode(possibles, roll.pick);
      } else if roll.branch < randomFirstConnectionChance + farthestConnectionChance {
        ghost var j;
        other, j := FarthestNode(current, possibles);
        if other != null {
          assert FirstFarthest(current, possibles, j) && other == possibles[j];
        }
      } else {
        ghost var j;
        other, j := ClosestNode(current, possibles);
        if other != null {
          assert FirstNearest(current, possibles, j) && other == possibles[j];
        }
      }
      roomLinks := roomLinks + [RoomLink(current, other)];
      extra := None;
      if roll.second < secondConnectionChance {
        var another := RandomNode(possibles, roll.extra);
        roomLinks := roomLinks + [RoomLink(current, another)];
        extra := Some(another);
      }
    }
  }

  /** In iteration k the unvisited set (after adding current) holds
      n - k - 1 nodes; for two or more nodes it is never empty. */
  lemma PossiblesCount(allNodes: seq<FloorNode>, chain: seq<FloorNode?>, visited: set<FloorNode?>, k: nat)
    requires Distinct(allNodes) && |allNodes| >= 1 && |chain| == k + 1 && visited == Elems(chain)
    requires |allNodes| >= 2 ==> k < |allNodes| - 1 && null !in chain && Distinct(chain)
    requires |allNodes| >= 2 ==> forall x :: x in chain ==> x in allNodes
    requires |allNodes| == 1 ==> k == 0 && chain == [allNodes[0]]
    ensures |Unvisited(allNodes, visited)| == |allNodes| - k - 1
  {
    if |allNodes| >= 2 {
      DistinctCard(chain);
    } else {
      assert chain[0] in visited;
      assert forall x :: x in visited ==> x == chain[0];
    }
    UnvisitedCount(allNodes, visited);
  }

  /** Extending the walk by one iteration keeps the earlier iterations'
      choices (their unvisited sets only look at the unchanged prefix)
      and records the new one. */
  lemma StepKept(allNodes: seq<FloorNode>, chain: seq<FloorNode?>, extras: seq<Option<FloorNode?>>, rolls: seq<Roll>,
                 chances: Chances, other: FloorNode?, extra: Option<FloorNode?>)
    requires |chain| == |extras| + 1 && |extras| < |rolls|
    requires forall i :: 0 <= i < |extras| ==> StepChosen(allNodes, chain, extras, rolls, chances, i)
    requires chain[|extras|] != null
    requires Chosen(chain[|extras|], Unvisited(allNodes, Elems(chain)), other, extra, rolls[|extras|], chances)
    ensures forall i :: 0 <= i < |extras| + 1 ==> StepChosen(allNodes, chain + [other], extras + [extra], rolls, chances, i)
  {
    forall i | 0 <= i < |extras| + 1
      ensures StepChosen(allNodes, chain + [other], extras + [extra], rolls, chances, i)
    {
      assert (chain + [other])[..i + 1] == chain[..i + 1];
      if i < |extras| {
        assert StepChosen(allNodes, chain, extras, rolls, chances, i);
      } else {
        assert chain[..i + 1] == chain;
      }
    }
  }

  /** A walk of n distinct centres taken from n distinct centres visits
      every one of them. */
  lemma {:induction false} WalkCoversAll(allNodes: seq<FloorNode>, chain: seq<FloorNode?>)
    requires Distinct(allNodes) && Distinct(chain) && |chain| == |allNodes|
    requires forall x :: x in chain ==> x in allNodes
    ensures forall x :: x in allNodes ==> x in chain
  {
    var A: set<FloorNode?> := set x | x in allNodes;
    var C := Elems(chain);
    assert Distinct<FloorNode?>(allNodes);
    DistinctCard<FloorNode?>(allNodes);
    DistinctCard(chain);
    assert C <= A;
    assert A == C + (A - C) && C * (A - C) == {};
    assert |A - C| == 0;
    forall x | x in allNodes ensures x in chain {
      assert x in A && x !in A - C;
    }
  }

  /** l is the primary or the extra link of iteration i: it starts at the
      iteration's centre and ends at its target or its extra target. */
  ghost predicate IterationLink(chain: seq<FloorNode?>, extras: seq<Option<FloorNode?>>, i: nat, l: RoomLink)
    requires |chain| == |extras| + 1 && i < |extras|
  {
    && chain[i] != null
    && l.firstCenter == chain[i]
    && (l.secondCenter == chain[i + 1] || (extras[i].Some? && l.secondCenter == extras[i].value))
  }

  /** Every link of the walk's links is the primary or the extra link of
      some iteration. */
  lemma {:induction false} LinksOfMembers(chain: seq<FloorNode?>, extras: seq<Option<FloorNode?>>, l: RoomLink)
    requires |chain| == |extras| + 1
    requires forall i :: 0 <= i < |extras| ==> chain[i] != null
    requires l in LinksOf(chain, extras)
    ensures exists i :: 0 <= i < |extras| && IterationLink(chain, extras, i, l)
  {
    var c := chain[..|chain| - 1];
    var e := extras[..|extras| - 1];
    var i := |extras| - 1;
    if l in LinksOf(c, e) {
      LinksOfMembers(c, e, l);
      var j :| 0 <= j < |e| && IterationLink(c, e, j, l);
      assert c[j] == chain[j] && c[j + 1] == chain[j + 1] && e[j] == extras[j];
      assert IterationLink(chain, extras, j, l);
    } else {
      assert l in IterationLinks(chain[i], chain[i + 1], extras[i]);
      assert IterationLink(chain, extras, i, l);
    }
  }

  /** Both ends of every planned link are centres given to the planner
      (or a null second end); with two or more centres no second end is
      null, so a null second end, which stops CreateHallways, only occurs
      for a single room. */
  lemma PlannedEnds(p: Prims, first: nat, rolls: seq<Roll>)
    requires p.Planned(first, rolls) && ValidRolls(|p.allNodes|, rolls)
    ensures forall l :: l in p.roomLinks ==>
      && l.firstCenter in p.allNodes
      && (l.secondCenter != null ==> l.secondCenter in p.allNodes)
      && (|p.allNodes| >= 2 ==> l.secondCenter != null)
  {
    var n := |p.allNodes|;
    forall l | l in p.roomLinks
      ensures l.firstCenter in p.allNodes
      ensures l.secondCenter != null ==> l.secondCenter in p.allNodes
      ensures n >= 2 ==> l.secondCenter != null
    {
      LinksOfMembers(p.chain, p.extras, l);
      var i :| 0 <= i < |p.extras| && IterationLink(p.chain, p.extras, i, l);
      assert StepChosen(p.allNodes, p.chain, p.extras, rolls, p.GetChances(), i);
      var prefix := p.chain[..i + 1];
      var possibles := Unvisited(p.allNodes, Elems(prefix));
      UnvisitedMembers(p.allNodes, Elems(prefix));
      if n >= 2 {
        assert p.chain[i] in p.chain && p.chain[i + 1] in p.chain;
        assert Distinct(prefix) && forall x :: x in prefix ==> x in p.chain;
        PossiblesCount(p.allNodes, prefix, Elems(prefix), i);
      } else {
        assert p.chain[i] == p.allNodes[0];
      }
    }
  }

  /** What MST leaves behind, in the source's terms: for two or more
      centres, n - 1 iterations, between n - 1 and 2(n - 1) links, a walk
      through every centre exactly once; for a single centre a first link
      whose second end is null; and in every case the primary link of
      iteration i joins the i-th and (i + 1)-th centres of the walk, with
      the extra link, if rolled, right after it and starting at the same
      centre. */
  lemma PlannedOutcome(p: Prims, first: nat, rolls: seq<Roll>)
    requires p.Planned(first, rolls)
    ensures |p.allNodes| >= 2 ==>
      && |p.extras| == |p.allNodes| - 1
      && |p.allNodes| - 1 <= |p.roomLinks| <= 2 * (|p.allNodes| - 1)
      && forall x :: x in p.allNodes ==> x in p.chain
    ensures |p.allNodes| == 1 ==> |p.roomLinks| >= 1 && p.roomLinks[0] == RoomLink(p.allNodes[0], null)
    ensures forall i :: 0 <= i < |p.extras| ==>
      && i + ExtrasBefore(p.extras, i) < |p.roomLinks|
      && p.roomLinks[i + ExtrasBefore(p.extras, i)] == RoomLink(p.chain[i], p.chain[i + 1])
  {
    LinkCount(p.chain, p.extras);
    forall i | 0 <= i < |p.extras|
      ensures i + ExtrasBefore(p.extras, i) < |p.roomLinks|
      ensures p.roomLinks[i + ExtrasBefore(p.extras, i)] == RoomLink(p.chain[i], p.chain[i + 1])
    {
      PrimaryAt(p.chain, p.extras, i);
    }
    if |p.allNodes| >= 2 {
      WalkCoversAll(p.allNodes, p.chain);
    }
    if |p.allNodes| == 1 {
      PrimaryAt(p.chain, p.extras, 0);
    }
  }
}
