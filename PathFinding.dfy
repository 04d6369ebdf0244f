/** A* search over the 4-neighbour lists of floor nodes (AStar.FindPath).
    The open list `toSearch` keeps insertion order, the closed set
    `processed` starts as the exclusion set, and the search writes the
    g/h costs and parent links of the nodes it reaches. */
module PathFinding {
  import opened Common
  import opened Tiles

  /** Every neighbour of a node of U is again in U: the search never
      leaves U, so U bounds the nodes whose fields it may write. */
  ghost predicate Closed(U: set<FloorNode>)
    reads U`neighbors
  {
    forall n, m :: n in U && m in n.neighbors ==> m in U
  }

  function Nodes(w: seq<FloorNode>): set<FloorNode> {
    set x | x in w
  }

  lemma NodesSnoc(s: seq<FloorNode>, k: nat)
    requires k < |s|
    ensures Nodes(s[..k + 1]) == Nodes(s[..k]) + {s[k]}
  {
    assert s[..k + 1] == s[..k] + [s[k]];
  }

  /** w is a walk along neighbour lists whose nodes after the first all lie
      outside the exclusion set. */
  ghost predicate IsWalk(w: seq<FloorNode>, exclusion: set<FloorNode>, U: set<FloorNode>)
    reads U`neighbors
  {
    && |w| > 0
    && (forall i :: 0 <= i < |w| ==> w[i] in U)
    && (forall i :: 1 <= i < |w| ==> w[i] !in exclusion && w[i] in w[i - 1].neighbors)
  }

  /** R separates start from end: it holds start but not end, and every
      neighbour of a node of R is in R or excluded. */
  ghost predicate Separates(R: set<FloorNode>, start: FloorNode, end: FloorNode, exclusion: set<FloorNode>)
    reads R`neighbors
  {
    && start in R && end !in R
    && forall n, m :: n in R && m in n.neighbors ==> m in R || m in exclusion
  }

  /** a is the better candidate: lower f cost, or equal f and lower h. */
  predicate Better(a: FloorNode, b: FloorNode)
    reads a`gCost, a`hCost, b`gCost, b`hCost
  {
    a.GetFCost() < b.GetFCost() || (a.GetFCost() == b.GetFCost() && a.GetHCost() < b.GetHCost())
  }

  /** The scan over the open list: the pick has no better node anywhere in
      the list and is strictly better than every node before it, so on a
      full tie the earliest node wins. */
  method LowestCost(toSearch: seq<FloorNode>) returns (i: nat)
    requires |toSearch| > 0
    ensures i < |toSearch|
    ensures forall j :: 0 <= j < |toSearch| ==> !Better(toSearch[j], toSearch[i])
    ensures forall j :: 0 <= j < i ==> Better(toSearch[i], toSearch[j])
  {
    i := 0;
    var k := 0;
    while k < |toSearch|
      invariant 0 <= i < |toSearch| && i <= k <= |toSearch|
      invariant forall j :: 0 <= j < k ==> !Better(toSearch[j], toSearch[i])
      invariant forall j :: 0 <= j < i ==> Better(toSearch[i], toSearch[j])
    {
      if Better(toSearch[k], toSearch[i]) {
        i := k;
      }
      k := k + 1;
    }
  }

  /** The A* scratch fields of a node. */
  datatype Scratch = Scratch(g: int, h: int, parent: FloorNode?)

  function ScratchOf(n: FloorNode): Scratch
    reads n`gCost, n`hCost, n`pathParent
  {
    Scratch(n.gCost, n.hCost, n.pathParent)
  }

  /** The scratch fields of every node of U. */
  ghost function Snapshot(U: set<FloorNode>): (m: map<FloorNode, Scratch>)
    reads U`gCost, U`hCost, U`pathParent
    ensures m.Keys == U
    ensures forall n :: n in U ==> m[n] == ScratchOf(n)
  {
    map n | n in U :: ScratchOf(n)
  }

  /** The scratch fields after one relaxation through `via`: a node that is
      not waiting is initialised; a waiting one changes only when the new g
      is strictly smaller. */
  function Relaxed(before: Scratch, waiting: bool, g: int, h: int, via: FloorNode): (after: Scratch)
    ensures after.g <= g || (waiting && after == before)
    ensures after == before || after == Scratch(g, h, via)
    ensures !waiting ==> after == Scratch(g, h, via)
    ensures waiting && g < before.g ==> after == Scratch(g, h, via)
    ensures waiting && g >= before.g ==> after == before
  {
    if g < before.g || !waiting then Scratch(g, h, via) else before
  }

  /** Once a node is waiting with the values of a relaxation through `via`,
      repeating that relaxation changes nothing: a node listed twice among
      the neighbours ends as if listed once. */
  lemma RelaxedIdempotent(before: Scratch, waiting: bool, g: int, h: int, via: FloorNode)
    ensures Relaxed(Relaxed(before, waiting, g, h, via), true, g, h, via) == Relaxed(before, waiting, g, h, via)
  {
  }

  /** In the scratch snapshot sc, n was relaxed from a dequeued parent that
      lists n as a neighbour: g is the parent's g plus the step, h is the
      distance to the target. */
  ghost predicate RelaxedFrom(n: FloorNode, rank: map<FloorNode, nat>, endNode: FloorNode,
                              U: set<FloorNode>, sc: map<FloorNode, Scratch>)
    reads U`neighbors
  {
    && n in sc
    && sc[n].parent != null
    && sc[n].parent in rank && sc[n].parent in U && sc[n].parent in sc
    && n in sc[n].parent.neighbors
    && sc[n].g == sc[sc[n].parent].g + sc[n].parent.DistTo(n)
    && sc[n].h == n.DistTo(endNode)
  }

  /** Every dequeued node but the start lies outside the exclusion set and
      was relaxed from a node dequeued before it. */
  ghost predicate Ranked(start: FloorNode, exclusion: set<FloorNode>, endNode: FloorNode, U: set<FloorNode>,
                         rank: map<FloorNode, nat>, sc: map<FloorNode, Scratch>)
    reads U`neighbors
  {
    && rank.Keys <= U
    && forall n :: n in rank && n != start ==>
         n !in exclusion && RelaxedFrom(n, rank, endNode, U, sc) && rank[sc[n].parent] < rank[n]
  }

  /** The search state between two dequeues, apart from exploration, over
      the scratch snapshot sc. rank numbers the dequeued nodes in order;
      the closed set is the exclusion set plus the dequeued nodes. */
  ghost predicate Core(start: FloorNode, endNode: FloorNode, exclusion: set<FloorNode>, U: set<FloorNode>,
                       toSearch: seq<FloorNode>, processed: set<FloorNode>, rank: map<FloorNode, nat>, steps: nat,
                       sc: map<FloorNode, Scratch>)
    reads U`neighbors
  {
    && start in U && endNode in U && Closed(U) && sc.Keys == U
    && Distinct(toSearch)
    && (forall n :: n in toSearch ==> n in U && n !in rank && (n == start || n !in processed))
    && processed == exclusion + rank.Keys
    && (start in rank || (rank == map[] && toSearch == [start]))
    && (forall n :: n in rank ==> rank[n] < steps)
    && Ranked(start, exclusion, endNode, U, rank, sc)
    && (forall n :: n in toSearch && n != start ==> RelaxedFrom(n, rank, endNode, U, sc))
  }

  /** Every neighbour of a dequeued node is closed or waiting. */
  ghost predicate Explored(U: set<FloorNode>, toSearch: seq<FloorNode>, processed: set<FloorNode>, rank: map<FloorNode, nat>)
    reads U`neighbors
  {
    forall n, m :: n in rank && n in U && m in n.neighbors ==> m in processed || m in toSearch
  }

  /** Progress of the inner foreach after the neighbours in `seen` were
      relaxed: `before` holds the scratch fields when the foreach started,
      `now` the current ones, ts0 the open list it started from and
      toSearch the current one. */
  ghost predicate RelaxedSoFar(current: FloorNode, endNode: FloorNode, processed: set<FloorNode>,
                               ts0: seq<FloorNode>, toSearch: seq<FloorNode>, seen: set<FloorNode>,
                               before: map<FloorNode, Scratch>, now: map<FloorNode, Scratch>)
  {
    && now.Keys == before.Keys && current in before
    && |ts0| <= |toSearch| && toSearch[..|ts0|] == ts0
    && (forall n :: n in toSearch ==> n in ts0 || (n in seen && n !in processed))
    && (forall n :: n in seen && n !in processed ==> n in toSearch)
    && (forall m :: m in seen && m !in processed && m in before ==>
          now[m] == Relaxed(before[m], m in ts0, before[current].g + current.DistTo(m), m.DistTo(endNode), current))
    && (forall n :: n in before && (n !in seen || n in processed) ==> now[n] == before[n])
  }

  /** The nodes of K keep the scratch fields they had in `initial`. */
  ghost predicate Frozen(K: set<FloorNode>, initial: map<FloorNode, Scratch>, now: map<FloorNode, Scratch>) {
    forall n :: n in K && n in initial && n in now ==> now[n] == initial[n]
  }

  /** Relaxing the neighbours of a node never touches a closed node, so
      closed nodes that were frozen stay frozen. */
  lemma RelaxKeepsFrozen(current: FloorNode, endNode: FloorNode, processed: set<FloorNode>,
                         ts0: seq<FloorNode>, toSearch: seq<FloorNode>, seen: set<FloorNode>,
                         K: set<FloorNode>, initial: map<FloorNode, Scratch>,
                         before: map<FloorNode, Scratch>, now: map<FloorNode, Scratch>)
    requires RelaxedSoFar(current, endNode, processed, ts0, toSearch, seen, before, now)
    requires Frozen(K, initial, before) && K <= processed
    ensures Frozen(K, initial, now)
  {
    forall n | n in K && n in initial && n in now
      ensures now[n] == initial[n]
    {
      assert n in before;
    }
  }

  /** The new scratch fields of `neighbor` after relaxing it from current. */
  function RelaxResult(sc: map<FloorNode, Scratch>, current: FloorNode, neighbor: FloorNode, endNode: FloorNode,
                       processed: set<FloorNode>, toSearch: seq<FloorNode>): Scratch
    requires current in sc && neighbor in sc
  {
    if neighbor in processed then sc[neighbor]
    else Relaxed(sc[neighbor], neighbor in toSearch, sc[current].g + current.DistTo(neighbor), neighbor.DistTo(endNode), current)
  }

  /** Relaxing one neighbour of a dequeued node keeps the search state. */
  lemma CoreRelaxStep(start: FloorNode, endNode: FloorNode, exclusion: set<FloorNode>, U: set<FloorNode>,
                      ts: seq<FloorNode>, processed: set<FloorNode>, rank: map<FloorNode, nat>, steps: nat,
                      sc: map<FloorNode, Scratch>, current: FloorNode, neighbor: FloorNode)
    requires Core(start, endNode, exclusion, U, ts, processed, rank, steps, sc)
    requires current in rank && neighbor in current.neighbors
    ensures neighbor in U && current in U && current in processed
    ensures Core(start, endNode, exclusion, U,
                 if neighbor in processed || neighbor in ts then ts else ts + [neighbor], processed, rank, steps,
                 sc[neighbor := RelaxResult(sc, current, neighbor, endNode, processed, ts)])
  {
    var r := RelaxResult(sc, current, neighbor, endNode, processed, ts);
    if neighbor in processed {
      assert sc[neighbor := r] == sc;
    } else {
      RelaxKeepsRanked(start, exclusion, rank, endNode, U, sc, neighbor, r);
      RelaxKeepsWaiting(start, rank, endNode, U, ts, if neighbor in ts then ts else ts + [neighbor],
                        sc, current, neighbor, r);
    }
  }

  /** Relaxing a node outside the closed set leaves the parent links of
      the dequeued nodes intact. */
  lemma RelaxKeepsRanked(start: FloorNode, exclusion: set<FloorNode>, rank: map<FloorNode, nat>, endNode: FloorNode,
                         U: set<FloorNode>, sc: map<FloorNode, Scratch>, neighbor: FloorNode, r: Scratch)
    requires neighbor !in rank
    requires Ranked(start, exclusion, endNode, U, rank, sc)
    ensures Ranked(start, exclusion, endNode, U, rank, sc[neighbor := r])
  {
    forall n | n in rank && n != start
      ensures RelaxedFrom(n, rank, endNode, U, sc[neighbor := r])
    {
      assert RelaxedFrom(n, rank, endNode, U, sc);
    }
  }

  /** After relaxing a neighbour of a dequeued node, every waiting node
      (the neighbour included) is relaxed from a dequeued node. */
  lemma RelaxKeepsWaiting(start: FloorNode, rank: map<FloorNode, nat>, endNode: FloorNode, U: set<FloorNode>,
                          ts: seq<FloorNode>, ts': seq<FloorNode>, sc: map<FloorNode, Scratch>,
                          current: FloorNode, neighbor: FloorNode, r: Scratch)
    requires current in rank && current in U && current in sc && neighbor in sc
    requires neighbor !in rank && neighbor in current.neighbors
    requires forall n :: n in ts && n != start ==> RelaxedFrom(n, rank, endNode, U, sc)
    requires r == Relaxed(sc[neighbor], neighbor in ts, sc[current].g + current.DistTo(neighbor), neighbor.DistTo(endNode), current)
    requires ts' == if neighbor in ts then ts else ts + [neighbor]
    ensures forall n :: n in ts' && n != start ==> RelaxedFrom(n, rank, endNode, U, sc[neighbor := r])
  {
    forall n | n in ts' && n != start
      ensures RelaxedFrom(n, rank, endNode, U, sc[neighbor := r])
    {
      if n != neighbor {
        assert n in ts;
        assert RelaxedFrom(n, rank, endNode, U, sc);
      } else if r == sc[neighbor] {
        assert RelaxedFrom(n, rank, endNode, U, sc);
      }
    }
  }

  /** Relaxing one more neighbour extends the progress of the foreach by
      that neighbour. */
  lemma RelaxedSoFarStep(current: FloorNode, endNode: FloorNode, processed: set<FloorNode>,
                         ts0: seq<FloorNode>, ts: seq<FloorNode>, seen: set<FloorNode>,
                         before: map<FloorNode, Scratch>, now: map<FloorNode, Scratch>, neighbor: FloorNode)
    requires RelaxedSoFar(current, endNode, processed, ts0, ts, seen, before, now)
    requires current in processed && neighbor in before
    ensures RelaxedSoFar(current, endNode, processed, ts0,
                         if neighbor in processed || neighbor in ts then ts else ts + [neighbor],
                         seen + {neighbor}, before,
                         now[neighbor := RelaxResult(now, current, neighbor, endNode, processed, ts)])
  {
    if neighbor in seen && neighbor !in processed {
      RelaxedIdempotent(before[neighbor], neighbor in ts0, before[current].g + current.DistTo(neighbor),
                        neighbor.DistTo(endNode), current);
    }
  }

  /** One pass of the inner foreach: relax neighbor from current. Only
      the neighbour's scratch fields change, to the relaxation result. */
  method RelaxOne(current: FloorNode, neighbor: FloorNode, endNode: FloorNode, processed: set<FloorNode>,
                  toSearch: seq<FloorNode>, ghost U: set<FloorNode>)
    returns (toSearch': seq<FloorNode>)
    requires current in processed && current in U && neighbor in U
    modifies neighbor`gCost, neighbor`hCost, neighbor`pathParent
    ensures toSearch' == if neighbor in processed || neighbor in toSearch then toSearch else toSearch + [neighbor]
    ensures Snapshot(U) == old(Snapshot(U))[neighbor := RelaxResult(old(Snapshot(U)), current, neighbor, endNode, processed, toSearch)]
  {
    ghost var sc := Snapshot(U);
    toSearch' := toSearch;
    if neighbor !in processed {
      var newMoveCost := current.GetGCost() + current.DistTo(neighbor);
      var waiting := neighbor in toSearch;
      if newMoveCost < neighbor.GetGCost() || !waiting {
        neighbor.SetGCost(newMoveCost);
        neighbor.SetHCost(neighbor.DistTo(endNode));
        neighbor.SetPathParent(current);
        if !waiting {
          toSearch' := toSearch + [neighbor];
        }
      }
    }
    ghost var sc' := sc[neighbor := RelaxResult(sc, current, neighbor, endNode, processed, toSearch)];
    forall n | n in U
      ensures ScratchOf(n) == sc'[n]
    {
      if n != neighbor {
        assert ScratchOf(n) == old(ScratchOf(n)) == sc[n];
      }
    }
    assert Snapshot(U) == sc';
  }

  /** After all neighbours of current were relaxed, every dequeued node has
      its neighbours closed or waiting. */
  lemma ExploredAfterRelax(U: set<FloorNode>, current: FloorNode, processed: set<FloorNode>, rank: map<FloorNode, nat>,
                           ts0: seq<FloorNode>, ts: seq<FloorNode>, seen: set<FloorNode>)
    requires forall n, m :: n in rank && n in U && n != current && m in n.neighbors ==> m in processed || m in ts0
    requires |ts0| <= |ts| && ts[..|ts0|] == ts0
    requires forall m :: m in current.neighbors ==> m in seen
    requires forall m :: m in seen && m !in processed ==> m in ts
    ensures Explored(U, ts, processed, rank)
  {
    forall n, m | n in rank && n in U && m in n.neighbors
      ensures m in processed || m in ts
    {
      if n != current && m !in processed {
        var i :| 0 <= i < |ts0| && ts0[i] == m;
        assert ts[i] == m;
      }
    }
  }

  /** The inner foreach of FindPath over the neighbours of the node just
      dequeued: afterwards each neighbour outside the closed set is waiting
      and relaxed through current, and every other node keeps its fields
      (RelaxedSoFar over all neighbours, from the snapshot on entry). */
  method Relax(current: FloorNode, endNode: FloorNode, processed: set<FloorNode>, toSearch: seq<FloorNode>,
               ghost start: FloorNode, ghost exclusion: set<FloorNode>, ghost U: set<FloorNode>,
               ghost rank: map<FloorNode, nat>, ghost steps: nat)
    returns (toSearch': seq<FloorNode>)
    requires current in rank
    requires Core(start, endNode, exclusion, U, toSearch, processed, rank, steps, Snapshot(U))
    requires forall n, m :: n in rank && n in U && n != current && m in n.neighbors ==> m in processed || m in toSearch
    modifies U`gCost, U`hCost, U`pathParent
    ensures Core(start, endNode, exclusion, U, toSearch', processed, rank, steps, Snapshot(U))
    ensures Explored(U, toSearch', processed, rank)
    ensures RelaxedSoFar(current, endNode, processed, toSearch, toSearch', Nodes(current.neighbors),
                         old(Snapshot(U)), Snapshot(U))
  {
    var neighbors := current.GetNeighbors();
    ghost var before := Snapshot(U);
    toSearch' := toSearch;
    ghost var seen: set<FloorNode> := {};
    var k := 0;
    while k < |neighbors|
      invariant k <= |neighbors|
      invariant seen == Nodes(neighbors[..k])
      invariant Core(start, endNode, exclusion, U, toSearch', processed, rank, steps, Snapshot(U))
      invariant RelaxedSoFar(current, endNode, processed, toSearch, toSearch', seen, before, Snapshot(U))
    {
      var neighbor := neighbors[k];
      ghost var sc := Snapshot(U);
      CoreRelaxStep(start, endNode, exclusion, U, toSearch', processed, rank, steps, sc, current, neighbor);
      RelaxedSoFarStep(current, endNode, processed, toSearch, toSearch', seen, before, sc, neighbor);
      toSearch' := RelaxOne(current, neighbor, endNode, processed, toSearch', U);
      NodesSnoc(neighbors, k);
      seen := seen + {neighbor};
      k := k + 1;
    }
    assert neighbors[..k] == neighbors;
    ExploredAfterRelax(U, current, processed, rank, toSearch, toSearch', seen);
  }

  /** toSearch.Remove(current) on a list without duplicates where current
      sits at index i. */
  function RemoveAt(ts: seq<FloorNode>, i: nat): (r: seq<FloorNode>)
    requires i < |ts|
    ensures |r| == |ts| - 1
    ensures forall a :: 0 <= a < |r| ==> r[a] == if a < i then ts[a] else ts[a + 1]
  {
    ts[..i] + ts[i + 1..]
  }

  /** Removing one element of a list without duplicates removes exactly
      that node and keeps the rest distinct. */
  lemma RemoveAtMembers(ts: seq<FloorNode>, i: nat)
    requires i < |ts| && Distinct(ts)
    ensures Distinct(RemoveAt(ts, i))
    ensures forall n :: n in RemoveAt(ts, i) <==> n in ts && n != ts[i]
  {
    var r := RemoveAt(ts, i);
    forall n | n in ts && n != ts[i]
      ensures n in r
    {
      var a :| 0 <= a < |ts| && ts[a] == n;
      if a < i { assert r[a] == n; } else { assert r[a - 1] == n; }
    }
  }

  /** Dequeuing the i-th waiting node keeps the search state: the node
      joins the closed set with the next rank. */
  lemma DequeueStep(start: FloorNode, endNode: FloorNode, exclusion: set<FloorNode>, U: set<FloorNode>,
                    ts: seq<FloorNode>, processed: set<FloorNode>, rank: map<FloorNode, nat>, steps: nat,
                    sc: map<FloorNode, Scratch>, i: nat)
    requires Core(start, endNode, exclusion, U, ts, processed, rank, steps, sc)
    requires i < |ts|
    ensures ts[i] in U && ts[i] !in rank
    ensures Core(start, endNode, exclusion, U, RemoveAt(ts, i), processed + {ts[i]}, rank[ts[i] := steps], steps + 1, sc)
  {
    var c := ts[i];
    var rank' := rank[c := steps];
    RemoveAtMembers(ts, i);
    forall n | n in rank' && n != start
      ensures n !in exclusion && RelaxedFrom(n, rank', endNode, U, sc) && rank'[sc[n].parent] < rank'[n]
    {
      assert RelaxedFrom(n, rank, endNode, U, sc);
    }
    forall n | n in RemoveAt(ts, i) && n != start
      ensures RelaxedFrom(n, rank', endNode, U, sc)
    {
      assert RelaxedFrom(n, rank, endNode, U, sc);
    }
  }

  /** After a dequeue, every dequeued node but the new one still has its
      neighbours closed or waiting. */
  lemma DequeueExplored(U: set<FloorNode>, ts: seq<FloorNode>, processed: set<FloorNode>, rank: map<FloorNode, nat>,
                        steps: nat, i: nat)
    requires Explored(U, ts, processed, rank)
    requires i < |ts| && Distinct(ts)
    ensures forall n, m :: n in rank[ts[i] := steps] && n in U && n != ts[i] && m in n.neighbors ==>
      m in processed + {ts[i]} || m in RemoveAt(ts, i)
  {
    RemoveAtMembers(ts, i);
  }

  /** The head of each round of FindPath: pick the waiting node with the
      lowest f cost (ties to the lower h cost, then to the earlier entry),
      remove it from the open list and close it. Scratch fields are only read. */
  method TakeLowest(toSearch: seq<FloorNode>, processed: set<FloorNode>,
                    ghost start: FloorNode, ghost endNode: FloorNode, ghost exclusion: set<FloorNode>,
                    ghost U: set<FloorNode>, ghost rank: map<FloorNode, nat>, ghost steps: nat)
    returns (current: FloorNode, toSearch': seq<FloorNode>, processed': set<FloorNode>)
    requires |toSearch| > 0
    requires Core(start, endNode, exclusion, U, toSearch, processed, rank, steps, Snapshot(U))
    requires Explored(U, toSearch, processed, rank)
    ensures current in toSearch && current in U && current !in rank
    ensures forall n :: n in toSearch ==> !Better(n, current)
    ensures processed' == processed + {current}
    ensures forall n :: n in toSearch' <==> n in toSearch && n != current
    ensures Core(start, endNode, exclusion, U, toSearch', processed', rank[current := steps], steps + 1, Snapshot(U))
    ensures forall n, m :: n in rank[current := steps] && n in U && n != current && m in n.neighbors ==>
      m in processed' || m in toSearch'
    ensures Snapshot(U) == old(Snapshot(U))
  {
    ghost var sc := Snapshot(U);
    var i := LowestCost(toSearch);
    assert Snapshot(U) == sc;
    current := toSearch[i];
    DequeueStep(start, endNode, exclusion, U, toSearch, processed, rank, steps, sc, i);
    DequeueExplored(U, toSearch, processed, rank, steps, i);
    RemoveAtMembers(toSearch, i);
    toSearch' := RemoveAt(toSearch, i);
    processed' := processed + {current};
  }

  /** The parent links along w lead back from each node to the one before
      it, with the costs a relaxation through that node writes. */
  ghost predicate ParentChain(w: seq<FloorNode>, endNode: FloorNode)
    reads Nodes(w)
  {
    forall i :: 1 <= i < |w| ==>
      && w[i].pathParent == w[i - 1]
      && w[i].gCost == w[i - 1].gCost + w[i - 1].DistTo(w[i])
      && w[i].hCost == w[i].DistTo(endNode)
  }

  /** Prepending the parent of the first node extends a walk and a chain. */
  lemma ChainCons(w: seq<FloorNode>, p: FloorNode, exclusion: set<FloorNode>, U: set<FloorNode>, endNode: FloorNode)
    requires IsWalk(w, exclusion, U) && ParentChain(w, endNode)
    requires p in U && w[0] !in exclusion && w[0] in p.neighbors
    requires w[0].pathParent == p && w[0].gCost == p.gCost + p.DistTo(w[0]) && w[0].hCost == w[0].DistTo(endNode)
    ensures IsWalk([p] + w, exclusion, U) && ParentChain([p] + w, endNode)
    ensures Nodes([p] + w) == Nodes(w) + {p}
  {
    var w' := [p] + w;
    assert forall i :: 1 <= i < |w'| ==> w'[i] == w[i - 1];
  }

  /** The state before the first dequeue: only the start waits, the
      closed set is the exclusion set. */
  lemma InitialCore(start: FloorNode, endNode: FloorNode, exclusion: set<FloorNode>, U: set<FloorNode>,
                    sc: map<FloorNode, Scratch>)
    requires start in U && endNode in U && Closed(U) && sc.Keys == U
    ensures Core(start, endNode, exclusion, U, [start], exclusion, map[], 0, sc)
    ensures Explored(U, [start], exclusion, map[])
  {
  }

  /** A search whose open list ran empty leaves the dequeued nodes as a
      set that separates start from end. */
  lemma ExhaustedSeparates(start: FloorNode, endNode: FloorNode, exclusion: set<FloorNode>, U: set<FloorNode>,
                           processed: set<FloorNode>, rank: map<FloorNode, nat>, steps: nat, sc: map<FloorNode, Scratch>)
    requires Core(start, endNode, exclusion, U, [], processed, rank, steps, sc)
    requires Explored(U, [], processed, rank)
    requires endNode !in rank
    ensures Separates(rank.Keys, start, endNode, exclusion)
  {
  }

  /** Each dequeue ranks one more node of U. */
  lemma RankGrows(U: set<FloorNode>, rank: map<FloorNode, nat>, current: FloorNode, steps: nat)
    requires current in U && current !in rank
    ensures |U - rank[current := steps].Keys| < |U - rank.Keys|
  {
    var a := U - rank[current := steps].Keys;
    var b := U - rank.Keys;
    assert b == a + {current};
  }

  /** One step of the retrace: the parent of a ranked node other than the
      start is ranked earlier and extends the walk and the chain. */
  lemma RetraceStep(startNode: FloorNode, endNode: FloorNode, exclusion: set<FloorNode>, U: set<FloorNode>,
                    rank: map<FloorNode, nat>, sc: map<FloorNode, Scratch>, walk: seq<FloorNode>)
    requires Ranked(startNode, exclusion, endNode, U, rank, sc)
    requires forall n :: n in U && n in sc ==> sc[n] == ScratchOf(n)
    requires IsWalk(walk, exclusion, U) && ParentChain(walk, endNode)
    requires walk[0] in rank && walk[0] != startNode
    ensures walk[0].pathParent != null && walk[0].pathParent in rank
    ensures rank[walk[0].pathParent] < rank[walk[0]]
    ensures IsWalk([walk[0].pathParent] + walk, exclusion, U) && ParentChain([walk[0].pathParent] + walk, endNode)
    ensures Nodes([walk[0].pathParent] + walk) == Nodes(walk) + {walk[0].pathParent}
  {
    var cur := walk[0];
    assert RelaxedFrom(cur, rank, endNode, U, sc);
    ChainCons(walk, cur.pathParent, exclusion, U, endNode);
  }

  /** The parent walk from endNode back to startNode (AStar.cs lines
      36-44): it ends because ranks fall along parent links, and the nodes
      it collects are those of a walk from start to end. */
  method RetracePath(startNode: FloorNode, endNode: FloorNode, exclusion: set<FloorNode>, ghost U: set<FloorNode>,
                     ghost rank: map<FloorNode, nat>)
    returns (path: Option<set<FloorNode>>, ghost walk: seq<FloorNode>)
    requires Ranked(startNode, exclusion, endNode, U, rank, Snapshot(U))
    requires startNode in rank && endNode in rank
    ensures path.Some?
    ensures IsWalk(walk, exclusion, U) && walk[0] == startNode && walk[|walk| - 1] == endNode
    ensures ParentChain(walk, endNode) && path.value == Nodes(walk)
  {
    var found: set<FloorNode> := {};
    var cur := endNode;
    walk := [endNode];
    while cur != startNode
      invariant cur in rank && |walk| > 0 && walk[0] == cur && walk[|walk| - 1] == endNode
      invariant found + {cur} == Nodes(walk)
      invariant IsWalk(walk, exclusion, U) && ParentChain(walk, endNode)
      decreases rank[cur]
    {
      RetraceStep(startNode, endNode, exclusion, U, rank, Snapshot(U), walk);
      var parent := cur.GetPathParent();
      found := found + {cur};
      cur := parent;
      walk := [cur] + walk;
    }
    found := found + {startNode};
    path := Some(found);
  }

  /** The loop invariant of FindPath between rounds: the search state is
      consistent, every closed node has its neighbours closed or waiting,
      the goal is not closed yet, and K keeps its scratch fields. */
  ghost predicate Searching(start: FloorNode, endNode: FloorNode, exclusion: set<FloorNode>, U: set<FloorNode>,
                            toSearch: seq<FloorNode>, processed: set<FloorNode>, rank: map<FloorNode, nat>, steps: nat,
                            initial: map<FloorNode, Scratch>, sc: map<FloorNode, Scratch>)
    reads U`neighbors
  {
    && Core(start, endNode, exclusion, U, toSearch, processed, rank, steps, sc)
    && Explored(U, toSearch, processed, rank)
    && endNode !in rank
    && Frozen(exclusion + {start}, initial, sc)
  }

  /** One round of the main loop of FindPath: close the cheapest waiting
      node; if it is the goal, retrace the path, otherwise relax its
      neighbours. Excluded nodes and the start keep their scratch fields. */
  method Round(toSearch: seq<FloorNode>, processed: set<FloorNode>,
               startNode: FloorNode, endNode: FloorNode, exclusion: set<FloorNode>,
               ghost U: set<FloorNode>, ghost rank: map<FloorNode, nat>, ghost steps: nat,
               ghost initial: map<FloorNode, Scratch>)
    returns (found: bool, path: Option<set<FloorNode>>, toSearch': seq<FloorNode>, processed': set<FloorNode>,
             ghost rank': map<FloorNode, nat>, ghost walk: seq<FloorNode>)
    requires |toSearch| > 0
    requires Searching(startNode, endNode, exclusion, U, toSearch, processed, rank, steps, initial, Snapshot(U))
    modifies U`gCost, U`hCost, U`pathParent
    ensures found ==>
      && path.Some? && IsWalk(walk, exclusion, U) && walk[0] == startNode && walk[|walk| - 1] == endNode
      && ParentChain(walk, endNode) && path.value == Nodes(walk)
    ensures !found ==>
      && Searching(startNode, endNode, exclusion, U, toSearch', processed', rank', steps + 1, initial, Snapshot(U))
      && |U - rank'.Keys| < |U - rank.Keys|
    ensures Frozen(exclusion + {startNode}, initial, Snapshot(U))
  {
    var current;
    current, toSearch', processed' := TakeLowest(toSearch, processed, startNode, endNode, exclusion, U, rank, steps);
    RankGrows(U, rank, current, steps);
    rank' := rank[current := steps];

    if current == endNode {
      found := true;
      path, walk := RetracePath(startNode, endNode, exclusion, U, rank');
      return;
    }

    found := false;
    walk := [];
    ghost var before := Snapshot(U);
    var relaxed := Relax(current, endNode, processed', toSearch', startNode, exclusion, U, rank', steps + 1);
    RelaxKeepsFrozen(current, endNode, processed', toSearch', relaxed, Nodes(current.neighbors),
                     exclusion + {startNode}, initial, before, Snapshot(U));
    toSearch' := relaxed;
    path := None;
  }

  /** A* search from startNode to endNode (AStar.FindPath). U is a set of
      nodes closed under neighbour lists that holds both ends; the search
      writes only the scratch fields of nodes of U.
      - On success the result is the set of nodes of a walk from start to
        end along the parent links, avoiding the exclusion set after the
        start, with the costs the relaxations wrote.
      - On failure the dequeued nodes separate start from end, so no walk
        avoiding the exclusion set reaches end (SeparatedUnreachable).
      - Excluded nodes and the start node keep their scratch fields. */
  method FindPath(startNode: FloorNode, endNode: FloorNode, exclusion: set<FloorNode>, ghost U: set<FloorNode>)
    returns (path: Option<set<FloorNode>>, ghost walk: seq<FloorNode>, ghost reached: set<FloorNode>)
    requires startNode in U && endNode in U && Closed(U)
    modifies U`gCost, U`hCost, U`pathParent
    ensures path.Some? ==>
      && IsWalk(walk, exclusion, U) && walk[0] == startNode && walk[|walk| - 1] == endNode
      && ParentChain(walk, endNode) && path.value == Nodes(walk)
    ensures path.None? ==> Separates(reached, startNode, endNode, exclusion)
    ensures Frozen(exclusion + {startNode}, old(Snapshot(U)), Snapshot(U))
  {
    var toSearch := [startNode];
    var processed := exclusion;
    ghost var rank: map<FloorNode, nat> := map[];
    ghost var steps: nat := 0;
    ghost var initial := Snapshot(U);
    walk := [];
    reached := {};
    InitialCore(startNode, endNode, exclusion, U, initial);
    while |toSearch| > 0
      invariant Searching(startNode, endNode, exclusion, U, toSearch, processed, rank, steps, initial, Snapshot(U))
      decreases |U - rank.Keys|
    {
      var found;
      ghost var rank';
      found, path, toSearch, processed, rank', walk :=
        Round(toSearch, processed, startNode, endNode, exclusion, U, rank, steps, initial);
      if found {
        return;
      }
      rank := rank';
      steps := steps + 1;
    }
    ExhaustedSeparates(startNode, endNode, exclusion, U, processed, rank, steps, Snapshot(U));
    path := None;
    reached := rank.Keys;
  }

  /** Total DistTo length of the steps of a walk. */
  function WalkLength(w: seq<FloorNode>): (len: int)
    ensures len >= 0
  {
    if |w| <= 1 then 0 else WalkLength(w[..|w| - 1]) + w[|w| - 2].DistTo(w[|w| - 1])
  }

  /** Along a parent chain the g cost grows by exactly the length of the
      walk: the goal's g cost is the start's plus the path length. */
  lemma {:induction false} ChainCost(w: seq<FloorNode>, endNode: FloorNode)
    requires |w| > 0 && ParentChain(w, endNode)
    ensures w[|w| - 1].gCost == w[0].gCost + WalkLength(w)
  {
    if |w| > 1 {
      var p := w[..|w| - 1];
      assert forall i :: 0 <= i < |p| ==> p[i] == w[i];
      ChainCost(p, endNode);
    }
  }

  /** A walk is never shorter than the DistTo of its endpoints. */
  lemma {:induction false} WalkLengthBound(w: seq<FloorNode>)
    requires |w| > 0
    ensures WalkLength(w) >= w[0].DistTo(w[|w| - 1])
  {
    if |w| > 1 {
      var p := w[..|w| - 1];
      WalkLengthBound(p);
      DistToIsMetric(w[0], w[|w| - 2], w[|w| - 1]);
    }
  }

  /** On a path found by FindPath the goal's g cost exceeds the start's by
      at least the DistTo between them. */
  lemma FoundPathCost(walk: seq<FloorNode>, exclusion: set<FloorNode>, U: set<FloorNode>,
                      startNode: FloorNode, endNode: FloorNode)
    requires IsWalk(walk, exclusion, U) && walk[0] == startNode && walk[|walk| - 1] == endNode
    requires ParentChain(walk, endNode)
    ensures endNode.gCost == startNode.gCost + WalkLength(walk)
    ensures endNode.gCost >= startNode.gCost + startNode.DistTo(endNode)
  {
    ChainCost(walk, endNode);
    WalkLengthBound(walk);
  }

  /** A separating set traps every walk from start that avoids the
      exclusion set: such a walk stays in R and so never ends at end. When
      FindPath returns no path, no walk to endNode exists. */
  lemma {:induction false} SeparatedUnreachable(R: set<FloorNode>, start: FloorNode, end: FloorNode,
                                                exclusion: set<FloorNode>, U: set<FloorNode>, w: seq<FloorNode>)
    requires Separates(R, start, end, exclusion)
    requires IsWalk(w, exclusion, U) && w[0] == start
    ensures forall i :: 0 <= i < |w| ==> w[i] in R
    ensures w[|w| - 1] != end
  {
    if |w| > 1 {
      var p := w[..|w| - 1];
      assert forall i :: 0 <= i < |p| ==> p[i] == w[i];
      assert IsWalk(p, exclusion, U);
      SeparatedUnreachable(R, start, end, exclusion, U, p);
      assert w[|w| - 2] in R;
    }
  }
}
