/** Cell arithmetic of the dungeon grid: which cells CacheNeighbors and
    CacheCorners look at, and the clamping NodeFromWorldPoint applies. */
module GridCells {
  import opened Common

  predicate InGrid(p: Vec2, size: Vec2) {
    0 <= p.x < size.x && 0 <= p.y < size.y
  }

  /** The candidates that index the grid array without going out of
      bounds, in their original order (the try/catch of the source drops
      the others). */
  function Keep(cands: seq<Vec2>, size: Vec2): (kept: seq<Vec2>)
    ensures |kept| <= |cands|
  {
    if |cands| == 0 then []
    else Keep(cands[..|cands| - 1], size) + (if InGrid(cands[|cands| - 1], size) then [cands[|cands| - 1]] else [])
  }

  /** The four edge-adjacent candidates of p, in CacheNeighbors' order. */
  function NeighborCandidates(p: Vec2): seq<Vec2> {
    [Vec2(p.x - 1, p.y), Vec2(p.x + 1, p.y), Vec2(p.x, p.y - 1), Vec2(p.x, p.y + 1)]
  }

  /** The four diagonal candidates of p, in CacheCorners' order. */
  function CornerCandidates(p: Vec2): seq<Vec2> {
    [Vec2(p.x - 1, p.y - 1), Vec2(p.x - 1, p.y + 1), Vec2(p.x + 1, p.y - 1), Vec2(p.x + 1, p.y + 1)]
  }

  /** Keep of a four-candidate list, written out candidate by candidate. */
  lemma KeepFour(a: Vec2, b: Vec2, c: Vec2, d: Vec2, size: Vec2)
    ensures Keep([a, b, c, d], size) == KeepOne(a, size) + KeepOne(b, size) + KeepOne(c, size) + KeepOne(d, size)
  {
    assert [a][..0] == [];
    assert Keep([a], size) == KeepOne(a, size);
    assert [a, b][..1] == [a];
    assert Keep([a, b], size) == Keep([a], size) + KeepOne(b, size);
    assert [a, b, c][..2] == [a, b];
    assert Keep([a, b, c], size) == Keep([a, b], size) + KeepOne(c, size);
    assert [a, b, c, d][..3] == [a, b, c];
  }

  /** One candidate on its own: kept when it lies in the grid. */
  function KeepOne(q: Vec2, size: Vec2): seq<Vec2> {
    if InGrid(q, size) then [q] else []
  }

  function NeighborCells(p: Vec2, size: Vec2): seq<Vec2> {
    Keep(NeighborCandidates(p), size)
  }

  function CornerCells(p: Vec2, size: Vec2): seq<Vec2> {
    Keep(CornerCandidates(p), size)
  }

  /** NeighborCells written out candidate by candidate. */
  lemma NeighborCellsSplit(p: Vec2, size: Vec2)
    ensures NeighborCells(p, size) ==
      KeepOne(Vec2(p.x - 1, p.y), size) + KeepOne(Vec2(p.x + 1, p.y), size) + KeepOne(Vec2(p.x, p.y - 1), size) + KeepOne(Vec2(p.x, p.y + 1), size)
  {
    KeepFour(Vec2(p.x - 1, p.y), Vec2(p.x + 1, p.y), Vec2(p.x, p.y - 1), Vec2(p.x, p.y + 1), size);
  }

  /** CornerCells written out candidate by candidate. */
  lemma CornerCellsSplit(p: Vec2, size: Vec2)
    ensures CornerCells(p, size) ==
      KeepOne(Vec2(p.x - 1, p.y - 1), size) + KeepOne(Vec2(p.x - 1, p.y + 1), size) + KeepOne(Vec2(p.x + 1, p.y - 1), size) + KeepOne(Vec2(p.x + 1, p.y + 1), size)
  {
    KeepFour(Vec2(p.x - 1, p.y - 1), Vec2(p.x - 1, p.y + 1), Vec2(p.x + 1, p.y - 1), Vec2(p.x + 1, p.y + 1), size);
  }

  /** Mathf.Clamp of a grid index into [lo, hi]. */
  function Clamp(v: int, lo: int, hi: int): (c: int)
    requires lo <= hi
    ensures lo <= c <= hi
    ensures lo <= v <= hi ==> c == v
  {
    if v < lo then lo else if v > hi then hi else v
  }

  /** Keep holds exactly the in-grid candidates. */
  lemma {:induction false} KeepMembers(cands: seq<Vec2>, size: Vec2)
    ensures forall q :: q in Keep(cands, size) <==> q in cands && InGrid(q, size)
  {
    if |cands| > 0 {
      var p := cands[..|cands| - 1];
      KeepMembers(p, size);
      assert cands == p + [cands[|cands| - 1]];
    }
  }

  /** Keep drops only out-of-grid candidates: with all candidates inside,
      it keeps them all. */
  lemma {:induction false} KeepAll(cands: seq<Vec2>, size: Vec2)
    requires forall i :: 0 <= i < |cands| ==> InGrid(cands[i], size)
    ensures Keep(cands, size) == cands
  {
    if |cands| > 0 {
      var p := cands[..|cands| - 1];
      KeepAll(p, size);
      assert cands == p + [cands[|cands| - 1]];
    }
  }

  /** The cached neighbours of p are exactly the in-grid cells at Manhattan
      distance one. */
  lemma NeighborCellsExact(p: Vec2, q: Vec2, size: Vec2)
    ensures q in NeighborCells(p, size) <==> InGrid(q, size) && Abs(q.x - p.x) + Abs(q.y - p.y) == 1
  {
    KeepMembers(NeighborCandidates(p), size);
  }

  /** The cached corners of p are exactly the in-grid diagonal cells. */
  lemma CornerCellsExact(p: Vec2, q: Vec2, size: Vec2)
    ensures q in CornerCells(p, size) <==> InGrid(q, size) && Abs(q.x - p.x) == 1 && Abs(q.y - p.y) == 1
  {
    KeepMembers(CornerCandidates(p), size);
  }

  /** The neighbour relation between cells of the grid is symmetric. */
  lemma NeighborSymmetric(p: Vec2, q: Vec2, size: Vec2)
    requires InGrid(p, size) && InGrid(q, size)
    ensures q in NeighborCells(p, size) <==> p in NeighborCells(q, size)
  {
    NeighborCellsExact(p, q, size);
    NeighborCellsExact(q, p, size);
    assert Abs(q.x - p.x) == Abs(p.x - q.x) && Abs(q.y - p.y) == Abs(p.y - q.y);
  }

  /** On a grid of at least 2 by 2 every cell has between two and four
      neighbours; an inner cell has all four, in the order left, right,
      down, up. */
  lemma NeighborCount(p: Vec2, size: Vec2)
    requires InGrid(p, size) && size.x >= 2 && size.y >= 2
    ensures 2 <= |NeighborCells(p, size)| <= 4
    ensures 0 < p.x < size.x - 1 && 0 < p.y < size.y - 1 ==> NeighborCells(p, size) == NeighborCandidates(p)
  {
    var c := NeighborCandidates(p);
    var k := NeighborCells(p, size);
    KeepMembers(c, size);
    var h := if p.x > 0 then c[0] else c[1];
    var v := if p.y > 0 then c[2] else c[3];
    assert h in k && v in k && h != v;
    var i :| 0 <= i < |k| && k[i] == h;
    var j :| 0 <= j < |k| && k[j] == v;
    assert i != j;
    if 0 < p.x < size.x - 1 && 0 < p.y < size.y - 1 {
      KeepAll(c, size);
    }
  }
}
