/** Value types shared by the dungeon generator model: optional values,
    integer vectors (Unity's Vector2Int) and the random streams the
    generator draws from. */
module Common {

  datatype Option<T> = None | Some(value: T)

  /** Unity's Vector2Int. For a tile's world position the second
      component stands for the world z axis (the y axis is always 0). */
  datatype Vec2 = Vec2(x: int, y: int) {
    function Plus(o: Vec2): Vec2 { Vec2(x + o.x, y + o.y) }
  }

  function Abs(n: int): nat { if n < 0 then -n else n }

  /** The range promise of `Random.Range(lo, hi)` / `Random.Next(lo, hi)`
      for integers: a value in [lo, hi), and lo itself when the range is
      empty. */
  predicate InRange(v: int, lo: int, hi: int) {
    if lo >= hi then v == lo else lo <= v < hi
  }

  /** A random number generator as an infinite stream of draws:
      next(k, lo, hi) is the value of the k-th call, made with bounds lo, hi. */
  type Stream = (nat, int, int) -> int

  /** Every draw respects the bounds it was asked for. Properties of the
      model hold for every stream that satisfies this. */
  ghost predicate HonestStream(next: Stream) {
    forall k: nat, lo: int, hi: int :: InRange(next(k, lo, hi), lo, hi)
  }

  /** No element occurs twice. */
  ghost predicate Distinct<T>(s: seq<T>) {
    forall a, b :: 0 <= a < b < |s| ==> s[a] != s[b]
  }

  /** The elements of a list as a set. */
  function Elems<T>(s: seq<T>): set<T> {
    set x | x in s
  }

  /** A list without duplicates has as many elements as its set. */
  lemma {:induction false} DistinctCard<T>(s: seq<T>)
    requires Distinct(s)
    ensures |Elems(s)| == |s|
  {
    if |s| > 0 {
      var p := s[..|s| - 1];
      assert Distinct(p);
      DistinctCard(p);
      assert Elems(s) == Elems(p) + {s[|s| - 1]};
      assert s[|s| - 1] !in Elems(p);
    }
  }

  /** Appending a new element keeps a list free of duplicates and adds
      that element to its set. */
  lemma DistinctSnoc<T>(s: seq<T>, x: T)
    requires Distinct(s) && x !in Elems(s)
    ensures Distinct(s + [x]) && Elems(s + [x]) == Elems(s) + {x}
  {
  }
}
