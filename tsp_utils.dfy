/**
 The travelling-salesman tour of Search/tsp_utils.py. A tour visits the
 cities in the order `ids` and returns to the first one; its length is
 cached in `len`, with -1 meaning "not computed yet". Distances between
 cities are a given function rather than the scaled Euclidean distance.
 */
module TspUtils {
  import opened Sequences

  /** `ids` lists every city index `0 .. n - 1` exactly once. */
  ghost predicate IsPermutation(ids: seq<int>, n: int)
  {
    multiset(ids) == multiset(Range(0, n))
  }

  predicate InRange(ids: seq<int>, n: int)
  {
    forall k :: 0 <= k < |ids| ==> 0 <= ids[k] < n
  }

  /** A rearrangement of `0 .. n - 1` has `n` entries, each a city index. */
  lemma PermutationInRange(ids: seq<int>, n: int)
    requires IsPermutation(ids, n)
    ensures |ids| == if n < 0 then 0 else n
    ensures InRange(ids, n)
  {
    assert |ids| == |multiset(ids)| == |Range(0, n)|;
    forall k | 0 <= k < |ids|
      ensures 0 <= ids[k] < n
    {
      assert ids[k] in multiset(Range(0, n));
      var l :| 0 <= l < |Range(0, n)| && Range(0, n)[l] == ids[k];
    }
  }

  /**
   The edge ending at stop `i` of the tour: from `ids[i - 1]` to `ids[i]`,
   where index -1 is Python's last element, so stop 0 closes the cycle.
   */
  function Edge<C>(cities: seq<C>, dist: (C, C) -> real, ids: seq<int>, i: nat): real
    requires i < |ids| && InRange(ids, |cities|)
  {
    var prev := if i == 0 then |ids| - 1 else i - 1;
    dist(cities[ids[prev]], cities[ids[i]])
  }

  /** The sum in `length()` over the stops `0 .. n - 1`. */
  function EdgeSum<C>(cities: seq<C>, dist: (C, C) -> real, ids: seq<int>, n: nat): real
    requires n <= |ids| && InRange(ids, |cities|)
  {
    if n == 0 then 0.0 else EdgeSum(cities, dist, ids, n - 1) + Edge(cities, dist, ids, n - 1)
  }

  /** The value `length()` computes: the sum over every stop of the tour. */
  function TourLength<C>(cities: seq<C>, dist: (C, C) -> real, ids: seq<int>): real
    requires InRange(ids, |cities|)
  {
    EdgeSum(cities, dist, ids, |ids|)
  }

  /** The length of the open path through `ids` in order, without a way back. */
  function PathLength<C>(cities: seq<C>, dist: (C, C) -> real, ids: seq<int>): real
    requires InRange(ids, |cities|)
  {
    if |ids| <= 1 then 0.0
    else
      var n := |ids|;
      PathLength(cities, dist, ids[..n - 1]) + dist(cities[ids[n - 2]], cities[ids[n - 1]])
  }

  /** The sum over the first `n` stops: the way back from the last city, then the path so far. */
  lemma {:induction false} EdgeSumIsPath<C>(cities: seq<C>, dist: (C, C) -> real, ids: seq<int>, n: nat)
    requires 1 <= n <= |ids| && InRange(ids, |cities|)
    ensures EdgeSum(cities, dist, ids, n) ==
      dist(cities[ids[|ids| - 1]], cities[ids[0]]) + PathLength(cities, dist, ids[..n])
  {
    if n > 1 {
      EdgeSumIsPath(cities, dist, ids, n - 1);
      assert ids[..n][..n - 1] == ids[..n - 1];
    }
  }

  /**
   `length()` closes the cycle: it is the open path through the cities in
   tour order plus the edge from the last city back to the first.
   */
  lemma TourLengthClosesCycle<C>(cities: seq<C>, dist: (C, C) -> real, ids: seq<int>)
    requires InRange(ids, |cities|)
    ensures TourLength(cities, dist, ids) ==
      if ids == [] then 0.0 else dist(cities[ids[|ids| - 1]], cities[ids[0]]) + PathLength(cities, dist, ids)
  {
    if ids != [] {
      EdgeSumIsPath(cities, dist, ids, |ids|);
      assert ids[..|ids|] == ids;
    }
  }

  /** With distances that are never negative, no sum of edges is negative. */
  lemma {:induction false} EdgeSumNonNegative<C>(cities: seq<C>, dist: (C, C) -> real, ids: seq<int>, n: nat)
    requires n <= |ids| && InRange(ids, |cities|)
    requires forall a, b :: dist(a, b) >= 0.0
    ensures EdgeSum(cities, dist, ids, n) >= 0.0
  {
    if n > 0 {
      EdgeSumNonNegative(cities, dist, ids, n - 1);
      assert Edge(cities, dist, ids, n - 1) >= 0.0;
    }
  }

  /**
   The tour's length is never negative, so once `length()` has stored it the
   sentinel test `len < 0` fails and later calls read the cache.
   */
  lemma TourLengthNonNegative<C>(cities: seq<C>, dist: (C, C) -> real, ids: seq<int>)
    requires InRange(ids, |cities|)
    requires forall a, b :: dist(a, b) >= 0.0
    ensures TourLength(cities, dist, ids) >= 0.0
  {
    EdgeSumNonNegative(cities, dist, ids, |ids|);
  }

  /**
   The visiting order of `random_neighbor()`: choice 1 swaps the cities at
   stops `i` and `j`, choice 2 reverses the stops `i .. j`.
   */
  function NeighborIds(ids: seq<int>, i: nat, j: nat, c: int): (r: seq<int>)
    requires i <= j < |ids|
  {
    if c == 1 then Swap(ids, i, j) else ReverseSegment(ids, i, j)
  }

  /**
   Either choice keeps the order a rearrangement of the cities and touches
   only the stops `i .. j`: a swap moves exactly the two end cities, a
   reversal mirrors the whole segment.
   */
  lemma NeighborIdsFacts(ids: seq<int>, n: int, i: nat, j: nat, c: int)
    requires i <= j < |ids|
    ensures var r := NeighborIds(ids, i, j, c);
      && |r| == |ids|
      && (IsPermutation(ids, n) ==> IsPermutation(r, n))
      && (forall k :: 0 <= k < |ids| && (k < i || j < k) ==> r[k] == ids[k])
      && (c == 1 ==> r[i] == ids[j] && r[j] == ids[i] && forall k :: i < k < j ==> r[k] == ids[k])
      && (c != 1 ==> forall k :: i <= k <= j ==> r[k] == ids[i + j - k])
  {
    SwapFacts(ids, i, j);
    ReverseSegmentFacts(ids, i, j);
  }

  /** `Tour`: the cities, the visiting order `ids` and the cached length `len`. */
  class Tour<C> {
    const N: int
    const cities: seq<C>
    const dist: (C, C) -> real
    var ids: seq<int>
    var len: real

    /** `ids` is a rearrangement of the city indices, and a stored length is the tour's length. */
    ghost predicate Valid()
      reads this
    {
      && N == |cities| == |ids|
      && IsPermutation(ids, N)
      && InRange(ids, |cities|)
      && (len >= 0.0 ==> len == TourLength(cities, dist, ids))
    }

    /** `Tour(cities)`: `shuffled` stands for `random.shuffle(list(range(N)))`. */
    constructor (cs: seq<C>, d: (C, C) -> real, shuffled: seq<int>)
      requires multiset(shuffled) == multiset(Range(0, |cs|))
      ensures N == |cs| && cities == cs && dist == d
      ensures ids == shuffled && len == -1.0 && Valid()
    {
      N := |cs|;
      cities := cs;
      dist := d;
      ids := shuffled;
      len := -1.0;
      new;
      PermutationInRange(shuffled, |cs|);
    }

    /** `deepcopy(tour)`: a new tour with the same cities, order and cached length. */
    constructor Copy(t: Tour<C>)
      requires t.Valid()
      ensures N == t.N && cities == t.cities && dist == t.dist
      ensures ids == t.ids && len == t.len && Valid()
    {
      N := t.N;
      cities := t.cities;
      dist := t.dist;
      ids := t.ids;
      len := t.len;
    }

    /** `length()`: computed when `len` is negative, read from `len` otherwise. */
    method Length() returns (l: real)
      requires Valid()
      modifies this`len
      ensures Valid() && l == TourLength(cities, dist, ids) && len == l
      ensures old(len) >= 0.0 ==> len == old(len)
    {
      if len < 0.0 {
        len := TourLength(cities, dist, ids);
      }
      l := len;
    }

    /**
     `random_neighbor()`: `i`, `j` and `c` are the draws of `randint` and
     `choice([1, 2, 2, 2])`. The copy gets the new order and the sentinel
     length; the tour itself is left as it was.
     */
    method RandomNeighbor(i: int, j: int, c: int) returns (neighbor: Tour<C>)
      requires Valid() && 0 <= i <= N - 2 && i + 1 <= j <= N - 1
      requires c == 1 || c == 2
      ensures fresh(neighbor) && neighbor.Valid() && neighbor.len == -1.0
      ensures neighbor.N == N && neighbor.cities == cities && neighbor.dist == dist
      ensures neighbor.ids == NeighborIds(ids, i, j, c)
    {
      neighbor := new Tour<C>.Copy(this);
      PermutationInRange(ids, N);
      if c == 1 {
        neighbor.ids := Swap(neighbor.ids, i, j);
      } else {
        neighbor.ids := ReverseSegment(neighbor.ids, i, j);
      }
      neighbor.len := -1.0;
      NeighborIdsFacts(ids, N, i, j, c);
      PermutationInRange(neighbor.ids, N);
    }

    /** `__len__()`: the number of cities, which is the number of stops. */
    function Size(): (n: int)
      requires Valid()
      reads this
      ensures n == |ids|
    {
      PermutationInRange(ids, N);
      N
    }
  }
}
