/**
 The N-Queens states of Search/nqueens.py. `queens[c]` is the row (1 to N)
 of the queen in column `c`. The first formulation counts pairs of queens on
 one row or one diagonal and moves a queen within its column; the
 permutation formulation counts diagonal pairs only and swaps two columns.
 */
module NQueens {
  import opened Wrappers
  import opened Sequences

  // ---------------------------------------------------------------------------
  // Counting conflicts
  // ---------------------------------------------------------------------------

  /** The queens in columns `i < j` attack each other (along a row only when `rows` holds). */
  predicate Clash(q: seq<int>, i: nat, j: nat, rows: bool)
    requires i < j < |q|
  {
    Abs(q[j] - q[i]) == j - i || (rows && q[j] == q[i])
  }

  /** Number of `j` in `lo .. |q| - 1` whose queen attacks the one in column `i`. */
  function ClashesWith(q: seq<int>, i: nat, lo: nat, rows: bool): nat
    requires i < lo <= |q|
    decreases |q| - lo
  {
    if lo == |q| then 0
    else (if Clash(q, i, lo, rows) then 1 else 0) + ClashesWith(q, i, lo + 1, rows)
  }

  /** Number of attacking pairs `(i, j)` with `lo <= i < j`. */
  function ConflictsFrom(q: seq<int>, lo: nat, rows: bool): nat
    requires lo <= |q|
    decreases |q| - lo
  {
    if lo + 1 >= |q| then 0
    else ClashesWith(q, lo, lo + 1, rows) + ConflictsFrom(q, lo + 1, rows)
  }

  /** The sum in `conflicts()`: one for every attacking pair `i < j`. */
  function ConflictCount(q: seq<int>, rows: bool): nat
  {
    ConflictsFrom(q, 0, rows)
  }

  /** The attacking pairs themselves. */
  ghost function ClashSet(q: seq<int>, rows: bool): set<(int, int)>
  {
    set i: nat, j: nat | i < j < |q| && Clash(q, i, j, rows) :: (i, j)
  }

  ghost function ClashSetFrom(q: seq<int>, lo: nat, rows: bool): set<(int, int)>
  {
    set i: nat, j: nat | lo <= i < j < |q| && Clash(q, i, j, rows) :: (i, j)
  }

  ghost function ClashSetWith(q: seq<int>, i: nat, lo: nat, rows: bool): set<(int, int)>
    requires i < lo
  {
    set j: nat | lo <= j < |q| && Clash(q, i, j, rows) :: (i, j)
  }

  /** Splitting off the pair `(i, lo)`. */
  lemma ClashSetWithStep(q: seq<int>, i: nat, lo: nat, rows: bool)
    requires i < lo < |q|
    ensures var rest := ClashSetWith(q, i, lo + 1, rows);
      && (i, lo) !in rest
      && ClashSetWith(q, i, lo, rows) == if Clash(q, i, lo, rows) then rest + {(i, lo)} else rest
  {
  }

  /** Splitting off the pairs whose first column is `lo`. */
  lemma ClashSetFromStep(q: seq<int>, lo: nat, rows: bool)
    requires lo + 1 < |q|
    ensures var head, rest := ClashSetWith(q, lo, lo + 1, rows), ClashSetFrom(q, lo + 1, rows);
      && head * rest == {}
      && ClashSetFrom(q, lo, rows) == head + rest
  {
  }

  lemma {:induction false} ClashesWithCounts(q: seq<int>, i: nat, lo: nat, rows: bool)
    requires i < lo <= |q|
    decreases |q| - lo
    ensures ClashesWith(q, i, lo, rows) == |ClashSetWith(q, i, lo, rows)|
  {
    if lo < |q| {
      ClashesWithCounts(q, i, lo + 1, rows);
      ClashSetWithStep(q, i, lo, rows);
    } else {
      assert ClashSetWith(q, i, lo, rows) == {};
    }
  }

  lemma {:induction false} ConflictsFromCounts(q: seq<int>, lo: nat, rows: bool)
    requires lo <= |q|
    decreases |q| - lo
    ensures ConflictsFrom(q, lo, rows) == |ClashSetFrom(q, lo, rows)|
  {
    if lo + 1 < |q| {
      ConflictsFromCounts(q, lo + 1, rows);
      ClashesWithCounts(q, lo, lo + 1, rows);
      ClashSetFromStep(q, lo, rows);
    } else {
      assert ClashSetFrom(q, lo, rows) == {};
    }
  }

  /** `conflicts()` is the number of attacking pairs. */
  lemma ConflictsIsClashCount(q: seq<int>, rows: bool)
    ensures ConflictCount(q, rows) == |ClashSet(q, rows)|
  {
    ConflictsFromCounts(q, 0, rows);
    assert ClashSetFrom(q, 0, rows) == ClashSet(q, rows);
  }

  /** No conflicts exactly when no two queens attack each other. */
  lemma ConflictsZero(q: seq<int>, rows: bool)
    ensures ConflictCount(q, rows) == 0 <==> forall i: nat, j: nat :: i < j < |q| ==> !Clash(q, i, j, rows)
  {
    ConflictsIsClashCount(q, rows);
    forall i: nat, j: nat | i < j < |q| && Clash(q, i, j, rows)
      ensures (i, j) in ClashSet(q, rows)
    {
    }
    if ConflictCount(q, rows) != 0 {
      var p :| p in ClashSet(q, rows);
      var i: nat, j: nat :| i < j < |q| && Clash(q, i, j, rows) && p == (i, j);
    }
  }

  /** `N * (N - 1) // 2`, the number of pairs of columns. */
  function Pairs(n: int): int
  {
    n * (n - 1) / 2
  }

  lemma PairsStep(m: nat)
    ensures Pairs(m + 1) == Pairs(m) + m
  {
    assert (m + 1) * m == m * (m - 1) + 2 * m;
  }

  lemma {:induction false} ClashesWithBound(q: seq<int>, i: nat, lo: nat, rows: bool, j: int)
    requires i < lo <= |q|
    decreases |q| - lo
    ensures ClashesWith(q, i, lo, rows) <= |q| - lo
    ensures lo <= j < |q| && !Clash(q, i, j, rows) ==> ClashesWith(q, i, lo, rows) < |q| - lo
  {
    if lo < |q| {
      ClashesWithBound(q, i, lo + 1, rows, j);
    }
  }

  lemma {:induction false} ConflictsFromBound(q: seq<int>, lo: nat, rows: bool, i: int, j: int)
    requires lo <= |q|
    decreases |q| - lo
    ensures ConflictsFrom(q, lo, rows) <= Pairs(|q| - lo)
    ensures lo <= i < j < |q| && !Clash(q, i, j, rows) ==> ConflictsFrom(q, lo, rows) < Pairs(|q| - lo)
  {
    if lo + 1 < |q| {
      ConflictsFromBound(q, lo + 1, rows, i, j);
      ClashesWithBound(q, lo, lo + 1, rows, j);
      PairsStep(|q| - lo - 1);
    } else {
      assert Pairs(|q| - lo) >= 0;
    }
  }

  /**
   `0 <= conflicts() <= N * (N - 1) // 2`, with strict inequality as soon as
   one pair of queens does not attack.
   */
  lemma ConflictsBound(q: seq<int>, rows: bool, i: nat, j: nat)
    ensures ConflictCount(q, rows) <= Pairs(|q|)
    ensures i < j < |q| && !Clash(q, i, j, rows) ==> ConflictCount(q, rows) < Pairs(|q|)
  {
    ConflictsFromBound(q, 0, rows, i, j);
  }

  // ---------------------------------------------------------------------------
  // The scan of `best_neighbor`
  // ---------------------------------------------------------------------------

  /**
   The loop of `best_neighbor` over the first `k` boards of `ms`, seeded with
   `seed`: the running minimum and the board kept, if any. A board is kept
   when its conflicts are strictly below the running minimum.
   */
  function BestScan(ms: seq<seq<int>>, k: nat, rows: bool, seed: int): (int, Option<seq<int>>)
    requires k <= |ms|
  {
    if k == 0 then (seed, None)
    else
      var p := BestScan(ms, k - 1, rows, seed);
      var c := ConflictCount(ms[k - 1], rows);
      if c < p.0 then (c, Some(ms[k - 1])) else p
  }

  /**
   What the scan of the first `n` boards finds: nothing exactly when none of
   them is below the seed; otherwise one of them below the seed, with none
   below it, and the first with that many conflicts.
   */
  lemma {:induction false} BestScanFacts(ms: seq<seq<int>>, n: nat, rows: bool, seed: int)
    requires n <= |ms|
    ensures var r := BestScan(ms, n, rows, seed);
      && (r.1.None? <==> forall k :: 0 <= k < n ==> ConflictCount(ms[k], rows) >= seed)
      && (r.1.None? ==> r.0 == seed)
      && (r.1.Some? ==> r.0 == ConflictCount(r.1.value, rows) && r.0 < seed)
      && (forall k :: 0 <= k < n ==> ConflictCount(ms[k], rows) >= r.0)
      && (r.1.Some? ==> exists i :: 0 <= i < n && ms[i] == r.1.value
                          && forall k :: 0 <= k < i ==> ConflictCount(ms[k], rows) > r.0)
  {
    if n > 0 {
      BestScanFacts(ms, n - 1, rows, seed);
      var p := BestScan(ms, n - 1, rows, seed);
      if ConflictCount(ms[n - 1], rows) < p.0 {
        // `n - 1` is the witness for the strict-minimum existential
        assert forall k :: 0 <= k < n - 1 ==> ConflictCount(ms[k], rows) > ConflictCount(ms[n - 1], rows);
      } else if p.1.Some? {
        var i :| 0 <= i < n - 1 && ms[i] == p.1.value
          && forall k :: 0 <= k < i ==> ConflictCount(ms[k], rows) > p.0;
      }
    }
  }

  // ---------------------------------------------------------------------------
  // Neighbourhoods
  // ---------------------------------------------------------------------------

  /** The copies made for column `col` with rows `1 .. hi - 1`, skipping the queen's own row. */
  function ColumnMoves(q: seq<int>, col: nat, hi: int): seq<seq<int>>
    requires col < |q|
    decreases hi
  {
    if hi <= 1 then []
    else ColumnMoves(q, col, hi - 1) + (if q[col] == hi - 1 then [] else [q[col := hi - 1]])
  }

  /** What `neighbors()` yields for the columns `0 .. c - 1`, column by column. */
  function RowMoves(q: seq<int>, c: nat): seq<seq<int>>
    requires c <= |q|
  {
    if c == 0 then [] else RowMoves(q, c - 1) + ColumnMoves(q, c - 1, |q| + 1)
  }

  /** The copies made for `i` and `j` in `i + 1 .. hi - 1`, with columns `i` and `j` swapped. */
  function SwapRow(q: seq<int>, i: nat, hi: int): seq<seq<int>>
    requires i < |q| && hi <= |q|
    decreases hi
  {
    if hi <= i + 1 then [] else SwapRow(q, i, hi - 1) + [Swap(q, i, hi - 1)]
  }

  /** What the permutation form's `neighbors()` yields for `i` in `0 .. c - 1`. */
  function SwapMoves(q: seq<int>, c: nat): seq<seq<int>>
    requires c <= |q|
  {
    if c == 0 then [] else SwapMoves(q, c - 1) + SwapRow(q, c - 1, |q|)
  }

  /** `for i in range(N - 1)`: every swap neighbour. */
  function AllSwaps(q: seq<int>): seq<seq<int>>
  {
    if |q| == 0 then [] else SwapMoves(q, |q| - 1)
  }

  /** A board of the form `q[col := r]` with `r` another row from 1 to `hi - 1`. */
  predicate RowMoveBelow(q: seq<int>, b: seq<int>, col: int, hi: int)
  {
    0 <= col < |q| && |b| == |q| && 1 <= b[col] < hi && b[col] != q[col] && b == q[col := b[col]]
  }

  /** A board of the form `q[col := r]` with `r` another row from 1 to N. */
  predicate RowMove(q: seq<int>, b: seq<int>, col: int)
  {
    RowMoveBelow(q, b, col, |q| + 1)
  }

  lemma {:induction false} ColumnMovesMembers(q: seq<int>, col: nat, hi: int)
    requires col < |q|
    decreases hi
    ensures forall b :: b in ColumnMoves(q, col, hi) <==> RowMoveBelow(q, b, col, hi)
  {
    if hi > 1 {
      ColumnMovesMembers(q, col, hi - 1);
      var ms := ColumnMoves(q, col, hi);
      forall b | RowMoveBelow(q, b, col, hi)
        ensures b in ms
      {
        if b[col] == hi - 1 {
          assert ms[|ms| - 1] == b;
        } else {
          assert RowMoveBelow(q, b, col, hi - 1);
        }
      }
    }
  }

  lemma {:induction false} RowMovesMembers(q: seq<int>, c: nat)
    requires c <= |q|
    ensures forall b :: b in RowMoves(q, c) <==> exists col :: 0 <= col < c && RowMove(q, b, col)
  {
    if c > 0 {
      RowMovesMembers(q, c - 1);
      ColumnMovesMembers(q, c - 1, |q| + 1);
      forall b | b in RowMoves(q, c)
        ensures exists col :: 0 <= col < c && RowMove(q, b, col)
      {
        if b !in RowMoves(q, c - 1) {
          assert b in ColumnMoves(q, c - 1, |q| + 1);
          assert RowMove(q, b, c - 1);
        }
      }
      forall b, col | 0 <= col < c && RowMove(q, b, col)
        ensures b in RowMoves(q, c)
      {
        if col == c - 1 {
          assert b in ColumnMoves(q, c - 1, |q| + 1);
        }
      }
    }
  }

  /**
   `neighbors()` yields exactly the boards that put one queen on another row
   from 1 to N within its column and leave every other column as it was.
   */
  lemma RowNeighbors(q: seq<int>, b: seq<int>)
    ensures b in RowMoves(q, |q|) <==>
      exists col :: 0 <= col < |q| && |b| == |q| && 1 <= b[col] <= |q| && b[col] != q[col]
        && forall k :: 0 <= k < |q| && k != col ==> b[k] == q[k]
  {
    RowMovesMembers(q, |q|);
    if exists col :: 0 <= col < |q| && |b| == |q| && 1 <= b[col] <= |q| && b[col] != q[col]
        && forall k :: 0 <= k < |q| && k != col ==> b[k] == q[k] {
      var col :| 0 <= col < |q| && |b| == |q| && 1 <= b[col] <= |q| && b[col] != q[col]
        && forall k :: 0 <= k < |q| && k != col ==> b[k] == q[k];
      assert b == q[col := b[col]];
      assert RowMove(q, b, col);
    }
  }

  lemma {:induction false} ColumnMovesCount(q: seq<int>, col: nat, hi: int)
    requires col < |q| && hi >= 1
    decreases hi
    ensures |ColumnMoves(q, col, hi)| == hi - 1 - (if 1 <= q[col] < hi then 1 else 0)
  {
    if hi > 1 {
      ColumnMovesCount(q, col, hi - 1);
    }
  }

  lemma {:induction false} RowMovesCount(q: seq<int>, c: nat)
    requires c <= |q|
    requires forall k :: 0 <= k < |q| ==> 1 <= q[k] <= |q|
    ensures |RowMoves(q, c)| == c * (|q| - 1)
  {
    if c > 0 {
      RowMovesCount(q, c - 1);
      ColumnMovesCount(q, c - 1, |q| + 1);
      assert c * (|q| - 1) == (c - 1) * (|q| - 1) + (|q| - 1);
    }
  }

  /** With every queen on a row from 1 to N there are N * (N - 1) row neighbours. */
  lemma RowNeighborCount(q: seq<int>)
    requires forall k :: 0 <= k < |q| ==> 1 <= q[k] <= |q|
    ensures |RowMoves(q, |q|)| == |q| * (|q| - 1)
  {
    RowMovesCount(q, |q|);
  }

  lemma {:induction false} SwapRowMembers(q: seq<int>, i: nat, hi: int)
    requires i < |q| && hi <= |q|
    decreases hi
    ensures |SwapRow(q, i, hi)| == if hi <= i + 1 then 0 else hi - 1 - i
    ensures forall b :: b in SwapRow(q, i, hi) <==> exists j :: i < j < hi && b == Swap(q, i, j)
  {
    if hi > i + 1 {
      SwapRowMembers(q, i, hi - 1);
      forall b, j | i < j < hi && b == Swap(q, i, j)
        ensures b in SwapRow(q, i, hi)
      {
        if j == hi - 1 {
          assert SwapRow(q, i, hi)[|SwapRow(q, i, hi)| - 1] == b;
        }
      }
    }
  }

  lemma {:induction false} SwapMovesMembers(q: seq<int>, c: nat)
    requires c <= |q|
    ensures |SwapMoves(q, c)| == Pairs(|q|) - Pairs(|q| - c)
    ensures forall b :: b in SwapMoves(q, c) <==> exists i, j :: 0 <= i < c && i < j < |q| && b == Swap(q, i, j)
  {
    if c > 0 {
      SwapMovesMembers(q, c - 1);
      SwapRowMembers(q, c - 1, |q|);
      PairsStep(|q| - c);
      forall b | b in SwapMoves(q, c)
        ensures exists i, j :: 0 <= i < c && i < j < |q| && b == Swap(q, i, j)
      {
        if b !in SwapMoves(q, c - 1) {
          assert b in SwapRow(q, c - 1, |q|);
        }
      }
      forall b, i, j | 0 <= i < c && i < j < |q| && b == Swap(q, i, j)
        ensures b in SwapMoves(q, c)
      {
        if i == c - 1 {
          assert b in SwapRow(q, c - 1, |q|);
        }
      }
    }
  }

  /**
   The permutation form's `neighbors()` yields N * (N - 1) / 2 boards, exactly
   the boards that swap two columns `i < j`; each is a rearrangement of the
   original.
   */
  lemma SwapNeighbors(q: seq<int>)
    ensures |AllSwaps(q)| == Pairs(|q|)
    ensures forall b :: b in AllSwaps(q) <==> exists i, j :: 0 <= i < j < |q| && b == Swap(q, i, j)
    ensures forall b :: b in AllSwaps(q) ==> multiset(b) == multiset(q)
  {
    if |q| > 0 {
      SwapMovesMembers(q, |q| - 1);
      forall b | b in AllSwaps(q)
        ensures multiset(b) == multiset(q)
      {
        var i, j :| 0 <= i < j < |q| && b == Swap(q, i, j);
        SwapFacts(q, i, j);
      }
    }
  }

  // ---------------------------------------------------------------------------
  // An improving neighbour exists from three queens on
  // ---------------------------------------------------------------------------

  /** A row move `(col, row)` after which the queens in columns `i < j` no longer attack. */
  lemma GoodMove(q: seq<int>) returns (col: nat, row: int, i: nat, j: nat)
    requires |q| >= 3
    ensures col < |q| && 1 <= row <= |q| && row != q[col]
    ensures i < j < |q| && !Clash(q[col := row], i, j, true)
  {
    var n := |q|;
    // moving column 0 to `r` frees the pair (0, 1) or the pair (0, 2)
    // unless `r` attacks both, which at most two rows do
    if 1 != q[0] && !Clash(q[0 := 1], 0, 1, true) {
      col, row, i, j := 0, 1, 0, 1;
    } else if 1 != q[0] && !Clash(q[0 := 1], 0, 2, true) {
      col, row, i, j := 0, 1, 0, 2;
    } else if 2 != q[0] && !Clash(q[0 := 2], 0, 1, true) {
      col, row, i, j := 0, 2, 0, 1;
    } else if 2 != q[0] && !Clash(q[0 := 2], 0, 2, true) {
      col, row, i, j := 0, 2, 0, 2;
    } else if 3 != q[0] && !Clash(q[0 := 3], 0, 1, true) {
      col, row, i, j := 0, 3, 0, 1;
    } else if 3 != q[0] && !Clash(q[0 := 3], 0, 2, true) {
      col, row, i, j := 0, 3, 0, 2;
    } else if n >= 4 && !Clash(q[0 := 4], 0, 1, true) {
      col, row, i, j := 0, 4, 0, 1;
    } else if n >= 4 {
      // three of the rows 1 .. 4 differ from q[0], but at most two attack both
      assert false;
    } else {
      // only q == [2, 2, 1] and q == [2, 2, 3] are left; moving column 2 frees (0, 2)
      col, row, i, j := 2, 4 - q[2], 0, 2;
      assert q[0] == 2 && q[1] == 2 && (q[2] == 1 || q[2] == 3);
    }
  }

  /**
   With at least three columns `best_neighbor()` finds a neighbour below
   N * (N - 1) // 2, so it does not return None.
   */
  lemma BestNeighborExists(q: seq<int>)
    requires |q| >= 3
    ensures BestScan(RowMoves(q, |q|), |RowMoves(q, |q|)|, true, Pairs(|q|)).1.Some?
  {
    var col, row, i, j := GoodMove(q);
    var b := q[col := row];
    ConflictsBound(b, true, i, j);
    RowMovesMembers(q, |q|);
    assert RowMove(q, b, col);
    var ms := RowMoves(q, |q|);
    assert b in ms;
    var k :| 0 <= k < |ms| && ms[k] == b;
    BestScanFacts(ms, |ms|, true, Pairs(|q|));
  }

  lemma {:induction false} RowMovesLength(q: seq<int>, c: nat)
    requires c <= |q|
    ensures forall k :: 0 <= k < |RowMoves(q, c)| ==> |RowMoves(q, c)[k]| == |q|
  {
    if c > 0 {
      RowMovesLength(q, c - 1);
      ColumnMovesMembers(q, c - 1, |q| + 1);
      var ms := RowMoves(q, c);
      forall k | 0 <= k < |ms|
        ensures |ms[k]| == |q|
      {
        if k >= |RowMoves(q, c - 1)| {
          assert ms[k] in ColumnMoves(q, c - 1, |q| + 1);
        }
      }
    }
  }

  /** With at most two columns and rows in range, no neighbour goes below the seed. */
  lemma BestNeighborNoneForSmallBoards(q: seq<int>)
    requires |q| <= 2
    requires forall k :: 0 <= k < |q| ==> 1 <= q[k] <= |q|
    ensures BestScan(RowMoves(q, |q|), |RowMoves(q, |q|)|, true, Pairs(|q|)).1.None?
  {
    var ms := RowMoves(q, |q|);
    BestScanFacts(ms, |ms|, true, Pairs(|q|));
    forall k | 0 <= k < |ms|
      ensures ConflictCount(ms[k], true) >= Pairs(|q|)
    {
      RowMovesMembers(q, |q|);
      assert ms[k] in ms;
      if |q| == 2 {
        assert Clash(ms[k], 0, 1, true);
      }
    }
  }

  // ---------------------------------------------------------------------------
  // The random neighbour's row draw
  // ---------------------------------------------------------------------------

  /**
   The row the retry loop settles on when it resumes at draw `k`: the first
   draw from there on other than `col`, or `col` when no draw is.
   */
  function PickRow(draws: seq<int>, col: int, k: nat): (row: int)
    decreases |draws| - k
  {
    if k >= |draws| then col
    else if draws[k] != col then draws[k]
    else PickRow(draws, col, k + 1)
  }

  /** When some draw from `k` on differs from `col`, the row picked is one of them. */
  lemma {:induction false} PickRowFits(draws: seq<int>, col: int, k: nat)
    requires exists m :: k <= m < |draws| && draws[m] != col
    decreases |draws| - k
    ensures var row := PickRow(draws, col, k);
      row != col && exists m :: k <= m < |draws| && draws[m] == row
  {
    if draws[k] == col {
      assert exists m :: k + 1 <= m < |draws| && draws[m] != col by {
        var m :| k <= m < |draws| && draws[m] != col;
        assert m != k;
      }
      PickRowFits(draws, col, k + 1);
    }
  }

  /**
   The retry loop compares the drawn row with the column index, not with the
   queen's row, so the random neighbour can be the state itself.
   */
  lemma {:induction false} RandomNeighborCanBeSelf(q: seq<int>, col: nat)
    requires col < |q| && 1 <= q[col] <= |q| && q[col] != col
    ensures var draws := [q[col]];
      && (forall k :: 0 <= k < |draws| ==> 1 <= draws[k] <= |q|)
      && (exists k :: 0 <= k < |draws| && draws[k] != col)
      && q[col := PickRow(draws, col, 0)] == q
  {
    var draws := [q[col]];
    assert draws[0] != col;
    PickRowIsFirst(draws, col, 0, 0);
  }

  // ---------------------------------------------------------------------------
  // States
  // ---------------------------------------------------------------------------

  /** Two lists of states whose boards are `a` and `b` joined have the boards of `a + b`. */
  lemma BoardsAppend(ns: seq<NQueensState>, cs: seq<NQueensState>, a: seq<seq<int>>, b: seq<seq<int>>)
    requires |ns| == |a| && |cs| == |b|
    requires forall k :: 0 <= k < |ns| ==> ns[k].queens == a[k]
    requires forall k :: 0 <= k < |cs| ==> cs[k].queens == b[k]
    ensures forall k :: 0 <= k < |ns + cs| ==> (ns + cs)[k].queens == (a + b)[k]
  {
  }

  /**
   `NQueensState(queens, N)`: a copy of `queens`, or `1 .. N` when `queens`
   is empty. `queens` never changes afterwards (a neighbour is built from an
   updated copy); `numConflicts` caches `conflicts()`.
   */
  class NQueensState {
    const N: int
    const queens: seq<int>
    var numConflicts: Option<nat>

    ghost predicate Valid()
      reads this
    {
      && |queens| == (if N < 0 then 0 else N)
      && (numConflicts.Some? ==> numConflicts.value == ConflictCount(queens, true))
    }

    constructor (init: seq<int>, n: int)
      ensures N == if init != [] then |init| else n
      ensures queens == if init != [] then init else Range(1, n + 1)
      ensures numConflicts == None && Valid()
    {
      if init != [] {
        N := |init|;
        queens := init;
      } else {
        N := n;
        queens := Range(1, n + 1);
      }
      numConflicts := None;
    }

    /** `__eq__`: the identity test, then None, then the boards. */
    predicate Equals(other: Option<NQueensState>)
    {
      if other.Some? && other.value == this then true
      else if other.None? then false
      else queens == other.value.queens
    }

    /** `__eq__` is equality of the boards, and never holds against `None`. */
    lemma EqualsIsBoardEquality(t: NQueensState)
      ensures !Equals(None)
      ensures Equals(Some(t)) <==> queens == t.queens
    {
    }

    /** `conflicts()`: computed on the first call, read from the cache afterwards. */
    method Conflicts() returns (c: nat)
      requires Valid()
      modifies this`numConflicts
      ensures Valid() && c == ConflictCount(queens, true) && numConflicts == Some(c)
      ensures old(numConflicts).Some? ==> numConflicts == old(numConflicts)
    {
      if numConflicts.None? {
        numConflicts := Some(ConflictCount(queens, true));
      }
      c := numConflicts.value;
    }

    /** `__ge__`: the identity test, then None, then the conflict counts. */
    method GreaterOrEqual(other: Option<NQueensState>) returns (b: bool)
      requires Valid() && (other.Some? ==> other.value.Valid())
      modifies this, if other.Some? then {other.value} else {}
      ensures Valid() && (other.Some? ==> other.value.Valid())
      ensures b <==> other.Some? && ConflictCount(queens, true) >= ConflictCount(other.value.queens, true)
      ensures other.Some? && other.value != this ==> numConflicts.Some? && other.value.numConflicts.Some?
      ensures other.None? || other.value == this ==> numConflicts == old(numConflicts)
    {
      if other.Some? && other.value == this {
        return true;
      }
      if other.None? {
        return false;
      }
      var mine := Conflicts();
      var theirs := other.value.Conflicts();
      b := mine >= theirs;
    }

    /** `neighbors()`: for each column and each other row, a fresh copy with that row. */
    method Neighbors() returns (ns: seq<NQueensState>)
      requires Valid()
      ensures |ns| == |RowMoves(queens, |queens|)|
      ensures forall k :: 0 <= k < |ns| ==>
        fresh(ns[k]) && ns[k].Valid() && ns[k].numConflicts == None
        && ns[k].queens == RowMoves(queens, |queens|)[k]
    {
      ns := [];
      var col := 0;
      while col < N
        invariant 0 <= col <= |queens|
        invariant |ns| == |RowMoves(queens, col)|
        invariant forall k :: 0 <= k < |ns| ==> fresh(ns[k]) && ns[k].Valid() && ns[k].numConflicts == None
        invariant forall k :: 0 <= k < |ns| ==> ns[k].queens == RowMoves(queens, col)[k]
      {
        var cs := ColumnNeighbors(col);
        BoardsAppend(ns, cs, RowMoves(queens, col), ColumnMoves(queens, col, |queens| + 1));
        assert RowMoves(queens, col + 1) == RowMoves(queens, col) + ColumnMoves(queens, col, |queens| + 1);
        ns := ns + cs;
        col := col + 1;
      }
    }

    /** The inner loop of `neighbors()`: the copies for column `col`, row by row. */
    method ColumnNeighbors(col: nat) returns (cs: seq<NQueensState>)
      requires Valid() && col < |queens|
      ensures |cs| == |ColumnMoves(queens, col, |queens| + 1)|
      ensures forall k :: 0 <= k < |cs| ==>
        fresh(cs[k]) && cs[k].Valid() && cs[k].numConflicts == None
        && cs[k].queens == ColumnMoves(queens, col, |queens| + 1)[k]
    {
      cs := [];
      var row := 1;
      while row < N + 1
        invariant 1 <= row <= |queens| + 1
        invariant |cs| == |ColumnMoves(queens, col, row)|
        invariant forall k :: 0 <= k < |cs| ==>
          fresh(cs[k]) && cs[k].Valid() && cs[k].numConflicts == None
          && cs[k].queens == ColumnMoves(queens, col, row)[k]
      {
        if queens[col] != row {
          var neighbor := new NQueensState(queens[col := row], 8);
          cs := cs + [neighbor];
        }
        row := row + 1;
      }
    }

    /**
     `best_neighbor()`: scans the neighbours from the seed N * (N - 1) // 2 and
     keeps each one strictly below the running minimum.
     */
    method BestNeighbor() returns (best: Option<NQueensState>)
      requires Valid()
      ensures var r := BestScan(RowMoves(queens, |queens|), |RowMoves(queens, |queens|)|, true, Pairs(N));
        && (best.None? <==> r.1.None?)
        && (best.Some? ==> fresh(best.value) && best.value.Valid() && best.value.queens == r.1.value)
    {
      var ns := Neighbors();
      ghost var moves := RowMoves(queens, |queens|);
      var minConflicts := N * (N - 1) / 2;
      best := None;
      ghost var kept := 0;
      var k := 0;
      while k < |ns|
        invariant 0 <= k <= |ns|
        invariant forall l :: 0 <= l < |ns| ==> fresh(ns[l]) && ns[l].Valid() && ns[l].queens == moves[l]
        invariant var r := BestScan(moves, k, true, Pairs(N));
          && minConflicts == r.0 && (best.None? <==> r.1.None?)
          && (best.Some? ==> kept < k && best.value == ns[kept] && best.value.queens == r.1.value)
      {
        var c := ns[k].Conflicts();
        if c < minConflicts {
          minConflicts, best := c, Some(ns[k]);
          kept := k;
        }
        k := k + 1;
      }
    }

    /**
     `random_neighbor()`: column `col` and the successive row draws are given;
     the first draw other than `col` is written into the copy.
     */
    method RandomNeighbor(col: int, draws: seq<int>) returns (neighbor: NQueensState)
      requires Valid() && 0 <= col <= N - 1
      requires forall k :: 0 <= k < |draws| ==> 1 <= draws[k] <= N
      requires exists k :: 0 <= k < |draws| && draws[k] != col
      ensures fresh(neighbor) && neighbor.Valid() && neighbor.numConflicts == None
      ensures neighbor.queens == queens[col := PickRow(draws, col, 0)]
    {
      var k := 0;
      var row := draws[0];
      while row == col
        invariant 0 <= k < |draws| && row == draws[k]
        invariant forall l :: 0 <= l <= k ==> draws[l] == col || l == k
        invariant forall l :: 0 <= l < k ==> draws[l] == col
        invariant exists m :: k <= m < |draws| && draws[m] != col
        decreases |draws| - k
      {
        k := k + 1;
        row := draws[k];
      }
      PickRowIsFirst(draws, col, 0, k);
      neighbor := new NQueensState(queens[col := row], 8);
    }

    /** `random_state(N)`: the N row draws are given; an empty board falls back to eight queens. */
    static method RandomState(n: int, draws: seq<int>) returns (s: NQueensState)
      requires |draws| == (if n < 0 then 0 else n)
      requires forall k :: 0 <= k < |draws| ==> 1 <= draws[k] <= n
      ensures fresh(s) && s.Valid() && s.numConflicts == None
      ensures s.N == (if n <= 0 then 8 else n)
      ensures s.queens == if n <= 0 then Range(1, 9) else draws
    {
      s := new NQueensState(draws, 8);
    }
  }

  /** The row picked is the first draw from `k` on other than `col`. */
  lemma {:induction false} PickRowIsFirst(draws: seq<int>, col: int, k: nat, m: nat)
    requires k <= m < |draws| && draws[m] != col
    requires forall l :: k <= l < m ==> draws[l] == col
    decreases m - k
    ensures PickRow(draws, col, k) == draws[m]
  {
    if k < m {
      PickRowIsFirst(draws, col, k + 1, m);
    }
  }


  /** `NQueensStatePermutation`: one queen per row, diagonal conflicts only, swap neighbours. */
  class NQueensStatePermutation {
    const N: int
    const queens: seq<int>
    var numConflicts: Option<nat>

    ghost predicate Valid()
      reads this
    {
      && |queens| == (if N < 0 then 0 else N)
      && (numConflicts.Some? ==> numConflicts.value == ConflictCount(queens, false))
    }

    constructor (init: seq<int>, n: int)
      ensures N == if init != [] then |init| else n
      ensures queens == if init != [] then init else Range(1, n + 1)
      ensures numConflicts == None && Valid()
    {
      if init != [] {
        N := |init|;
        queens := init;
      } else {
        N := n;
        queens := Range(1, n + 1);
      }
      numConflicts := None;
    }

    /** `__eq__`: the identity test, then None, then the boards. */
    predicate Equals(other: Option<NQueensStatePermutation>)
    {
      if other.Some? && other.value == this then true
      else if other.None? then false
      else queens == other.value.queens
    }

    /** `__eq__` is equality of the boards, and never holds against `None`. */
    lemma EqualsIsBoardEquality(t: NQueensStatePermutation)
      ensures !Equals(None)
      ensures Equals(Some(t)) <==> queens == t.queens
    {
    }

    /** `conflicts()`: diagonal pairs, computed once and cached. */
    method Conflicts() returns (c: nat)
      requires Valid()
      modifies this`numConflicts
      ensures Valid() && c == ConflictCount(queens, false) && numConflicts == Some(c)
      ensures old(numConflicts).Some? ==> numConflicts == old(numConflicts)
    {
      if numConflicts.None? {
        numConflicts := Some(ConflictCount(queens, false));
      }
      c := numConflicts.value;
    }

    method GreaterOrEqual(other: Option<NQueensStatePermutation>) returns (b: bool)
      requires Valid() && (other.Some? ==> other.value.Valid())
      modifies this, if other.Some? then {other.value} else {}
      ensures Valid() && (other.Some? ==> other.value.Valid())
      ensures b <==> other.Some? && ConflictCount(queens, false) >= ConflictCount(other.value.queens, false)
      ensures other.Some? && other.value != this ==> numConflicts.Some? && other.value.numConflicts.Some?
      ensures other.None? || other.value == this ==> numConflicts == old(numConflicts)
    {
      if other.Some? && other.value == this {
        return true;
      }
      if other.None? {
        return false;
      }
      var mine := Conflicts();
      var theirs := other.value.Conflicts();
      b := mine >= theirs;
    }

    /** `neighbors()`: for each pair `i < j`, a fresh copy with the two columns swapped. */
    method Neighbors() returns (ns: seq<NQueensStatePermutation>)
      requires Valid()
      ensures |ns| == |AllSwaps(queens)|
      ensures forall k :: 0 <= k < |ns| ==>
        fresh(ns[k]) && ns[k].Valid() && ns[k].numConflicts == None
        && ns[k].queens == AllSwaps(queens)[k]
    {
      ns := [];
      var i := 0;
      while i < N - 1
        invariant 0 <= i && (|queens| > 0 ==> i <= |queens| - 1)
        invariant |queens| == 0 ==> i == 0
        invariant |ns| == |SwapMoves(queens, i)|
        invariant forall k :: 0 <= k < |ns| ==> fresh(ns[k]) && ns[k].Valid() && ns[k].numConflicts == None
        invariant forall k :: 0 <= k < |ns| ==> ns[k].queens == SwapMoves(queens, i)[k]
      {
        var cs := SwapNeighborsOf(i);
        assert SwapMoves(queens, i + 1) == SwapMoves(queens, i) + SwapRow(queens, i, |queens|);
        ns := ns + cs;
        i := i + 1;
      }
    }

    /** The inner loop of `neighbors()`: the copies swapping column `i` with each later one. */
    method SwapNeighborsOf(i: nat) returns (cs: seq<NQueensStatePermutation>)
      requires Valid() && i < |queens|
      ensures |cs| == |SwapRow(queens, i, |queens|)|
      ensures forall k :: 0 <= k < |cs| ==>
        fresh(cs[k]) && cs[k].Valid() && cs[k].numConflicts == None
        && cs[k].queens == SwapRow(queens, i, |queens|)[k]
    {
      cs := [];
      var j := i + 1;
      while j < N
        invariant i + 1 <= j <= |queens|
        invariant |cs| == |SwapRow(queens, i, j)|
        invariant forall k :: 0 <= k < |cs| ==>
          fresh(cs[k]) && cs[k].Valid() && cs[k].numConflicts == None
          && cs[k].queens == SwapRow(queens, i, j)[k]
      {
        var neighbor := new NQueensStatePermutation(Swap(queens, i, j), 8);
        SwapFacts(queens, i, j);
        cs := cs + [neighbor];
        j := j + 1;
      }
    }

    /** `best_neighbor()`, as in the first formulation, over the swap neighbours. */
    method BestNeighbor() returns (best: Option<NQueensStatePermutation>)
      requires Valid()
      ensures var r := BestScan(AllSwaps(queens), |AllSwaps(queens)|, false, Pairs(N));
        && (best.None? <==> r.1.None?)
        && (best.Some? ==> fresh(best.value) && best.value.Valid() && best.value.queens == r.1.value)
    {
      var ns := Neighbors();
      ghost var moves := AllSwaps(queens);
      var minConflicts := N * (N - 1) / 2;
      best := None;
      ghost var kept := 0;
      var k := 0;
      while k < |ns|
        invariant 0 <= k <= |ns|
        invariant forall l :: 0 <= l < |ns| ==> fresh(ns[l]) && ns[l].Valid() && ns[l].queens == moves[l]
        invariant var r := BestScan(moves, k, false, Pairs(N));
          && minConflicts == r.0 && (best.None? <==> r.1.None?)
          && (best.Some? ==> kept < k && best.value == ns[kept] && best.value.queens == r.1.value)
      {
        var c := ns[k].Conflicts();
        if c < minConflicts {
          minConflicts, best := c, Some(ns[k]);
          kept := k;
        }
        k := k + 1;
      }
    }

    /** `random_neighbor()`: the draws `i < j` are given; the copy has them swapped. */
    method RandomNeighbor(i: int, j: int) returns (neighbor: NQueensStatePermutation)
      requires Valid() && 0 <= i <= N - 2 && i + 1 <= j <= N - 1
      ensures fresh(neighbor) && neighbor.Valid() && neighbor.numConflicts == None
      ensures neighbor.queens == Swap(queens, i, j)
      ensures multiset(neighbor.queens) == multiset(queens)
    {
      SwapFacts(queens, i, j);
      neighbor := new NQueensStatePermutation(Swap(queens, i, j), 8);
    }

    /** `random_state(N)`: the shuffle of `1 .. N` is given; an empty board falls back to eight queens. */
    static method RandomState(n: int, shuffled: seq<int>) returns (s: NQueensStatePermutation)
      requires multiset(shuffled) == multiset(Range(1, n + 1))
      ensures fresh(s) && s.Valid() && s.numConflicts == None
      ensures s.N == (if n <= 0 then 8 else n)
      ensures s.queens == if n <= 0 then Range(1, 9) else shuffled
    {
      assert |shuffled| == |multiset(shuffled)| == |Range(1, n + 1)|;
      s := new NQueensStatePermutation(shuffled, 8);
    }
  }

  // ---------------------------------------------------------------------------
  // History summaries
  // ---------------------------------------------------------------------------

  /** The states `summarize_history` keeps: each one whose board differs from the last kept. */
  function Summary(h: seq<NQueensState>): (r: seq<NQueensState>)
    requires |h| > 0
    ensures 0 < |r| <= |h| && r[0] == h[0] && r[|r| - 1].queens == h[|h| - 1].queens
  {
    if |h| == 1 then [h[0]]
    else
      var r := Summary(h[..|h| - 1]);
      if h[|h| - 1].queens != r[|r| - 1].queens then r + [h[|h| - 1]] else r
  }

  ghost predicate NoRepeats(h: seq<NQueensState>)
  {
    forall k :: 0 < k < |h| ==> h[k].queens != h[k - 1].queens
  }

  /** Position `i` of the history holds a board different from the one before it. */
  predicate Changed(h: seq<NQueensState>, i: nat)
    requires 0 < i < |h|
  {
    h[i].queens != h[i - 1].queens
  }

  /** `summarize_history(history)`: appends each state whose board differs from the last kept. */
  method SummarizeHistory(history: seq<NQueensState>) returns (reduced: seq<NQueensState>)
    requires |history| > 0
    ensures reduced == Summary(history)
  {
    reduced := [history[0]];
    var i := 1;
    while i < |history|
      invariant 1 <= i <= |history|
      invariant reduced == Summary(history[..i])
    {
      assert history[..i + 1][..i] == history[..i];
      if history[i].queens != reduced[|reduced| - 1].queens {
        reduced := reduced + [history[i]];
      }
      i := i + 1;
    }
    assert history[..|history|] == history;
  }

  /**
   The summary keeps the first state, keeps states in their order (a
   subsequence: `idx` gives the positions kept), and no two neighbours in it
   share a board.
   */
  lemma {:induction false} SummaryIsSubsequence(h: seq<NQueensState>) returns (idx: seq<nat>)
    requires |h| > 0
    ensures |idx| == |Summary(h)| && idx[0] == 0
    ensures forall k :: 0 <= k < |idx| ==> idx[k] < |h| && Summary(h)[k] == h[idx[k]]
    ensures forall k :: 0 < k < |idx| ==> idx[k - 1] < idx[k]
    ensures NoRepeats(Summary(h))
  {
    if |h| == 1 {
      idx := [0];
    } else {
      var front := h[..|h| - 1];
      idx := SummaryIsSubsequence(front);
      if h[|h| - 1].queens != Summary(front)[|Summary(front)| - 1].queens {
        idx := idx + [|h| - 1];
      }
    }
  }

  /** A state whose board differs from the one before it survives in the summary. */
  lemma {:induction false} SummaryKeepsChanges(h: seq<NQueensState>, i: nat)
    requires 0 < i < |h| && Changed(h, i)
    ensures h[i] in Summary(h)
  {
    var front := h[..|h| - 1];
    var r := Summary(front);
    if i == |h| - 1 {
      assert r[|r| - 1].queens == h[i - 1].queens;
      assert Summary(h) == r + [h[i]];
    } else {
      assert Changed(front, i) by { assert front[i] == h[i] && front[i - 1] == h[i - 1]; }
      SummaryKeepsChanges(front, i);
      assert front[i] == h[i];
      assert r <= Summary(h);
    }
  }

  /**
   Conversely, every state the summary keeps after the first is a change: it
   comes from a position whose board differs from the one before it.
   */
  lemma {:induction false} SummaryKeepsOnlyChanges(h: seq<NQueensState>, k: nat)
    requires |h| > 0 && 0 < k < |Summary(h)|
    ensures exists i :: 0 < i < |h| && Summary(h)[k] == h[i] && Changed(h, i)
  {
    var front := h[..|h| - 1];
    var r := Summary(front);
    assert |h| > 1;
    if k < |r| {
      SummaryKeepsOnlyChanges(front, k);
      var i :| 0 < i < |front| && r[k] == front[i] && Changed(front, i);
      assert front[i] == h[i] && front[i - 1] == h[i - 1];
      assert Summary(h)[k] == h[i] && Changed(h, i);
    } else {
      var i := |h| - 1;
      assert r[|r| - 1].queens == h[i - 1].queens;
      assert Summary(h) == r + [h[i]];
      assert Summary(h)[k] == h[i] && Changed(h, i);
    }
  }

  /** A history without repeated neighbours is its own summary. */
  lemma {:induction false} SummaryOfNoRepeats(h: seq<NQueensState>)
    requires |h| > 0 && NoRepeats(h)
    ensures Summary(h) == h
  {
    if |h| > 1 {
      var front := h[..|h| - 1];
      assert NoRepeats(front) by {
        forall k | 0 < k < |front|
          ensures front[k].queens != front[k - 1].queens
        {
          assert front[k] == h[k] && front[k - 1] == h[k - 1];
        }
      }
      SummaryOfNoRepeats(front);
      assert h == front + [h[|h| - 1]];
    }
  }

  /** Summarising twice gives the same as summarising once. */
  lemma SummaryIdempotent(h: seq<NQueensState>)
    requires |h| > 0
    ensures Summary(Summary(h)) == Summary(h)
  {
    var _ := SummaryIsSubsequence(h);
    SummaryOfNoRepeats(Summary(h));
  }
}
