/**
 The local-search engines of Search/local_search.py (and its older copy
 Search/imgs/local_search.py), run on the row form of N-Queens. Hill
 climbing moves to the best neighbour while that strictly lowers the
 conflicts; simulated annealing walks through random neighbours, taking
 every move that is not worse and, on the acceptance test, some that are.
 */
module LocalSearch {
  import opened Wrappers
  import opened NQueens

  // ---------------------------------------------------------------------------
  // Hill climbing
  // ---------------------------------------------------------------------------

  /** The board `best_neighbor()` returns from three queens on. */
  function BestBoard(q: seq<int>): (b: seq<int>)
    requires |q| >= 3
    ensures |b| == |q|
  {
    var ms := RowMoves(q, |q|);
    BestNeighborExists(q);
    BestScanFacts(ms, |ms|, true, Pairs(|q|));
    RowMovesLength(q, |q|);
    BestScan(ms, |ms|, true, Pairs(|q|)).1.value
  }

  /**
   From three queens on, `best_neighbor()` returns a board that moves one
   queen within its column, has fewer than N * (N - 1) // 2 conflicts, and
   has no more conflicts than any other such move.
   */
  lemma BestBoardIsBest(q: seq<int>)
    requires |q| >= 3
    ensures var b := BestBoard(q);
      && (exists col :: RowMove(q, b, col))
      && ConflictCount(b, true) < Pairs(|q|)
      && forall m, col :: RowMove(q, m, col) ==> ConflictCount(m, true) >= ConflictCount(b, true)
  {
    var ms := RowMoves(q, |q|);
    BestNeighborExists(q);
    BestScanFacts(ms, |ms|, true, Pairs(|q|));
    RowMovesMembers(q, |q|);
    var b := BestBoard(q);
    var i :| 0 <= i < |ms| && ms[i] == b;
    assert b in ms;
    forall m, col | RowMove(q, m, col)
      ensures ConflictCount(m, true) >= ConflictCount(b, true)
    {
      assert m in ms;
      var k :| 0 <= k < |ms| && ms[k] == m;
    }
  }

  /**
   The number of moves hill climbing makes from `q`: none when the best
   neighbour is not strictly better, and otherwise one more than from that
   neighbour. Each move lowers the conflicts, so there are at most
   `conflicts(q)` of them.
   */
  function ClimbSteps(q: seq<int>): (n: nat)
    requires |q| >= 3
    decreases ConflictCount(q, true)
    ensures n <= ConflictCount(q, true)
  {
    var b := BestBoard(q);
    if ConflictCount(b, true) >= ConflictCount(q, true) then 0 else 1 + ClimbSteps(b)
  }

  /** The board hill climbing is on `j` moves after `q`. */
  function ClimbBoard(q: seq<int>, j: nat): (b: seq<int>)
    requires |q| >= 3
    decreases j
    ensures |b| == |q|
  {
    if j == 0 then q
    else
      var c := BestBoard(q);
      if ConflictCount(c, true) >= ConflictCount(q, true) then q else ClimbBoard(c, j - 1)
  }

  /**
   Board `j` of the climb is its last exactly when its best neighbour is not
   better; before that, the next board is that neighbour.
   */
  lemma {:induction false} ClimbAt(q: seq<int>, j: nat)
    requires |q| >= 3 && j <= ClimbSteps(q)
    decreases j
    ensures var b := ClimbBoard(q, j);
      && (j == ClimbSteps(q) <==> ConflictCount(BestBoard(b), true) >= ConflictCount(b, true))
      && (j < ClimbSteps(q) ==> ClimbBoard(q, j + 1) == BestBoard(b))
  {
    if j > 0 {
      ClimbAt(BestBoard(q), j - 1);
    }
  }

  /** Every move of the climb goes to the best neighbour, whose conflicts are strictly fewer. */
  lemma ClimbMovesToBest(q: seq<int>)
    requires |q| >= 3
    ensures forall k :: 0 <= k < ClimbSteps(q) ==>
      && ClimbBoard(q, k + 1) == BestBoard(ClimbBoard(q, k))
      && ConflictCount(ClimbBoard(q, k + 1), true) < ConflictCount(ClimbBoard(q, k), true)
  {
    forall k | 0 <= k < ClimbSteps(q)
      ensures ClimbBoard(q, k + 1) == BestBoard(ClimbBoard(q, k))
      ensures ConflictCount(ClimbBoard(q, k + 1), true) < ConflictCount(ClimbBoard(q, k), true)
    {
      ClimbAt(q, k);
    }
  }

  /** Conflicts fall strictly along the whole climb, not only from one board to the next. */
  lemma {:induction false} ClimbStrictlyDecreasing(q: seq<int>, k: nat, l: nat)
    requires |q| >= 3
    requires k < l <= ClimbSteps(q)
    decreases l - k
    ensures ConflictCount(ClimbBoard(q, l), true) < ConflictCount(ClimbBoard(q, k), true)
  {
    ClimbAt(q, k);
    if k + 1 < l {
      ClimbStrictlyDecreasing(q, k + 1, l);
    }
  }

  /** Where the climb stops, no move of one queen within its column has fewer conflicts. */
  lemma ClimbEndsAtLocalOptimum(q: seq<int>)
    requires |q| >= 3
    ensures var last := ClimbBoard(q, ClimbSteps(q));
      forall m, col :: RowMove(last, m, col) ==> ConflictCount(m, true) >= ConflictCount(last, true)
  {
    ClimbAt(q, ClimbSteps(q));
    BestBoardIsBest(ClimbBoard(q, ClimbSteps(q)));
  }

  /**
   One round of the loop of `search()` on the board the climb from `q` is on
   after `i` moves: the best neighbour, and whether it fails to be better.
   */
  method Advance(current: NQueensState, ghost q: seq<int>, ghost i: nat) returns (stop: bool, next: NQueensState)
    requires |q| >= 3 && i <= ClimbSteps(q) && current.Valid() && current.queens == ClimbBoard(q, i)
    modifies current
    ensures current.Valid() && next.Valid() && fresh(next)
    ensures stop <==> i == ClimbSteps(q)
    ensures !stop ==> next.queens == ClimbBoard(q, i + 1)
  {
    var neighbor := current.BestNeighbor();
    BestNeighborExists(current.queens);
    next := neighbor.value;
    ClimbAt(q, i);
    assert next.queens == BestBoard(current.queens);
    stop := next.GreaterOrEqual(Some(current));
  }

  /** `HillClimbing`: keeps every state it visits, over all searches, in `history`. */
  class HillClimbing {
    var history: seq<NQueensState>

    constructor ()
      ensures history == []
    {
      history := [];
    }

    /**
     `search(state)`: appends the current state, asks for the best neighbour,
     and returns the current state once that neighbour is not better.
     */
    method Search(state: NQueensState) returns (result: NQueensState)
      requires state.Valid() && state.N >= 3
      modifies this`history, state
      ensures var n := ClimbSteps(state.queens);
        && |history| == |old(history)| + n + 1
        && history[..|old(history)|] == old(history)
        && history[|old(history)|] == state
        && (forall k :: 0 <= k <= n ==> history[|old(history)| + k].queens == ClimbBoard(state.queens, k))
      ensures result == history[|history| - 1] && result.Valid()
    {
      ghost var q := state.queens;
      ghost var n := ClimbSteps(q);
      ghost var n0 := |history|;
      ghost var i := 0;
      var current := state;
      while true
        invariant current.Valid() && (current == state || fresh(current))
        invariant i <= n && ClimbBoard(q, i) == current.queens
        invariant |history| == n0 + i && history[..n0] == old(history)
        invariant forall k :: 0 <= k < i ==> history[n0 + k].queens == ClimbBoard(q, k)
        invariant i > 0 ==> history[n0] == state
        invariant i == 0 ==> current == state
        decreases n - i
      {
        history := history + [current];
        var stop, next := Advance(current, q, i);
        if stop {
          return current;
        }
        current := next;
        i := i + 1;
      }
    }

    /** `__call__(state)`: runs the search and drops its result. */
    method Call(state: NQueensState)
      requires state.Valid() && state.N >= 3
      modifies this`history, state
      ensures var n := ClimbSteps(state.queens);
        && |history| == |old(history)| + n + 1
        && history[..|old(history)|] == old(history)
        && (forall k :: 0 <= k <= n ==> history[|old(history)| + k].queens == ClimbBoard(state.queens, k))
    {
      var _ := Search(state);
    }
  }

  // ---------------------------------------------------------------------------
  // Simulated annealing
  // ---------------------------------------------------------------------------

  /** The random choices of one `random_neighbor()` call: the column and the row draws. */
  datatype Draw = Draw(col: int, rows: seq<int>)

  /** Draws `randint` could produce on `n` queens, with one row that ends the retry loop. */
  predicate DrawFits(d: Draw, n: int)
  {
    && 0 <= d.col <= n - 1
    && (forall k :: 0 <= k < |d.rows| ==> 1 <= d.rows[k] <= n)
    && exists k :: 0 <= k < |d.rows| && d.rows[k] != d.col
  }

  /** The board of the random neighbour drawn by `d`. */
  function Move(q: seq<int>, d: Draw): (b: seq<int>)
    requires 0 <= d.col < |q|
    ensures |b| == |q|
  {
    q[d.col := PickRow(d.rows, d.col, 0)]
  }

  /**
   The random neighbour moves the queen of column `col` to a row from 1 to
   N other than `col`, and leaves every other column as it was.
   */
  lemma MoveChangesOneColumn(q: seq<int>, d: Draw)
    requires DrawFits(d, |q|)
    ensures var b := Move(q, d);
      && b[d.col] != d.col && 1 <= b[d.col] <= |q|
      && forall k :: 0 <= k < |q| && k != d.col ==> b[k] == q[k]
  {
    PickRowFits(d.rows, d.col, 0);
    var k :| 0 <= k < |d.rows| && d.rows[k] == PickRow(d.rows, d.col, 0);
  }

  /** The step of annealing from `q`: the drawn neighbour if it is not worse or it passes the test. */
  function Next(q: seq<int>, d: Draw, accept: bool): (b: seq<int>)
    requires 0 <= d.col < |q|
    ensures |b| == |q|
  {
    var m := Move(q, d);
    if ConflictCount(q, true) - ConflictCount(m, true) >= 0 then m
    else if accept then m
    else q
  }

  /**
   A step of annealing from board `b` on draw `d` lands on `c`: either the
   drawn neighbour or `b` itself, and the neighbour whenever it is not worse.
   */
  ghost predicate AnnealStep(b: seq<int>, d: Draw, c: seq<int>)
  {
    DrawFits(d, |b|)
    && var m := Move(b, d);
      && (ConflictCount(m, true) <= ConflictCount(b, true) ==> c == m)
      && (c == m || c == b)
  }

  /** Every draw fits boards of `n` queens. */
  ghost predicate DrawsFit(draws: seq<Draw>, n: int)
  {
    forall k :: 0 <= k < |draws| ==> DrawFits(draws[k], n)
  }

  /**
   The number of steps simulated annealing takes from board `q` at cooling
   step `i` of `steps`: none on a board without conflicts or once the steps
   are spent, and otherwise one more than from the step that draw `i` and
   acceptance outcome `i` give.
   */
  function AnnealSteps(q: seq<int>, i: nat, steps: nat, draws: seq<Draw>, accepts: seq<bool>): (n: nat)
    requires i <= steps <= |draws| && steps <= |accepts| && DrawsFit(draws, |q|)
    decreases steps - i
    ensures i + n <= steps
  {
    if i == steps || ConflictCount(q, true) == 0 then 0
    else 1 + AnnealSteps(Next(q, draws[i], accepts[i]), i + 1, steps, draws, accepts)
  }

  /** The board simulated annealing is on `j` steps after board `q` at cooling step `i`. */
  function AnnealBoard(q: seq<int>, i: nat, steps: nat, draws: seq<Draw>, accepts: seq<bool>, j: nat): (b: seq<int>)
    requires i <= steps <= |draws| && steps <= |accepts| && DrawsFit(draws, |q|)
    decreases j
    ensures |b| == |q|
  {
    if j == 0 || i == steps || ConflictCount(q, true) == 0 then q
    else AnnealBoard(Next(q, draws[i], accepts[i]), i + 1, steps, draws, accepts, j - 1)
  }

  /**
   Board `j` of the run from step `i` is its last exactly when the steps are
   spent there or it has no conflicts; before that, the next board is the
   step from it on draw `i + j`.
   */
  lemma {:induction false} AnnealAt(q: seq<int>, i: nat, steps: nat, draws: seq<Draw>, accepts: seq<bool>, j: nat)
    requires i <= steps <= |draws| && steps <= |accepts| && DrawsFit(draws, |q|)
    requires j <= AnnealSteps(q, i, steps, draws, accepts)
    decreases j
    ensures var b := AnnealBoard(q, i, steps, draws, accepts, j);
      && (j == AnnealSteps(q, i, steps, draws, accepts) <==> i + j == steps || ConflictCount(b, true) == 0)
      && (j < AnnealSteps(q, i, steps, draws, accepts) ==>
            AnnealBoard(q, i, steps, draws, accepts, j + 1) == Next(b, draws[i + j], accepts[i + j]))
  {
    if j > 0 {
      AnnealAt(Next(q, draws[i], accepts[i]), i + 1, steps, draws, accepts, j - 1);
    }
  }

  /**
   What the run promises: it ends on a board without conflicts or when the
   steps are spent; every board before the last has conflicts; and each step
   moves to the drawn neighbour, always when that neighbour is not worse.
   */
  lemma AnnealRun(q: seq<int>, steps: nat, draws: seq<Draw>, accepts: seq<bool>)
    requires steps <= |draws| && steps <= |accepts| && DrawsFit(draws, |q|)
    ensures var n := AnnealSteps(q, 0, steps, draws, accepts);
      && (ConflictCount(AnnealBoard(q, 0, steps, draws, accepts, n), true) == 0 || n == steps)
      && forall k :: 0 <= k < n ==>
           && ConflictCount(AnnealBoard(q, 0, steps, draws, accepts, k), true) > 0
           && AnnealStep(AnnealBoard(q, 0, steps, draws, accepts, k), draws[k], AnnealBoard(q, 0, steps, draws, accepts, k + 1))
  {
    var n := AnnealSteps(q, 0, steps, draws, accepts);
    AnnealAt(q, 0, steps, draws, accepts, n);
    forall k | 0 <= k < n
      ensures ConflictCount(AnnealBoard(q, 0, steps, draws, accepts, k), true) > 0
      ensures AnnealStep(AnnealBoard(q, 0, steps, draws, accepts, k), draws[k], AnnealBoard(q, 0, steps, draws, accepts, k + 1))
    {
      AnnealAt(q, 0, steps, draws, accepts, k);
      MoveChangesOneColumn(AnnealBoard(q, 0, steps, draws, accepts, k), draws[k]);
    }
  }

  /** One cooling step of `search()`: the neighbour drawn by `d`, kept if not worse or if `accept`. */
  method AnnealMove(current: NQueensState, d: Draw, accept: bool) returns (next: NQueensState)
    requires current.Valid() && DrawFits(d, |current.queens|)
    modifies current
    ensures current.Valid() && next.Valid() && (next == current || fresh(next))
    ensures next.queens == Next(current.queens, d, accept)
  {
    var neighbor := current.RandomNeighbor(d.col, d.rows);
    var mine := current.Conflicts();
    var theirs := neighbor.Conflicts();
    var deltaE := (mine as int) - (theirs as int);
    next := current;
    if deltaE >= 0 {
      next := neighbor;
    } else if accept {
      next := neighbor;
    }
  }

  /**
   One round of the loop of `search()` on the board annealing is on after
   `i` steps, with `budget` coolings left: it stops without conflicts or when
   the budget is spent, and otherwise takes the next step of the run.
   */
  method AnnealAdvance(current: NQueensState, ghost q: seq<int>, steps: nat, draws: seq<Draw>, accepts: seq<bool>, i: nat, budget: nat)
    returns (stop: bool, next: NQueensState)
    requires steps <= |draws| && steps <= |accepts| && DrawsFit(draws, |q|)
    requires i <= AnnealSteps(q, 0, steps, draws, accepts) && budget == steps - i
    requires current.Valid() && current.queens == AnnealBoard(q, 0, steps, draws, accepts, i)
    modifies current
    ensures current.Valid() && next.Valid() && (next == current || fresh(next))
    ensures stop <==> i == AnnealSteps(q, 0, steps, draws, accepts)
    ensures !stop ==> next.queens == AnnealBoard(q, 0, steps, draws, accepts, i + 1)
  {
    AnnealAt(q, 0, steps, draws, accepts, i);
    if budget == 0 {
      return true, current;
    }
    var c := current.Conflicts();
    if c == 0 {
      return true, current;
    }
    stop := false;
    next := AnnealMove(current, draws[i], accepts[i]);
  }

  /** `SimulatedAnnealing`: `history` as for hill climbing, `budget` in place of the temperature `T`. */
  class SimulatedAnnealing {
    var history: seq<NQueensState>
    var budget: Option<nat>

    constructor ()
      ensures history == [] && budget == None
    {
      history := [];
      budget := None;
    }

    /**
     `search(state)`: appends the current state and returns it when the
     temperature is spent or it has no conflicts; otherwise draws a random
     neighbour, moves to it if it is not worse or passes the acceptance test,
     and cools by one step. `steps` stands for the number of coolings from
     `T0` below `tol`, `draws` for the random neighbour choices, `accepts`
     for the outcomes of `random.random() < math.exp(delta_E / T)`.
     */
    method Search(state: NQueensState, steps: nat, draws: seq<Draw>, accepts: seq<bool>) returns (result: NQueensState)
      requires state.Valid()
      requires steps <= |draws| && steps <= |accepts| && DrawsFit(draws, |state.queens|)
      modifies this`history, this`budget, state
      ensures var n := AnnealSteps(state.queens, 0, steps, draws, accepts);
        && |history| == |old(history)| + n + 1
        && history[..|old(history)|] == old(history)
        && history[|old(history)|] == state
        && (forall k :: 0 <= k <= n ==> history[|old(history)| + k].queens == AnnealBoard(state.queens, 0, steps, draws, accepts, k))
        && budget == Some(steps - n)
      ensures result == history[|history| - 1] && result.Valid()
    {
      ghost var q := state.queens;
      ghost var n := AnnealSteps(q, 0, steps, draws, accepts);
      ghost var n0 := |history|;
      budget := Some(steps);
      var i := 0;
      var current := state;
      while true
        invariant current.Valid() && (current == state || fresh(current))
        invariant i <= n && AnnealBoard(q, 0, steps, draws, accepts, i) == current.queens && budget == Some(steps - i)
        invariant |history| == n0 + i && history[..n0] == old(history)
        invariant forall k :: 0 <= k < i ==> history[n0 + k].queens == AnnealBoard(q, 0, steps, draws, accepts, k)
        invariant i > 0 ==> history[n0] == state
        invariant i == 0 ==> current == state
        decreases n - i
      {
        history := history + [current];
        var stop, next := AnnealAdvance(current, q, steps, draws, accepts, i, budget.value);
        if stop {
          return current;
        }
        current := next;
        budget := Some(budget.value - 1);
        i := i + 1;
      }
    }

    /** `__call__(state)`: runs the search and returns what it returns. */
    method Call(state: NQueensState, steps: nat, draws: seq<Draw>, accepts: seq<bool>) returns (result: NQueensState)
      requires state.Valid()
      requires steps <= |draws| && steps <= |accepts| && DrawsFit(draws, |state.queens|)
      modifies this`history, this`budget, state
      ensures var n := AnnealSteps(state.queens, 0, steps, draws, accepts);
        && |history| == |old(history)| + n + 1
        && history[..|old(history)|] == old(history)
        && (forall k :: 0 <= k <= n ==> history[|old(history)| + k].queens == AnnealBoard(state.queens, 0, steps, draws, accepts, k))
      ensures result == history[|history| - 1]
      ensures result.queens == AnnealBoard(state.queens, 0, steps, draws, accepts, AnnealSteps(state.queens, 0, steps, draws, accepts))
    {
      result := Search(state, steps, draws, accepts);
    }
  }
}
