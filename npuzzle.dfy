/**
 The sliding-tile puzzle state of Search/npuzzle.py: a tuple of tiles in
 row-major order, 0 standing for the blank, on a grid whose side is the
 integer square root of the number of tiles. Its successors slide the
 blank Left, Up, Right and Down, in that order, each at cost 1.
 */
module NPuzzle {
  import opened Wrappers
  import opened Sequences

  // ---------------------------------------------------------------------------
  // Integer arithmetic used for the grid geometry
  // ---------------------------------------------------------------------------

  lemma MulMonotone(x: nat, y: int, z: int)
    ensures y <= z ==> x * y <= x * z
  {
    if x > 0 {
      MulMonotone(x - 1, y, z);
      assert x * y == (x - 1) * y + y;
      assert x * z == (x - 1) * z + z;
    }
  }

  /** A multiple of a positive `gs` other than 0 is at least `gs` away from 0. */
  lemma MulAwayFromZero(gs: int, d: int)
    requires gs > 0
    ensures d >= 1 ==> gs * d >= gs
    ensures d <= -1 ==> gs * d <= -gs
  {
    MulMonotone(gs, 1, d);
    MulMonotone(gs, d, -1);
  }

  lemma SquareOrder(a: nat, b: nat)
    ensures a < b <==> a * a < b * b
  {
    if a < b {
      MulMonotone(a + 1, a + 1, b);
      MulMonotone(b, a + 1, b);
      assert (a + 1) * b == b * (a + 1);
      assert (a + 1) * (a + 1) == a * a + 2 * a + 1;
    } else {
      MulMonotone(b, b, a);
      MulMonotone(a, b, a);
      assert a * b == b * a;
    }
  }

  /** Euclidean division is determined by its quotient and remainder. */
  lemma DivModUnique(b: int, gs: int, q: int, r: int)
    requires gs > 0 && 0 <= r < gs && b == gs * q + r
    ensures b / gs == q && b % gs == r
  {
    var q', r' := b / gs, b % gs;
    assert gs * (q - q') == r' - r by {
      assert gs * q - gs * q' == gs * (q - q');
    }
    MulAwayFromZero(gs, q - q');
  }

  /** On a `gs` by `gs` board every cell not in the last column has a right-hand neighbour. */
  lemma NotLastColumn(b: nat, gs: nat)
    requires gs > 0 && b < gs * gs && b % gs < gs - 1
    ensures b + 1 < gs * gs
  {
    var q, r := b / gs, b % gs;
    assert b == gs * q + r;
    MulMonotone(gs, gs, q);
    assert q <= gs - 1;
    MulMonotone(gs, q, gs - 1);
    assert gs * (gs - 1) == gs * gs - gs;
  }

  /** Python's `int(math.sqrt(m))` for a non-negative integer `m`; see ISqrtBounds. */
  function ISqrt(m: nat): nat
  {
    ISqrtFrom(m, 0)
  }

  function ISqrtFrom(m: nat, g: nat): nat
    decreases m - g
  {
    if g < m && (g + 1) * (g + 1) <= m then ISqrtFrom(m, g + 1) else g
  }

  lemma {:induction false} ISqrtFromBounds(m: nat, g: nat)
    requires g * g <= m
    decreases m - g
    ensures var r := ISqrtFrom(m, g); r * r <= m < (r + 1) * (r + 1)
  {
    if g < m && (g + 1) * (g + 1) <= m {
      ISqrtFromBounds(m, g + 1);
    } else if g >= m {
      // here g * g <= m <= g forces m <= 1
      MulMonotone(g, 1, g);
      SquareOrder(m, g + 1);
    }
  }

  /** `ISqrt(m)` is the floor of the square root of `m`. */
  lemma ISqrtBounds(m: nat)
    ensures ISqrt(m) * ISqrt(m) <= m < (ISqrt(m) + 1) * (ISqrt(m) + 1)
  {
    ISqrtFromBounds(m, 0);
  }

  lemma ISqrtOfSquare(k: nat)
    ensures ISqrt(k * k) == k
  {
    var g := ISqrt(k * k);
    ISqrtBounds(k * k);
    SquareOrder(k, g);
    SquareOrder(k, g + 1);
  }

  // ---------------------------------------------------------------------------
  // States
  // ---------------------------------------------------------------------------

  datatype Action = Left | Up | Right | Down

  /** The action that undoes a slide. */
  function Opposite(a: Action): Action
  {
    match a
    case Left => Right
    case Up => Down
    case Right => Left
    case Down => Up
  }

  /** Position of an action in the order in which successors are listed. */
  function Rank(a: Action): nat
  {
    match a
    case Left => 0
    case Up => 1
    case Right => 2
    case Down => 3
  }

  datatype Successor = Successor(state: NPuzzleState, action: Action, cost: int)

  datatype NPuzzleState = NPuzzleState(n: int, tiles: seq<int>, gridSize: nat)
  {
    /** What the constructor establishes: `N` and `grid_size` follow from `tiles`. */
    ghost predicate Valid()
    {
      n == |tiles| - 1 && gridSize == ISqrt(|tiles|)
    }

    ghost predicate Square()
    {
      gridSize * gridSize == |tiles|
    }

    /** The blank occurs exactly once. */
    ghost predicate BlankUnique()
    {
      0 in tiles && forall k :: 0 <= k < |tiles| && tiles[k] == 0 ==> k == IndexOf(tiles, 0)
    }

    /** `tiles.index(0)`. */
    function Blank(): nat
      requires 0 in tiles
    {
      IndexOf(tiles, 0)
    }

    /**
     The Right slide indexes `blank_idx + 1` whenever the blank is not in the
     last column; on a board that is not square that index can be past the
     end, where Python raises IndexError.
     */
    ghost predicate RightInBounds()
      requires 0 in tiles
    {
      gridSize > 0 && (Blank() % gridSize < gridSize - 1 ==> Blank() + 1 < |tiles|)
    }

    /** Where the blank goes under `a`, when the guard of that slide holds. */
    function Target(a: Action): (t: Option<nat>)
      requires Valid() && 0 in tiles && RightInBounds()
      ensures t.Some? ==> t.value < |tiles| && t.value != Blank()
    {
      var b, gs := Blank(), gridSize;
      match a
      case Left => if b % gs > 0 then Some(b - 1) else None
      case Up => if b >= gs then Some(b - gs) else None
      case Right => if b % gs < gs - 1 then Some(b + 1) else None
      case Down => if b + gs < |tiles| then Some(b + gs) else None
    }

    /** The state reached by sliding the blank in direction `a`, if allowed. */
    function Slide(a: Action): Option<NPuzzleState>
      requires Valid() && 0 in tiles && RightInBounds()
    {
      match Target(a)
      case None => None
      case Some(t) => Some(NewState(8, Some(Swap(tiles, Blank(), t))))
    }

    /** The entry that slide `a` contributes to the successor list: none or one. */
    function Entry(a: Action): seq<Successor>
      requires Valid() && 0 in tiles && RightInBounds()
    {
      match Slide(a)
      case None => []
      case Some(t) => [Successor(t, a, 1)]
    }

    /** The list that `successors()` returns. */
    function SuccessorList(): seq<Successor>
      requires Valid() && 0 in tiles && RightInBounds()
    {
      Entry(Left) + Entry(Up) + Entry(Right) + Entry(Down)
    }

    /** `successors()`: copies the tiles, swaps the blank and appends, slide by slide. */
    method Successors() returns (succ: seq<Successor>)
      requires Valid() && 0 in tiles && RightInBounds()
      ensures succ == SuccessorList()
    {
      var b := IndexOf(tiles, 0);
      var gs := gridSize;
      succ := [];
      succ := AddSlide(succ, b % gs > 0, b - 1, Left);
      succ := AddSlide(succ, b >= gs, b - gs, Up);
      succ := AddSlide(succ, b % gs < gs - 1, b + 1, Right);
      succ := AddSlide(succ, b + gs < |tiles|, b + gs, Down);
    }

    /**
     One block of `successors()`: when the slide's guard holds, the tiles are
     copied, the blank is swapped with position `t` and the state is appended
     with its action and cost 1.
     */
    method AddSlide(succ: seq<Successor>, guard: bool, t: int, a: Action) returns (r: seq<Successor>)
      requires Valid() && 0 in tiles && RightInBounds()
      requires guard <==> Target(a).Some?
      requires guard ==> t == Target(a).value
      ensures r == succ + Entry(a)
    {
      r := succ;
      if guard {
        var b := IndexOf(tiles, 0);
        var ts := tiles;
        ts := ts[b := ts[t]][t := ts[b]];
        r := r + [Successor(NewState(8, Some(ts)), a, 1)];
      }
    }

    /** `__eq__`: states are equal exactly when their tile tuples are. */
    predicate Equals(other: Option<NPuzzleState>)
    {
      other.Some? && tiles == other.value.tiles
    }

    /** `is_goal(goal_state)`, which is `self == goal_state`. */
    predicate IsGoal(goal: Option<NPuzzleState>)
    {
      Equals(goal)
    }

    /** `__hash__`: Python's tuple hash, passed in, applied to `tiles`. */
    function Hash(tupleHash: seq<int> -> int): int
    {
      tupleHash(tiles)
    }
  }

  /**
   `NPuzzleState(N, tiles)`: with no tiles the board is `0, 1, ..., N`;
   with tiles, `N` becomes `len(tiles) - 1`. (`math.sqrt` of a negative
   number raises, hence the requirement on `n`.)
   */
  function NewState(n: int, tiles: Option<seq<int>>): (s: NPuzzleState)
    requires tiles.Some? || n >= -1
    ensures s.Valid()
    ensures tiles.None? ==> s.tiles == Range(0, n + 1) && s.n == n
    ensures tiles.Some? ==> s.tiles == tiles.value && s.n == |tiles.value| - 1
  {
    var t := if tiles.None? then Range(0, n + 1) else tiles.value;
    NPuzzleState(|t| - 1, t, ISqrt(|t|))
  }

  // ---------------------------------------------------------------------------
  // Properties
  // ---------------------------------------------------------------------------

  /** On a square board the grid side is exact: `gs * gs == N + 1`. */
  lemma SquareGrid(k: nat, tiles: seq<int>)
    requires |tiles| == k * k
    ensures NewState(8, Some(tiles)).gridSize == k
    ensures NewState(8, Some(tiles)).Square()
  {
    ISqrtOfSquare(k);
  }

  /** With no tiles given the board is the goal layout `0, 1, ..., N`. */
  lemma DefaultBoard(n: nat)
    ensures NewState(n, None).n == n && |NewState(n, None).tiles| == n + 1
    ensures forall k :: 0 <= k <= n ==> NewState(n, None).tiles[k] == k
    ensures NewState(n, None).Blank() == 0
  {
  }

  /** Equality is by tiles only, and agrees with datatype equality on valid states. */
  lemma EqualsIsTileEquality(s: NPuzzleState, t: NPuzzleState)
    requires s.Valid() && t.Valid()
    ensures s.Equals(Some(t)) <==> s == t
    ensures s.IsGoal(Some(t)) <==> s.tiles == t.tiles
    ensures !s.Equals(None)
  {
  }

  /** `__hash__` is consistent with `__eq__`. */
  lemma HashConsistentWithEquals(s: NPuzzleState, t: NPuzzleState, tupleHash: seq<int> -> int)
    requires s.Equals(Some(t))
    ensures s.Hash(tupleHash) == t.Hash(tupleHash)
  {
  }

  /** On a square board the Right slide never indexes past the end. */
  lemma SquareRightInBounds(s: NPuzzleState)
    requires s.Valid() && s.Square() && 0 in s.tiles
    ensures s.RightInBounds()
  {
    var b, gs := s.Blank(), s.gridSize;
    if b % gs < gs - 1 {
      NotLastColumn(b, gs);
    }
  }

  /** Each slide swaps the blank with one neighbouring cell and touches nothing else. */
  lemma SlideIsAdjacentSwap(s: NPuzzleState, a: Action)
    requires s.Valid() && 0 in s.tiles && s.RightInBounds()
    requires s.Slide(a).Some?
    ensures var b, t, gs := s.Blank(), s.Target(a).value, s.gridSize;
      && s.Slide(a).value.tiles == Swap(s.tiles, b, t)
      && s.Slide(a).value.tiles[t] == 0 && s.Slide(a).value.tiles[b] == s.tiles[t]
      && (forall k :: 0 <= k < |s.tiles| && k != b && k != t ==> s.Slide(a).value.tiles[k] == s.tiles[k])
      && multiset(s.Slide(a).value.tiles) == multiset(s.tiles)
      && (t == b - 1 || t == b + 1 || t == b - gs || t == b + gs)
  {
    SwapFacts(s.tiles, s.Blank(), s.Target(a).value);
  }

  ghost predicate RankIncreasing(succ: seq<Successor>)
  {
    forall k, l :: 0 <= k < l < |succ| ==> Rank(succ[k].action) < Rank(succ[l].action)
  }

  ghost predicate RanksBelow(succ: seq<Successor>, bound: nat)
  {
    forall k :: 0 <= k < |succ| ==> Rank(succ[k].action) < bound
  }

  lemma AppendEntry(s: NPuzzleState, p: seq<Successor>, a: Action)
    requires s.Valid() && 0 in s.tiles && s.RightInBounds()
    requires RankIncreasing(p) && RanksBelow(p, Rank(a))
    ensures RankIncreasing(p + s.Entry(a)) && RanksBelow(p + s.Entry(a), Rank(a) + 1)
  {
  }

  lemma SuccessorListOrdered(s: NPuzzleState)
    requires s.Valid() && 0 in s.tiles && s.RightInBounds()
    ensures |s.SuccessorList()| <= 4 && RankIncreasing(s.SuccessorList())
  {
    var e0, e1, e2, e3 := s.Entry(Left), s.Entry(Up), s.Entry(Right), s.Entry(Down);
    AppendEntry(s, [], Left);
    assert [] + e0 == e0;
    AppendEntry(s, e0, Up);
    AppendEntry(s, e0 + e1, Right);
    AppendEntry(s, e0 + e1 + e2, Down);
  }

  lemma SuccessorListSound(s: NPuzzleState)
    requires s.Valid() && 0 in s.tiles && s.RightInBounds()
    ensures forall e :: e in s.SuccessorList() ==> e.cost == 1 && s.Slide(e.action) == Some(e.state)
  {
    var e0, e1, e2, e3 := s.Entry(Left), s.Entry(Up), s.Entry(Right), s.Entry(Down);
    forall e | e in s.SuccessorList()
      ensures e.cost == 1 && s.Slide(e.action) == Some(e.state)
    {
      assert e in e0 || e in e1 || e in e2 || e in e3;
    }
  }

  lemma SuccessorListComplete(s: NPuzzleState, a: Action)
    requires s.Valid() && 0 in s.tiles && s.RightInBounds()
    requires s.Slide(a).Some?
    ensures exists k :: 0 <= k < |s.SuccessorList()| && s.SuccessorList()[k].action == a
  {
    var e0, e1, e2, e3 := s.Entry(Left), s.Entry(Up), s.Entry(Right), s.Entry(Down);
    var succ := s.SuccessorList();
    match a {
      case Left => assert succ[0] == e0[0];
      case Up => assert succ[|e0|] == e1[0];
      case Right => assert succ[|e0| + |e1|] == e2[0];
      case Down => assert succ[|e0| + |e1| + |e2|] == e3[0];
    }
  }

  /**
   `successors()` lists exactly the slides whose guard holds, each once, at
   cost 1, in the order Left, Up, Right, Down.
   */
  lemma SuccessorListSpec(s: NPuzzleState)
    requires s.Valid() && 0 in s.tiles && s.RightInBounds()
    ensures var succ := s.SuccessorList();
      && |succ| <= 4
      && (forall e :: e in succ ==> e.cost == 1 && s.Slide(e.action) == Some(e.state))
      && (forall a :: s.Slide(a).Some? <==> exists k :: 0 <= k < |succ| && succ[k].action == a)
      && RankIncreasing(succ)
  {
    var succ := s.SuccessorList();
    SuccessorListOrdered(s);
    SuccessorListSound(s);
    forall a
      ensures s.Slide(a).Some? <==> exists k :: 0 <= k < |succ| && succ[k].action == a
    {
      if s.Slide(a).Some? {
        SuccessorListComplete(s, a);
      }
      if exists k :: 0 <= k < |succ| && succ[k].action == a {
        var k :| 0 <= k < |succ| && succ[k].action == a;
        assert succ[k] in succ;
      }
    }
  }

  /** On a square board of side at least 2 the blank always has 2 to 4 slides. */
  lemma SuccessorCount(s: NPuzzleState)
    requires s.Valid() && s.Square() && s.gridSize >= 2 && 0 in s.tiles
    ensures s.RightInBounds()
    ensures 2 <= |s.SuccessorList()| <= 4
  {
    SquareRightInBounds(s);
    SuccessorListSpec(s);
    var b, gs := s.Blank(), s.gridSize;
    var succ := s.SuccessorList();
    // a horizontal slide and a vertical slide always exist
    var h := if b % gs > 0 then Left else Right;
    var v := if b >= gs then Up else Down;
    MulMonotone(gs, 2, gs);
    assert s.Slide(h).Some? && s.Slide(v).Some?;
    var kh :| 0 <= kh < |succ| && succ[kh].action == h;
    var kv :| 0 <= kv < |succ| && succ[kv].action == v;
    assert kh != kv;
  }

  /** After a slide the board is still valid and square, and its one blank sits at the target. */
  lemma SlideMovesBlank(s: NPuzzleState, a: Action)
    requires s.Valid() && s.Square() && s.BlankUnique()
    requires s.RightInBounds() && s.Slide(a).Some?
    ensures var s' := s.Slide(a).value;
      && s'.Valid() && s'.Square() && s'.BlankUnique() && s'.Blank() == s.Target(a).value
      && s'.gridSize == s.gridSize && s'.tiles == Swap(s.tiles, s.Blank(), s.Target(a).value)
  {
    var b, t := s.Blank(), s.Target(a).value;
    var s' := s.Slide(a).value;
    SwapFacts(s.tiles, b, t);
    assert s'.tiles[t] == 0;
    forall k | 0 <= k < |s'.tiles| && k != t
      ensures s'.tiles[k] != 0
    {
      if k == b {
        assert s'.tiles[k] == s.tiles[t];
      } else {
        assert s'.tiles[k] == s.tiles[k];
      }
    }
  }

  /** A blank moved one column left can move back right from its new column, and vice versa. */
  lemma ColumnStepBack(b: nat, gs: nat)
    requires gs > 0
    ensures b % gs > 0 ==> (b - 1) % gs < gs - 1
    ensures b % gs < gs - 1 ==> (b + 1) % gs > 0
  {
    if b % gs > 0 {
      DivModUnique(b - 1, gs, b / gs, b % gs - 1);
    }
    if b % gs < gs - 1 {
      DivModUnique(b + 1, gs, b / gs, b % gs + 1);
    }
  }

  /** From the target of `a`, the guard of `Opposite(a)` holds and leads back to the old blank. */
  lemma OppositeTarget(s: NPuzzleState, a: Action)
    requires s.Valid() && s.Square() && s.BlankUnique()
    requires s.RightInBounds() && s.Slide(a).Some?
    ensures var s' := s.Slide(a).value;
      && s'.Valid() && s'.Square() && s'.BlankUnique() && s'.RightInBounds()
      && s'.Target(Opposite(a)) == Some(s.Blank())
  {
    var b, gs := s.Blank(), s.gridSize;
    var s' := s.Slide(a).value;
    SlideMovesBlank(s, a);
    SquareRightInBounds(s');
    ColumnStepBack(b, gs);
  }

  /** Sliding the blank back the other way restores the original board. */
  lemma SlideReversible(s: NPuzzleState, a: Action)
    requires s.Valid() && s.Square() && s.BlankUnique()
    requires s.RightInBounds() && s.Slide(a).Some?
    ensures var s' := s.Slide(a).value;
      && s'.Valid() && s'.Square() && s'.BlankUnique() && s'.RightInBounds()
      && s'.Slide(Opposite(a)) == Some(s)
  {
    var b, t := s.Blank(), s.Target(a).value;
    var s' := s.Slide(a).value;
    SlideMovesBlank(s, a);
    OppositeTarget(s, a);
    SwapFacts(s'.tiles, t, b);
    SwapFacts(s.tiles, b, t);
    assert Swap(s'.tiles, t, b) == s.tiles;
  }

  /** Every successor has the original among its own successors, via the opposite slide. */
  lemma SuccessorsReversible(s: NPuzzleState, k: nat)
    requires s.Valid() && s.Square() && s.BlankUnique() && s.RightInBounds()
    requires k < |s.SuccessorList()|
    ensures var e := s.SuccessorList()[k];
      && e.state.Valid() && 0 in e.state.tiles && e.state.RightInBounds()
      && Successor(s, Opposite(e.action), 1) in e.state.SuccessorList()
  {
    SuccessorListSpec(s);
    var e := s.SuccessorList()[k];
    assert e in s.SuccessorList();
    SlideReversible(s, e.action);
    var s' := e.state;
    SuccessorListSpec(s');
    var l :| 0 <= l < |s'.SuccessorList()| && s'.SuccessorList()[l].action == Opposite(e.action);
    assert s'.SuccessorList()[l] in s'.SuccessorList();
  }
}
