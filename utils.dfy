/**
 The frontier containers and helpers of Search/utils.py: a LIFO stack and a
 FIFO queue over a list, a min priority queue of `(priority, index, item)`
 entries with the push counter as tie-break, `solution`, which rebuilds a
 path from parent links, and `manhatan_distance` on puzzle boards.
 */
module Utils {
  import opened Wrappers
  import opened Sequences
  import opened NPuzzle

  // ---------------------------------------------------------------------------
  // Path reconstruction
  // ---------------------------------------------------------------------------

  /** A search node: a state, the action that produced it and a link to its parent. */
  datatype Node<S, A> = Node(state: S, action: A, parent: Option<Node<S, A>>)

  function Depth<S, A>(n: Node<S, A>): nat
  {
    match n.parent
    case None => 0
    case Some(p) => 1 + Depth(p)
  }

  /** The node reached by following `k` parent links. */
  function Ancestor<S, A>(n: Node<S, A>, k: nat): (a: Node<S, A>)
    requires k <= Depth(n)
    ensures Depth(a) == Depth(n) - k
  {
    if k == 0 then n else Ancestor(n.parent.value, k - 1)
  }

  /** The `(state, action)` pairs from the root's child down to `n`. */
  function PathOf<S, A>(n: Node<S, A>): seq<(S, A)>
  {
    match n.parent
    case None => []
    case Some(p) => PathOf(p) + [(n.state, n.action)]
  }

  /** `solution(node)`: walks the parent links, prepending each pair. */
  method Solution<S, A>(node: Node<S, A>) returns (path: seq<(S, A)>)
    ensures path == PathOf(node)
  {
    path := [];
    var n := node;
    while n.parent.Some?
      invariant PathOf(node) == PathOf(n) + path
      decreases Depth(n)
    {
      path := [(n.state, n.action)] + path;
      n := n.parent.value;
    }
  }

  /**
   The path has one entry per link: the node `k` links above `n`, for each
   `k` below the depth, supplies entry `Depth(n) - 1 - k`, so the path runs
   from the root's child down to `n` and the root itself is left out.
   */
  lemma {:induction false} PathOfAt<S, A>(n: Node<S, A>)
    ensures |PathOf(n)| == Depth(n)
    ensures Ancestor(n, Depth(n)).parent.None?
    ensures forall k :: 0 <= k < Depth(n) ==>
      Ancestor(n, k).parent.Some? && PathOf(n)[Depth(n) - 1 - k] == (Ancestor(n, k).state, Ancestor(n, k).action)
  {
    match n.parent
    case None =>
    case Some(p) =>
      PathOfAt(p);
      assert PathOf(n) == PathOf(p) + [(n.state, n.action)];
      forall k | 0 < k < Depth(n)
        ensures Ancestor(n, k).parent.Some? && PathOf(n)[Depth(n) - 1 - k] == (Ancestor(n, k).state, Ancestor(n, k).action)
      {
        assert Ancestor(n, k) == Ancestor(p, k - 1);
        assert PathOf(n)[Depth(n) - 1 - k] == PathOf(p)[Depth(p) - 1 - (k - 1)];
      }
      assert Ancestor(n, Depth(n)) == Ancestor(p, Depth(p));
  }

  /** A chain root, A, B gives the pairs of A and of B, in that order. */
  lemma SolutionOfChain<S>(root: S, sa: S, sb: S)
    ensures var r := Node(root, "", None);
      var a := Node(sa, "actionA", Some(r));
      var b := Node(sb, "actionB", Some(a));
      PathOf(b) == [(sa, "actionA"), (sb, "actionB")]
  {
    var r := Node(root, "", None);
    var a := Node(sa, "actionA", Some(r));
    assert PathOf(a) == [] + [(sa, "actionA")];
  }

  // ---------------------------------------------------------------------------
  // Manhattan distance
  // ---------------------------------------------------------------------------

  /** `manhatan_distance(tile, state1, state2)`, on the grid size of `state1`. */
  function ManhattanDistance(tile: int, s1: NPuzzleState, s2: NPuzzleState): (d: nat)
    requires tile in s1.tiles && tile in s2.tiles && s1.gridSize > 0
    ensures s1.tiles == s2.tiles ==> d == 0
  {
    var i, j, gs := IndexOf(s1.tiles, tile), IndexOf(s2.tiles, tile), s1.gridSize;
    Abs(i / gs - j / gs) + Abs(i % gs - j % gs)
  }

  /** The distance is 0 exactly when the tile sits at the same index on both boards. */
  lemma ManhattanZero(tile: int, s1: NPuzzleState, s2: NPuzzleState)
    requires tile in s1.tiles && tile in s2.tiles && s1.gridSize > 0
    ensures ManhattanDistance(tile, s1, s2) == 0 <==> IndexOf(s1.tiles, tile) == IndexOf(s2.tiles, tile)
  {
    var i, j, gs := IndexOf(s1.tiles, tile), IndexOf(s2.tiles, tile), s1.gridSize;
    if i / gs == j / gs && i % gs == j % gs {
      assert i == gs * (i / gs) + i % gs;
      assert j == gs * (j / gs) + j % gs;
    }
  }

  /** On boards of one grid size the distance does not depend on the order of the boards. */
  lemma ManhattanSymmetric(tile: int, s1: NPuzzleState, s2: NPuzzleState)
    requires tile in s1.tiles && tile in s2.tiles && s1.gridSize > 0
    requires s1.gridSize == s2.gridSize
    ensures ManhattanDistance(tile, s1, s2) == ManhattanDistance(tile, s2, s1)
  {
  }

  /** On boards of one grid size the distance obeys the triangle inequality. */
  lemma ManhattanTriangle(tile: int, s1: NPuzzleState, s2: NPuzzleState, s3: NPuzzleState)
    requires tile in s1.tiles && tile in s2.tiles && tile in s3.tiles && s1.gridSize > 0
    requires s1.gridSize == s2.gridSize == s3.gridSize
    ensures ManhattanDistance(tile, s1, s3) <= ManhattanDistance(tile, s1, s2) + ManhattanDistance(tile, s2, s3)
  {
  }

  // ---------------------------------------------------------------------------
  // Stack and Queue
  // ---------------------------------------------------------------------------

  /** `_items.pop()`: the last item, or nothing on an empty list, which stays as it is. */
  function PopLast<T>(s: seq<T>): (r: (Option<T>, seq<T>))
    ensures r.0.None? <==> s == []
    ensures r.0.None? ==> r.1 == s
    ensures r.0.Some? ==> r.1 + [r.0.value] == s
  {
    if s == [] then (None, s) else (Some(s[|s| - 1]), s[..|s| - 1])
  }

  /** `_items[0]` then `_items = _items[1:]`, or nothing on an empty list. */
  function PopFirst<T>(s: seq<T>): (r: (Option<T>, seq<T>))
    ensures r.0.None? <==> s == []
    ensures r.0.None? ==> r.1 == s
    ensures r.0.Some? ==> [r.0.value] + r.1 == s
  {
    if s == [] then (None, s) else (Some(s[0]), s[1..])
  }

  /** The items that popping a stack until it is empty yields, in order. */
  function DrainStack<T>(s: seq<T>): seq<T>
    decreases |s|
  {
    match PopLast(s)
    case (None, _) => []
    case (Some(x), rest) => [x] + DrainStack(rest)
  }

  /** The items that popping a queue until it is empty yields, in order. */
  function DrainQueue<T>(s: seq<T>): seq<T>
    decreases |s|
  {
    match PopFirst(s)
    case (None, _) => []
    case (Some(x), rest) => [x] + DrainQueue(rest)
  }

  /** Pushing `x` and popping gives `x` back and the stack as it was. */
  lemma StackPushPop<T>(s: seq<T>, x: T)
    ensures PopLast(s + [x]) == (Some(x), s)
  {
    assert (s + [x])[..|s|] == s;
  }

  /** A queue pops its oldest item: `x`, pushed last, comes out last. */
  lemma QueuePushPop<T>(s: seq<T>, x: T)
    ensures PopFirst(s + [x]) == if s == [] then (Some(x), []) else (Some(s[0]), s[1..] + [x])
  {
    if s != [] {
      assert (s + [x])[1..] == s[1..] + [x];
    }
  }

  lemma {:induction false} DrainStackAt<T>(s: seq<T>)
    decreases |s|
    ensures |DrainStack(s)| == |s|
    ensures forall k :: 0 <= k < |s| ==> DrainStack(s)[k] == s[|s| - 1 - k]
  {
    if s != [] {
      var rest := s[..|s| - 1];
      DrainStackAt(rest);
      assert DrainStack(s) == [s[|s| - 1]] + DrainStack(rest);
    }
  }

  /** Last in, first out: a stack pops its items in the reverse of their push order. */
  lemma StackIsLifo<T>(s: seq<T>)
    ensures DrainStack(s) == Reverse(s)
  {
    DrainStackAt(s);
    ReverseAt(s);
  }

  /** First in, first out: a queue pops its items in their push order. */
  lemma {:induction false} QueueIsFifo<T>(s: seq<T>)
    decreases |s|
    ensures DrainQueue(s) == s
  {
    if s != [] {
      QueueIsFifo(s[1..]);
      assert DrainQueue(s) == [s[0]] + DrainQueue(s[1..]);
    }
  }

  /** `Stack`: a list whose end is the top. */
  class Stack<T> {
    var items: seq<T>

    /** `Stack(items)`: pushes the given items in order; none when `items` is empty. */
    constructor (init: seq<T>)
      ensures items == init
    {
      items := [];
      new;
      var k := 0;
      while k < |init|
        invariant 0 <= k <= |init|
        invariant items == init[..k]
      {
        Push(init[k]);
        k := k + 1;
      }
    }

    method Push(x: T)
      modifies this`items
      ensures items == old(items) + [x]
    {
      items := items + [x];
    }

    /** Pops the top; on an empty stack returns nothing and changes nothing. */
    method Pop() returns (r: Option<T>)
      modifies this`items
      ensures (r, items) == PopLast(old(items))
    {
      if items == [] {
        r := None;
      } else {
        r := Some(items[|items| - 1]);
        items := items[..|items| - 1];
      }
    }

    function IsEmpty(): (b: bool)
      reads this
      ensures b <==> PopLast(items).0.None?
    {
      |items| == 0
    }
  }

  /** `Queue`: a list whose front is `_items[0]`. */
  class Queue<T> {
    var items: seq<T>

    /** `Queue(items)`: pushes the given items in order; none when `items` is empty. */
    constructor (init: seq<T>)
      ensures items == init
    {
      items := [];
      new;
      var k := 0;
      while k < |init|
        invariant 0 <= k <= |init|
        invariant items == init[..k]
      {
        Push(init[k]);
        k := k + 1;
      }
    }

    method Push(x: T)
      modifies this`items
      ensures items == old(items) + [x]
    {
      items := items + [x];
    }

    /** Pops the front; on an empty queue returns nothing and changes nothing. */
    method Pop() returns (r: Option<T>)
      modifies this`items
      ensures (r, items) == PopFirst(old(items))
    {
      if |items| == 0 {
        r := None;
      } else {
        r := Some(items[0]);
        items := items[1..];
      }
    }

    function IsEmpty(): (b: bool)
      reads this
      ensures b <==> PopFirst(items).0.None?
    {
      |items| == 0
    }
  }

  // ---------------------------------------------------------------------------
  // Priority queue
  // ---------------------------------------------------------------------------

  /** A heap entry `(priority, index, item)`. */
  datatype PqEntry<T> = PqEntry(priority: real, index: nat, item: T)

  /** Tuple order on `(priority, index)`: `a` pops no later than `b`. */
  predicate NotAfter<T>(a: PqEntry<T>, b: PqEntry<T>)
  {
    a.priority < b.priority || (a.priority == b.priority && a.index <= b.index)
  }

  /** Position of the entry that `heappop` takes: one whose `(priority, index)` is least. */
  function MinIndex<T>(s: seq<PqEntry<T>>): (m: nat)
    requires |s| > 0
    ensures m < |s|
    ensures forall k :: 0 <= k < |s| ==> NotAfter(s[m], s[k])
  {
    if |s| == 1 then 0
    else
      var m := MinIndex(s[1..]) + 1;
      if NotAfter(s[0], s[m]) then 0 else m
  }

  function RemoveAt<T>(s: seq<T>, m: nat): (r: seq<T>)
    requires m < |s|
    ensures |r| == |s| - 1
    ensures forall k :: 0 <= k < |r| ==> r[k] == if k < m then s[k] else s[k + 1]
    ensures multiset(r) + multiset{s[m]} == multiset(s)
  {
    assert s == s[..m] + [s[m]] + s[m + 1..];
    s[..m] + s[m + 1..]
  }

  /** `heappop`: the least entry's item and the other entries, or nothing on an empty heap. */
  function PopMin<T>(s: seq<PqEntry<T>>): (r: (Option<T>, seq<PqEntry<T>>))
    ensures r.0.None? <==> s == []
    ensures r.0.None? ==> r.1 == s
    ensures r.0.Some? ==>
      exists m :: 0 <= m < |s| && r.0.value == s[m].item
        && (forall k :: 0 <= k < |s| ==> NotAfter(s[m], s[k]))
        && multiset(r.1) + multiset{s[m]} == multiset(s)
  {
    if s == [] then (None, s) else
      var m := MinIndex(s);
      (Some(s[m].item), RemoveAt(s, m))
  }

  /** The entries that popping until empty takes out, in order. */
  function DrainPq<T>(s: seq<PqEntry<T>>): seq<PqEntry<T>>
    decreases |s|
  {
    if s == [] then [] else
      var m := MinIndex(s);
      [s[m]] + DrainPq(RemoveAt(s, m))
  }

  ghost predicate SortedByKey<T>(s: seq<PqEntry<T>>)
  {
    forall k, l :: 0 <= k < l < |s| ==> NotAfter(s[k], s[l])
  }

  /**
   Popping until empty takes every entry out once, in `(priority, index)`
   order: lowest priority first and, within one priority, earliest push first.
   */
  lemma {:induction false} DrainPqSorted<T>(s: seq<PqEntry<T>>)
    decreases |s|
    ensures multiset(DrainPq(s)) == multiset(s)
    ensures SortedByKey(DrainPq(s))
  {
    DrainPqPermutes(s);
    if s != [] {
      var m := MinIndex(s);
      var rest := RemoveAt(s, m);
      DrainPqSorted(rest);
      var e := DrainPq(rest);
      forall k | 0 <= k < |e|
        ensures NotAfter(s[m], e[k])
      {
        assert e[k] in multiset(s);
      }
      SortedCons(s[m], e);
    }
  }

  /** An entry ahead of every entry of a sorted list keeps it sorted when put in front. */
  lemma SortedCons<T>(x: PqEntry<T>, e: seq<PqEntry<T>>)
    requires SortedByKey(e)
    requires forall k :: 0 <= k < |e| ==> NotAfter(x, e[k])
    ensures SortedByKey([x] + e)
  {
    var d := [x] + e;
    forall k, l | 0 <= k < l < |d|
      ensures NotAfter(d[k], d[l])
    {
      assert d[l] == e[l - 1];
      if k > 0 {
        assert d[k] == e[k - 1];
      }
    }
  }

  /** Popping until empty takes out exactly the entries there are. */
  lemma {:induction false} DrainPqPermutes<T>(s: seq<PqEntry<T>>)
    decreases |s|
    ensures multiset(DrainPq(s)) == multiset(s)
  {
    if s != [] {
      DrainPqPermutes(RemoveAt(s, MinIndex(s)));
    }
  }

  /** `PriorityQueue`: a min heap of entries and the counter `index`. */
  class PriorityQueue<T> {
    var items: seq<PqEntry<T>>
    var index: nat

    /** Every stored index was handed out by an earlier push, and no two are equal. */
    ghost predicate Valid()
      reads this
    {
      && (forall k :: 0 <= k < |items| ==> items[k].index < index)
      && (forall k, l :: 0 <= k < l < |items| ==> items[k].index != items[l].index)
    }

    /** `PriorityQueue(items)`: pushes the `(item, priority)` pairs in order. */
    constructor (init: seq<(T, real)>)
      ensures Valid() && index == |init| && |items| == |init|
      ensures forall k :: 0 <= k < |init| ==> items[k] == PqEntry(init[k].1, k, init[k].0)
    {
      items := [];
      index := 0;
      new;
      var k := 0;
      while k < |init|
        invariant 0 <= k <= |init|
        invariant Valid() && index == k && |items| == k
        invariant forall i :: 0 <= i < k ==> items[i] == PqEntry(init[i].1, i, init[i].0)
      {
        Push(init[k].0, init[k].1);
        k := k + 1;
      }
    }

    /** Stores `(priority, index, item)` and bumps `index` by one. */
    method Push(x: T, priority: real)
      requires Valid()
      modifies this
      ensures Valid()
      ensures items == old(items) + [PqEntry(priority, old(index), x)]
      ensures index == old(index) + 1
    {
      items := items + [PqEntry(priority, index, x)];
      index := index + 1;
    }

    /** Pops the least entry's item; on an empty queue returns nothing and changes nothing. */
    method Pop() returns (r: Option<T>)
      requires Valid()
      modifies this`items
      ensures Valid()
      ensures (r, items) == PopMin(old(items))
    {
      if |items| == 0 {
        r := None;
      } else {
        var m := MinIndex(items);
        r := Some(items[m].item);
        items := RemoveAt(items, m);
      }
    }

    function IsEmpty(): (b: bool)
      reads this
      ensures b <==> PopMin(items).0.None?
    {
      |items| == 0
    }
  }
}
