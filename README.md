# Local search, puzzles and frontiers of `Search/`, in Dafny

This project models the search toolkit of the `Search/` package. The model has three parts:

- **Frontier containers and path reconstruction** (`Search/utils.py`):
  - a LIFO `Stack` and a FIFO `Queue` over a list;
  - a min `PriorityQueue` of `(priority, index, item)` entries, where the push counter `index` breaks ties first-in-first-out;
  - `solution`, which walks parent links back to the root;
  - `manhatan_distance` between two puzzle boards.
- **Problem states and their neighbourhoods:**
  - the two N-Queens formulations of `Search/nqueens.py`:
    - row assignment, with row and diagonal conflicts, where a neighbour moves one queen within its column;
    - permutation, with diagonal conflicts only, where a neighbour swaps two queens;
  - the sliding-tile `NPuzzleState` of `Search/npuzzle.py`, with `successors`, `is_goal`, `__eq__` and `__hash__`;
  - the travelling-salesman `Tour` of `Search/tsp_utils.py`, with its cyclic length cached in `len` and its swap and segment-reversal neighbours.
- **The local-search engines** of `Search/local_search.py`, and its older copy `Search/imgs/local_search.py`, run on the row-assignment N-Queens state:
  - hill climbing;
  - the integer skeleton of simulated annealing.

Modules follow the files: `Utils`, `NQueens`, `NPuzzle`, `LocalSearch` and `TspUtils`. Two shared modules sit beside them: `Sequences`, with ranges, swaps and reversals, and `Wrappers`, with `Option`.

Mutable objects are classes. Their in-place updates are methods with `modifies` clauses, each specified by a pure function:

- the containers' `_items` lists;
- the `num_conflicts` cache of the N-Queens states;
- the engines' `history` lists;
- the tour's `len` cache; a tour's own `ids` never change, and `random_neighbor` writes its new order into a fresh copy.

The loops are methods with loop invariants: `solution`, `neighbors`, `best_neighbor`, the retry loop of `random_neighbor`, `summarize_history`, and the two `search` loops. `successors` is four guarded blocks, each a call of `AddSlide`. Properties that relate several calls are lemmas about those functions.

Randomness is passed in as parameters, each ranged as its `randint`/`choice` call ranges it:

- the column and the successive row draws of `NQueensState.random_neighbor`;
- `i` and `j` of the permutation neighbour and of the tour neighbour;
- the choice `c` of the tour neighbour;
- the shuffled `ids` of a new tour.

In simulated annealing:

- the temperature becomes a count `steps` of cooling steps;
- the test `random.random() < math.exp(delta_E / T)` becomes a sequence `accepts` of outcomes.

The tour's distance is a function parameter `dist: (C, C) -> real`.

Hill climbing is specified by two functions:

- `ClimbSteps(q)`, the number of accepted moves from board `q`;
- `ClimbBoard(q, j)`, the board after `j` of them.

The method's history is proved equal to `ClimbBoard(q, 0 .. ClimbSteps(q))`. The lemmas then show what that run is:

- every step goes to the best neighbour;
- conflicts strictly drop at every step;
- the run ends in a local optimum;
- the run takes at most as many steps as the initial board has conflicts.

Simulated annealing is specified in the same way by `AnnealSteps` and `AnnealBoard`.

## Model

| member | source | states |
|---|---|---|
| Utils.Ancestor | Search/utils.py:55-57 | following `k` parent links from a node lowers its depth by exactly `k` |
| Utils.Solution | Search/utils.py:53-58 | the loop that prepends `(state, action)` and steps to the parent returns exactly `PathOf(node)` |
| Utils.PathOfAt | Search/utils.py:53-58 | the path has one entry per parent link (the node's depth); following `Depth` links reaches the root; the entry at position `Depth-1-k` is the `(state, action)` of the `k`-th ancestor, so the root is excluded and the order is root-to-node |
| Utils.SolutionOfChain | Search/utils.py:53-58 | on a root with two descendants the path is the two descendants' `(state, action)` pairs, root's child first |
| Utils.ManhattanDistance | Search/utils.py:61-70 | `abs(i//gs - j//gs) + abs(i%gs - j%gs)` for the tile's indices `i` and `j` on the two boards and the first board's grid size; it requires the tile on both boards, where `index` would raise ValueError, and is 0 on one board compared with itself |
| Utils.ManhattanZero | Search/utils.py:61-70 | the distance is 0 exactly when the tile sits at the same index in both boards |
| Utils.ManhattanSymmetric | Search/utils.py:61-70 | on boards of equal grid size the distance does not depend on the order of the two boards |
| Utils.ManhattanTriangle | Search/utils.py:61-70 | the distance obeys the triangle inequality through a third board |
| Utils.PopLast | Search/utils.py:89-95 | popping the end of a list yields nothing and leaves it unchanged exactly when it is empty, and otherwise gives the last item and the rest, which together rebuild the list |
| Utils.PopFirst | Search/utils.py:119-126 | popping the front yields nothing and leaves the list unchanged exactly when it is empty, and otherwise gives `_items[0]` and `_items[1:]` |
| Utils.StackPushPop | Search/utils.py:85-95 | pushing `x` onto a stack and popping returns `x` and restores the previous contents |
| Utils.QueuePushPop | Search/utils.py:115-126 | pushing onto a queue and popping returns `x` only if the queue was empty, and otherwise the front item, with `x` now at the rear |
| Utils.DrainStackAt | Search/utils.py:85-95 | popping a stack to the end yields its items last-pushed first, one for one |
| Utils.StackIsLifo | Search/utils.py:85-95 | draining a stack gives the reverse of its contents |
| Utils.QueueIsFifo | Search/utils.py:115-126 | draining a queue gives its contents in push order |
| Utils.Stack.constructor | Search/utils.py:78-83 | the constructor pushes the given items in order, and none when the list is empty |
| Utils.Stack.Push | Search/utils.py:85-87 | `push` appends the item at the end |
| Utils.Stack.Pop | Search/utils.py:89-95 | `pop` removes and returns the last item, or returns `None` and changes nothing on an empty stack |
| Utils.Stack.IsEmpty | Search/utils.py:97-98 | `is_empty` holds exactly when a pop would find nothing |
| Utils.Queue.constructor | Search/utils.py:108-113 | the constructor pushes the given items in order |
| Utils.Queue.Push | Search/utils.py:115-117 | `push` appends the item at the rear |
| Utils.Queue.Pop | Search/utils.py:119-126 | `pop` returns `_items[0]` and keeps `_items[1:]`, or returns `None` and changes nothing on an empty queue |
| Utils.Queue.IsEmpty | Search/utils.py:128-129 | `is_empty` holds exactly when a pop would find nothing |
| Utils.MinIndex | Search/utils.py:155-159 | the entry `heappop` takes has a `(priority, index)` no greater than any other entry's |
| Utils.RemoveAt | Search/utils.py:158 | removing that entry keeps the others in order and removes exactly one copy of it |
| Utils.PopMin | Search/utils.py:155-161 | popping yields nothing exactly on an empty heap, which it leaves unchanged; otherwise it returns the item of the smallest `(priority, index)` entry and keeps every other entry |
| Utils.DrainPqSorted | Search/utils.py:149-159 | popping until empty yields every entry exactly once, in `(priority, index)` order, so among equal priorities the earlier push comes first |
| Utils.DrainPqPermutes | Search/utils.py:155-159 | popping until empty yields a rearrangement of the stored entries |
| Utils.SortedCons | Search/utils.py:155-159 | an entry that is no later than every entry of a sorted drain can be popped ahead of it |
| Utils.PriorityQueue.constructor | Search/utils.py:141-147 | the constructor pushes the `(item, priority)` pairs in order with indices `0, 1, …`, leaving `index` at their number |
| Utils.PriorityQueue.Push | Search/utils.py:149-153 | `push` stores `(priority, index, item)` and raises `index` by exactly 1, so stored indices stay distinct and below `index` |
| Utils.PriorityQueue.Pop | Search/utils.py:155-161 | `pop` removes and returns the smallest `(priority, index)` entry's item, or returns `None` and changes nothing when empty, keeping the indices distinct |
| Utils.PriorityQueue.IsEmpty | Search/utils.py:163-164 | `is_empty` holds exactly when a pop would find nothing |
| NQueens.ClashesWithCounts | Search/nqueens.py:40-42 | the inner count for queen `i` is the number of later queens it attacks |
| NQueens.ConflictsFromCounts | Search/nqueens.py:40-42 | the nested count from column `lo` on is the number of attacking pairs there |
| NQueens.ConflictCount | Search/nqueens.py:40-42 | the nested sum over `i < j` of `conflicts()`; it carries no postcondition of its own, and the lemmas below state what it counts |
| NQueens.ConflictsIsClashCount | Search/nqueens.py:36-44 | `conflicts` (and the permutation form's at lines 169-171) is the number of pairs `i < j` on one row or diagonal (row form) or on one diagonal (permutation form) |
| NQueens.ConflictsZero | Search/nqueens.py:40-42 | in either form, the count is 0 exactly when no pair of queens attacks |
| NQueens.ConflictsBound | Search/nqueens.py:40-42 | the count is at most N(N-1)/2, the seed `best_neighbor` starts from, and below it when some pair does not attack |
| NQueens.ClashesWithBound | Search/nqueens.py:40-42 | the inner count for queen `i` is at most the number of later columns, and below it when one later queen is not attacked |
| NQueens.ConflictsFromBound | Search/nqueens.py:40-42 | the count over columns `lo` on is at most the number of pairs there, and below it when one pair does not attack |
| NQueens.PairsStep | Search/nqueens.py:62 | N(N-1)/2 grows by N from N to N+1 queens |
| NQueens.BestScanFacts | Search/nqueens.py:59-67 | in either form, the scan seeded at N(N-1)/2 finds `None` exactly when no neighbour is below the seed; otherwise it returns the first neighbour whose conflicts are strictly below those of every earlier one and below the seed, and its conflicts are a minimum over all neighbours |
| NQueens.ColumnMovesMembers | Search/nqueens.py:52-55 | for one column, the boards listed are exactly those that put that queen on another row below the bound and keep every other column |
| NQueens.RowMovesMembers | Search/nqueens.py:51-56 | the boards listed for the first `c` columns are exactly the single-column moves in those columns |
| NQueens.RowNeighbors | Search/nqueens.py:51-56 | a board is a neighbour exactly when it differs from the state in one column only, whose queen moves to another row in 1..N |
| NQueens.ColumnMovesCount | Search/nqueens.py:52-53 | each column gives one board per row other than the queen's own |
| NQueens.RowMovesCount | Search/nqueens.py:51-56 | the first `c` columns give `c·(N-1)` boards when every row is in 1..N |
| NQueens.RowNeighborCount | Search/nqueens.py:51-56 | there are N·(N-1) neighbours when every row is in 1..N |
| NQueens.SwapRowMembers | Search/nqueens.py:181-184 | for a fixed `i` the boards listed are exactly the swaps of `i` with each later `j` |
| NQueens.SwapMovesMembers | Search/nqueens.py:180-184 | the boards listed for the first `c` values of `i` are exactly the swaps of positions `i < j` with `i < c` |
| NQueens.SwapNeighbors | Search/nqueens.py:175-184 | the permutation form has N(N-1)/2 neighbours; they are exactly the swaps of two positions, each a rearrangement of the state's queens |
| NQueens.GoodMove | Search/nqueens.py:51-56 | from three queens on there is a single-column move with a non-attacking pair |
| NQueens.BestNeighborExists | Search/nqueens.py:59-67 | from three queens on `best_neighbor` never returns `None`, so the engine's `>=` test is defined |
| NQueens.RowMovesLength | Search/nqueens.py:54-55 | every neighbour board has N columns |
| NQueens.BestNeighborNoneForSmallBoards | Search/nqueens.py:59-67 | with at most two queens and rows in 1..N, `best_neighbor` returns `None` |
| NQueens.PickRowFits | Search/nqueens.py:75-77 | the retry loop stops on a draw different from `col`, and the row it keeps is one of the draws |
| NQueens.PickRowIsFirst | Search/nqueens.py:75-77 | the row kept is the first draw different from `col` |
| NQueens.RandomNeighborCanBeSelf | Search/nqueens.py:72-80 | on any board and any column `col` whose queen's row is in 1..N and differs from `col`, the single draw `queens[col]` is accepted by the retry loop, and the neighbour it gives is the state's own board: the loop compares the row with the column index, not with `queens[col]` |
| NQueens.BoardsAppend | Search/nqueens.py:51-56 | gluing the neighbours of one more column after the earlier ones keeps each neighbour matched with its board |
| NQueens.NQueensState.constructor | Search/nqueens.py:10-20 | a non-empty `queens` is copied and sets N; otherwise the board is `[1..N]`; the cache starts empty |
| NQueens.NQueensState.EqualsIsBoardEquality | Search/nqueens.py:22-27 | `__eq__` holds exactly when the two boards are equal, the identity test agreeing with it, and never against `None` |
| NQueens.NQueensState.Conflicts | Search/nqueens.py:36-44 | `conflicts()` returns the pair count and stores it; a stored value is returned unchanged |
| NQueens.NQueensState.GreaterOrEqual | Search/nqueens.py:29-34 | `__ge__` is true for the state itself, false against `None`, and otherwise compares conflict counts, after which both caches are filled; in the first two cases the cache is untouched |
| NQueens.NQueensState.Neighbors | Search/nqueens.py:46-56 | `neighbors()` yields fresh states, with empty caches, whose boards are the single-column moves in generation order; the state itself is not changed |
| NQueens.NQueensState.ColumnNeighbors | Search/nqueens.py:52-56 | the inner loop yields, for one column, a fresh state per other row, in row order |
| NQueens.NQueensState.BestNeighbor | Search/nqueens.py:59-67 | `best_neighbor()` returns `None` exactly when the scan finds none, and otherwise a fresh state on the scan's board |
| NQueens.NQueensState.RandomNeighbor | Search/nqueens.py:69-80 | `random_neighbor()` returns a fresh state with column `col` set to the first row draw different from `col` |
| NQueens.NQueensState.RandomState | Search/nqueens.py:82-85 | `random_state(N)` builds a fresh state on the N given row draws, and for N of 0 or less (an empty list) the default eight-queen board |
| NQueens.NQueensStatePermutation.constructor | Search/nqueens.py:10-20 | the permutation form's constructor copies or defaults the board as the row form does |
| NQueens.NQueensStatePermutation.EqualsIsBoardEquality | Search/nqueens.py:151-156 | `__eq__` holds exactly when the two boards are equal, and never against `None` |
| NQueens.NQueensStatePermutation.Conflicts | Search/nqueens.py:165-173 | `conflicts()` returns the diagonal pair count and caches it, returning a stored value unchanged |
| NQueens.NQueensStatePermutation.GreaterOrEqual | Search/nqueens.py:158-163 | `__ge__` is true for the state itself, false against `None`, and otherwise compares diagonal conflict counts, after which both caches are filled; in the first two cases the cache is untouched |
| NQueens.NQueensStatePermutation.Neighbors | Search/nqueens.py:175-184 | `neighbors()` yields fresh states whose boards are the pairwise swaps in generation order |
| NQueens.NQueensStatePermutation.SwapNeighborsOf | Search/nqueens.py:181-184 | the inner loop yields, for one `i`, a fresh state per later `j`, with `i` and `j` swapped |
| NQueens.NQueensStatePermutation.BestNeighbor | Search/nqueens.py:187-195 | `best_neighbor()` returns `None` exactly when the scan over the swaps finds none, and otherwise a fresh state on the scan's board |
| NQueens.NQueensStatePermutation.RandomNeighbor | Search/nqueens.py:197-204 | `random_neighbor()` swaps exactly positions `i` and `j`, so the queens stay a rearrangement of the original |
| NQueens.NQueensStatePermutation.RandomState | Search/nqueens.py:206-210 | `random_state(N)` builds a fresh state on the given shuffle of `1 .. N`, and for N of 0 or less the default eight-queen board |
| NQueens.Summary | Search/nqueens.py:263-270 | the summary is non-empty, no longer than the history, keeps `history[0]`, and ends on the board of the last entry |
| NQueens.SummarizeHistory | Search/nqueens.py:263-270 | the loop builds exactly `Summary(history)` |
| NQueens.SummaryIsSubsequence | Search/nqueens.py:263-270 | the summary is a subsequence of the history starting at index 0, and no two adjacent entries have equal boards |
| NQueens.SummaryKeepsChanges | Search/nqueens.py:263-270 | every entry whose board differs from the entry before it is kept in the summary |
| NQueens.SummaryKeepsOnlyChanges | Search/nqueens.py:263-270 | every entry of the summary after the first comes from a history position whose board differs from the one before it, so only repeats of the previous board are dropped |
| NQueens.SummaryOfNoRepeats | Search/nqueens.py:263-270 | a history without adjacent repeats is its own summary |
| NQueens.SummaryIdempotent | Search/nqueens.py:263-270 | summarising twice gives the same result as summarising once |
| NPuzzle.ISqrtFromBounds | Search/npuzzle.py:15 | counting up from any root guess no greater than the square root gives the integer square root |
| NPuzzle.ISqrtBounds | Search/npuzzle.py:15 | `grid_size = int(sqrt(N + 1))` is the largest `g` with `g·g <= N + 1` |
| NPuzzle.ISqrtOfSquare | Search/npuzzle.py:15 | on a square board of `k·k` tiles the grid size is `k` |
| NPuzzle.NewState | Search/npuzzle.py:7-15 | without tiles the board is `(0, 1, …, N)`; with tiles they are kept and N is `len(tiles) - 1` |
| NPuzzle.SquareGrid | Search/npuzzle.py:11-15 | on `k·k` given tiles the grid size is `k` and the board is square |
| NPuzzle.DefaultBoard | Search/npuzzle.py:8-9 | the default board holds tile `k` at index `k`, with the blank at 0 |
| NPuzzle.NPuzzleState.Target | Search/npuzzle.py:25-50 | a slide's target index lies on the board and differs from the blank's |
| NPuzzle.SlideIsAdjacentSwap | Search/npuzzle.py:24-50 | each of the four blocks' slide swaps the blank with the one adjacent index (±1 or ±gs), changes no other index and keeps the tiles a rearrangement |
| NPuzzle.NPuzzleState.AddSlide | Search/npuzzle.py:25-50 | one guarded block appends its `(successor, action, 1)` entry exactly when its guard holds |
| NPuzzle.NPuzzleState.Successors | Search/npuzzle.py:17-52 | `successors()` builds exactly the guarded Left, Up, Right, Down entries in that order |
| NPuzzle.AppendEntry | Search/npuzzle.py:24-50 | appending the next action's entry keeps the list in Left, Up, Right, Down order |
| NPuzzle.SuccessorListOrdered | Search/npuzzle.py:21-52 | the successors number at most four, in strictly increasing Left < Up < Right < Down order |
| NPuzzle.SuccessorListSound | Search/npuzzle.py:24-50 | every successor costs 1 and is the slide its action names |
| NPuzzle.SuccessorListComplete | Search/npuzzle.py:24-50 | every slide whose guard holds appears among the successors |
| NPuzzle.SuccessorListSpec | Search/npuzzle.py:21-52 | a slide is listed exactly when its guard holds, with cost 1 and in Left, Up, Right, Down order |
| NPuzzle.SuccessorCount | Search/npuzzle.py:21-52 | on a square grid of side at least 2 there are between 2 and 4 successors |
| NPuzzle.SquareRightInBounds | Search/npuzzle.py:39-41 | on a square board the Right slide never leaves the board |
| NPuzzle.SlideMovesBlank | Search/npuzzle.py:26-48 | after a slide the blank sits at the target index and the board keeps its shape |
| NPuzzle.OppositeTarget | Search/npuzzle.py:24-50 | after a slide the opposite slide's target is the old blank index |
| NPuzzle.SlideReversible | Search/npuzzle.py:24-50 | the opposite slide undoes a slide |
| NPuzzle.SuccessorsReversible | Search/npuzzle.py:21-52 | every successor lists the original state among its own successors, via the opposite action at cost 1 |
| NPuzzle.EqualsIsTileEquality | Search/npuzzle.py:86-91 | `__eq__` and `is_goal` (lines 54-55) hold exactly when the tile tuples are equal, and are false against `None` |
| NPuzzle.HashConsistentWithEquals | Search/npuzzle.py:83-84 | states that `__eq__` calls equal have equal hashes |
| LocalSearch.BestBoard | Search/nqueens.py:59-67 | from three queens on, the best neighbour's board has N columns |
| LocalSearch.BestBoardIsBest | Search/nqueens.py:59-67 | the best neighbour is a single-column move, below N(N-1)/2, with no neighbour having fewer conflicts |
| LocalSearch.ClimbSteps | Search/local_search.py:14-22 | hill climbing accepts no more moves than the initial board has conflicts, so it terminates |
| LocalSearch.ClimbBoard | Search/local_search.py:14-22 | every board of the run has N columns |
| LocalSearch.ClimbAt | Search/local_search.py:20-22 | the run stops at step `j` exactly when the best neighbour is `>=` the current board; otherwise step `j+1` is that neighbour |
| LocalSearch.ClimbMovesToBest | Search/imgs/local_search.py:15-17 | every accepted step goes to the best neighbour and strictly lowers the conflicts |
| LocalSearch.ClimbStrictlyDecreasing | Search/imgs/local_search.py:9-17 | conflicts strictly decrease along the whole run |
| LocalSearch.ClimbEndsAtLocalOptimum | Search/local_search.py:20-21 | the returned board has no neighbour with fewer conflicts |
| LocalSearch.Advance | Search/local_search.py:20-22 | one round asks for the best neighbour and stops exactly at the last step of the run, otherwise moving to the next board |
| LocalSearch.HillClimbing.constructor | Search/local_search.py:8-9 | the history starts empty, in both copies of the engine |
| LocalSearch.HillClimbing.Search | Search/local_search.py:11-22 | `search` (identical in the older copy) keeps the earlier history and appends the initial state and then each board of the run, `ClimbSteps + 1` entries in visit order; it returns the last one |
| LocalSearch.HillClimbing.Call | Search/imgs/local_search.py:19-20 | `__call__` (identical in the newer copy) runs one search, accumulating history, and returns nothing |
| LocalSearch.MoveChangesOneColumn | Search/nqueens.py:72-80 | the random neighbour moves column `col` to a row in 1..N other than `col` and keeps every other column |
| LocalSearch.AnnealRun | Search/local_search.py:55-67 | annealing stops on a board without conflicts or when the steps are spent; every earlier board has conflicts, and each step goes to the drawn neighbour whenever that is not worse, and otherwise to it or stays |
| LocalSearch.AnnealSteps | Search/local_search.py:47-67 | annealing takes no more steps than the cooling schedule allows |
| LocalSearch.AnnealBoard | Search/local_search.py:47-67 | every board of the run has N columns |
| LocalSearch.AnnealAt | Search/local_search.py:55-67 | the run stops at step `j` exactly when the steps are spent or the board has no conflicts; otherwise step `j+1` is the accepted-or-kept neighbour |
| LocalSearch.AnnealMove | Search/local_search.py:60-65 | one round moves to the drawn neighbour if it is not worse or passes the test, and otherwise keeps the current state |
| LocalSearch.AnnealAdvance | Search/local_search.py:55-67 | one round stops exactly at the last step of the run, otherwise moving to the next board |
| LocalSearch.SimulatedAnnealing.constructor | Search/local_search.py:39-41 | history starts empty and no temperature is set |
| LocalSearch.SimulatedAnnealing.Search | Search/local_search.py:43-69 | `search` appends the initial state and each board of the run, and returns the last one; the remaining budget is what the run left |
| LocalSearch.SimulatedAnnealing.Call | Search/local_search.py:71-72 | `__call__` returns the state that `search` returns, the last board of the run |
| TspUtils.PermutationInRange | Search/tsp_utils.py:60-61 | a rearrangement of `range(N)` has N entries, each a city index |
| TspUtils.EdgeSumIsPath | Search/tsp_utils.py:66-67 | the first `n` terms of the sum are the closing edge plus the open path through the first `n` stops |
| TspUtils.TourLengthClosesCycle | Search/tsp_utils.py:64-69 | `length` sums N edges, with index -1 wrapping to the last city so the tour closes; it is the open path plus the edge back to the start |
| TspUtils.EdgeSumNonNegative | Search/tsp_utils.py:66-67 | with non-negative distances every partial sum is non-negative |
| TspUtils.TourLengthNonNegative | Search/tsp_utils.py:64-69 | with non-negative distances the length is non-negative, so after one computation the sentinel test `len < 0` fails and the cache is used |
| TspUtils.NeighborIdsFacts | Search/tsp_utils.py:79-81 | choice 1 swaps only `ids[i]` and `ids[j]`; choice 2 reverses only `ids[i..j]` inclusive; either keeps a permutation |
| TspUtils.Tour.constructor | Search/tsp_utils.py:58-62 | a new tour stores the cities and the shuffled `range(N)` as `ids`, with `len` set to the sentinel -1 |
| TspUtils.Tour.Copy | Search/tsp_utils.py:72 | the deep copy has the same cities, order and cached length |
| TspUtils.Tour.Length | Search/tsp_utils.py:64-69 | `length()` returns the cyclic sum and stores it in `len`; a stored value is returned unchanged |
| TspUtils.Tour.RandomNeighbor | Search/tsp_utils.py:71-86 | `random_neighbor()` returns a fresh tour with the swapped or segment-reversed `ids` and `len` reset to -1; the original tour is unchanged |
| TspUtils.Tour.Size | Search/tsp_utils.py:112-113 | `__len__` is the number of stops of the tour |
| Sequences.Range | Search/nqueens.py:18 | `range(lo, hi)` has `hi - lo` entries, the `k`-th being `lo + k` |
| Sequences.IndexOf | Search/utils.py:62-63 | `tiles.index(tile)` is the first position that holds the tile |
| Sequences.SwapFacts | Search/nqueens.py:183 | a swap exchanges two entries, keeps the others and rearranges the sequence |
| Sequences.ReverseSegmentFacts | Search/tsp_utils.py:81 | reversing `ids[i:j+1]` mirrors that segment, keeps the rest and rearranges the sequence |

## Left out

- Plotting, animation and printing are output only and carry no state the search uses: every `plot` method, `create_animation`, `plot_history`, `show_solution`, `print_solution`, the `verbose` branches, and the error messages printed by the empty pops.
- `timed` measures wall-clock time.
- `random.randint`, `random.shuffle`, `random.choice` and `random.random`: their results are parameters of the operations that use them (`random_state` included), and distributions are not modelled.
- Floating point: the temperature `T`, `alpha`, `tol` and `math.exp` of simulated annealing are replaced by a step count and acceptance outcomes; `Point2D.distance` is a given distance function; `int(math.sqrt(...))` is the exact integer square root.
- `SimulatedAnnealing.search` calls `clear_output`, which `Search/local_search.py` never imports, so the code as written fails on its first round; the model is the loop without that call.
- The `isinstance` checks of `__eq__`/`__ge__`: Dafny's types already fix the class of the other operand; the `is` fast path is kept.
- Priorities are `real` numbers; Python accepts any ordered priority type, and other orders are not modelled.
- `heapq` keeps its list in heap order; the model keeps the entries unordered and has `pop` take the least `(priority, index)` entry, which is what `heappop` returns.
- `__str__`/`__repr__`, including the `', '.join` of Stack and Queue, which fails on items that are not strings.
- The `generator` nature of `neighbors()`: the model returns the whole list in generation order.
- Python's `hash` of a tuple is a parameter of `NPuzzle.NPuzzleState.Hash`.
- `Tour.random_neighbor`'s `shuffle` branch: `c` is drawn from `[1, 2, 2, 2]`, so that branch cannot run, and `RandomNeighbor` requires `c` to be 1 or 2.
- `parse_latlng` and `Point2D`: CSV input and random points.
- The engines run on the row form of N-Queens only; the permutation form would drive them in the same way.
- LocalSearch.HillClimbing.Search: requires at least three queens, since with fewer queens on rows 1..N `best_neighbor` returns `None` and the `>=` test fails; a board of one or two queens with a row outside 1..N (such as `[5, 7]`, whose neighbour `[1, 7]` has no conflicts) would run normally in Python and is not modelled.
- LocalSearch.SimulatedAnnealing.Search: requires each row-draw sequence to contain a draw different from the column, standing for the retry loop ending.
- NPuzzle.NPuzzleState.Successors: requires the blank on the board and, on a board that is not square, the Right slide's index in range; `successors` on a board without a 0 tile raises ValueError from `tiles.index(0)`, and on a non-square board such as 5 tiles with the blank at index 4 (grid size 2) it raises IndexError reading `tiles[5]`; neither exception is modelled. `Target`, `Slide`, `Entry` and `SuccessorList` carry the same requirements.
- NPuzzle.NewState: requires `N >= -1` when no tiles are given; below that `math.sqrt(N + 1)` raises ValueError, which is not modelled.
- Utils.ManhattanDistance: requires the tile on both boards and a positive grid size; on a board without the tile `index` raises ValueError, and with grid size 0 the division raises ZeroDivisionError; neither is modelled.
- NQueens.NQueensState.RandomNeighbor: requires a draw different from `col`, standing for the retry loop ending, and requires `0 <= col <= N - 1`; with `N <= 0` the call `random.randint(0, self.N - 1)` raises ValueError, which is not modelled.
- NQueens.NQueensStatePermutation.RandomNeighbor: requires `0 <= i <= N - 2`; with `N <= 1` the call `random.randint(0, self.N - 2)` raises ValueError, which is not modelled.
- TspUtils.Tour.RandomNeighbor: requires `0 <= i <= N - 2`; with fewer than two cities the call `random.randint(0, self.N - 2)` raises ValueError, which is not modelled.
- NQueens.SummarizeHistory: requires a non-empty history; `summarize_history([])` raises IndexError reading `history[0]`, which is not modelled. `Summary` and its lemmas carry the same requirement.
