# 2048 expectimax move chooser

This project models `searchai.py`, which picks a move for the game 2048 on a
4×4 board. It searches an expectimax tree with two kinds of ply:

- A move ply takes the best of the four directions that change the board.
- A spawn ply averages over the empty cells: a 2 appears there with
  probability 0.9 and a 4 with probability 0.1.

At the depth limit a board gets a heuristic score. That score is the sum of
four normalised counts: empty cells, a corner score, equal neighbours, and
monotone rows and columns.

Modules:

- `Grid`: the board as a value and the cell-level helpers. These are
  transposition, flattening, `board_equals`, `get_empty_fields` (a loop that
  appends to a list), and `emit_tile` applied to `board.copy()`, which writes
  one cell of a fresh `array2<int>`.
- `Sorting`: `np.sort(...)[::-1]`, specified as a largest-first
  rearrangement that keeps duplicates. It comes with rank lemmas.
- `Extrema`: Python's `max`, `min` and `list.index` on sequences of scores.
- `Heuristics`: the four heuristics and `board_score`. Each heuristic the
  source writes as a loop is a method, proved equal to a function that
  specifies it. Range and symmetry lemmas are stated about those functions.
- `Search`: `max_depth`, `expectimax`, `score_toplevel_move` and
  `find_best_move`. The slide-and-merge of `game.merge_*` is a parameter
  `mv: (Move, Board) -> Board`. `expectimax` is a recursive function, and a
  method with the source's two loops is proved to compute it.
- `Scaling`: `normalize`, an in-place min-max rescale of an array.
  Nothing in the search calls it.

Scores are exact reals. The weights are 1, and the normalisation bounds are
0..6 (corners), 0..14 (empty fields), 0..8 (monotonicity) and 0..20
(neighbours).

The model follows the code as written, including these quirks:

- `max_depth` is given the normalised empty-field score, which is at most
  16/14, rather than the count its thresholds are written for. It therefore
  returns 4 on every board (`Search.MaxDepthIsFour`).
- The corner score's raw value reaches 12, but the normaliser's maximum is 6.
  The normalised corner score can therefore be 2.
- The two "podium" values are positions 1 and 2 of the sorted tiles, so a
  second copy of the largest tile takes the first podium place
  (`Heuristics.PodiumKeepsDuplicates`).
- In `count_neighbours`, `last` starts as `[False, False]`. Python compares
  `False` equal to 0, and both are false as a condition, so the model starts
  it at 0.
- When no direction changes the board, every top-level score is 0 and
  `find_best_move` returns the first direction, Up
  (`Search.NoLegalMoveChoosesUp`).

## Model

| member | source | states |
|---|---|---|
| Grid.Transpose | searchai.py:130 | `board.T`: cell (i, j) of the result is cell (j, i) of the board |
| Grid.TransposeInvolution | searchai.py:144 | transposing twice gives back the board |
| Grid.Flatten | searchai.py:101 | `ravel()`: 16 tiles in row-major order, and a value occurs in it exactly when some cell holds it |
| Grid.BoardEquals | searchai.py:182-183 | `board_equals` is true exactly when the two boards are equal |
| Grid.SetCell | searchai.py:173-175 | the written cell holds the new value and every other cell is unchanged |
| Grid.EmptyFieldsSpec | searchai.py:207-213 | the empty-field list holds exactly the zero cells, strictly increasing in row-major order, without duplicates, at most 16 |
| Grid.GetEmptyFields | searchai.py:207-213 | the loop builds exactly the row-major list of zero cells |
| Grid.CopyBoard | searchai.py:53-54 | `board.copy()` is a fresh array holding the board's tiles, so the original board is never written |
| Grid.EmitTile | searchai.py:173-175 | `emit_tile` writes the value at (x, y), leaves every other cell as it was, and leaves the board `SetCell` describes |
| Sorting.Insert | searchai.py:101 | inserting keeps every element and adds one |
| Sorting.InsertDescending | searchai.py:101 | inserting into a largest-first sequence keeps it largest-first |
| Sorting.SortDescending | searchai.py:101 | `np.sort(...)[::-1]` is a permutation of its input, largest first |
| Sorting.SortDescendingCounts | searchai.py:101 | sorting keeps the number of elements above or at least any value |
| Sorting.DescendingRank | searchai.py:101 | in a largest-first sequence, at most k elements exceed position k and more than k are at least it |
| Sorting.SortDescendingRank | searchai.py:101-104 | position k of the sorted tiles is the (k+1)-th largest tile, counting duplicates |
| Sorting.SortDescendingHead | searchai.py:103 | the first sorted element is a tile and at least every tile |
| Sorting.SortDescendingKeepsDuplicates | searchai.py:101-104 | when the maximum occurs twice, position 1 repeats it |
| Extrema.SeqMax | searchai.py:31 | `max` returns an element that bounds every element from above |
| Extrema.SeqMin | searchai.py:187 | `min` returns an element that bounds every element from below |
| Extrema.IndexOf | searchai.py:31 | `index` returns the first position holding the value |
| Heuristics.CountEmptyFields | searchai.py:90-96 | the counting loop returns the number of empty cells over 14 |
| Heuristics.EmptyFieldsScoreRange | searchai.py:90-96 | the empty-field score is the length of the empty-field list over 14, in [0, 16/14] |
| Heuristics.Areas | searchai.py:106-111 | the `areas` dict in its iteration order ul, ur, ll, lr: each corner tile with its two orthogonal neighbours, four areas in all |
| Heuristics.TopValue | searchai.py:101-103 | `max_value` is the first element of the descending sort of the tiles; `Heuristics.TopValueIsLargest` proves it is the largest tile |
| Heuristics.Podium | searchai.py:101-104 | `podium_values` are positions 1 and 2 of the descending sort; `Heuristics.PodiumRank` proves they are the 2nd and 3rd largest tiles |
| Heuristics.AreaRaw | searchai.py:116-122 | the raw score of a corner holding the largest tile is 3, 6 or 12: 12 exactly when every podium value is among its neighbours, 6 exactly when some but not all are, 3 otherwise |
| Heuristics.FirstCornerRaw | searchai.py:113-123 | the raw corner score is 0, 3, 6 or 12, and it is 0 exactly when no area's corner holds the top value |
| Heuristics.CornerScore | searchai.py:99-125 | the corner score is 0, 1/2, 1 or 2 |
| Heuristics.CheckCorners | searchai.py:99-125 | the loop, which stops at the first matching corner, computes the corner score |
| Heuristics.TopValueIsLargest | searchai.py:103 | the largest sorted value is at least every tile, and it is the only tile value with that property |
| Heuristics.CornerScoreZeroIff | searchai.py:115-125 | the corner score is 0 exactly when no corner holds a largest tile |
| Heuristics.CornerScoreFirstMatch | searchai.py:115-125 | the first corner (ul, ur, ll, lr) holding a largest tile decides the score: 12, 6 or 3 over 6, by how many podium values are among its neighbours |
| Heuristics.PodiumRank | searchai.py:101-104 | the podium values are the 2nd and 3rd largest tiles, counting duplicates |
| Heuristics.PodiumKeepsDuplicates | searchai.py:101-104 | a largest tile that occurs twice is also the first podium value |
| Heuristics.CornerScoreZeroOffCorner | searchai.py:115-125 | a tile larger than all four corners makes the corner score 0 |
| Heuristics.CountNeighbours | searchai.py:128-140 | the loop over rows and columns with its `last` pair counts the non-zero tiles equal to the previous tile in their row or column, over 20 |
| Heuristics.EqualRuns | searchai.py:133-137 | the number of positions 1 .. n-1 of a line holding a non-zero tile equal to the tile before it; `Heuristics.EqualRunsBound` bounds it by n-1 |
| Heuristics.EqualRunsBound | searchai.py:133-137 | a line of n tiles has at most n-1 equal pairs |
| Heuristics.NeighbourCountRange | searchai.py:128-140 | the raw neighbour count is at most 24, and the score lies in [0, 24/20] |
| Heuristics.NeighbourCountUpToBound | searchai.py:131-139 | after i rows and columns the count is at most 6·i, by induction on i |
| Heuristics.NeighbourCountTranspose | searchai.py:130-139 | transposing the board keeps the neighbour count |
| Heuristics.NeighbourCountUpToTranspose | searchai.py:130-139 | for every i, the count over the first i rows and columns is the same for the board and its transpose, by induction on i |
| Heuristics.Diff | searchai.py:170 | `np.diff` has one element fewer than its input, each the difference of two neighbours |
| Heuristics.Monotonic | searchai.py:169-171 | `monotonic`: the differences of the line are all at most 0 or all at least 0; `Heuristics.MonotonicIffSorted` proves this is being sorted one way or the other |
| Heuristics.ComputeMonotonicity | searchai.py:143-151 | the loop counts the monotone, not all-zero rows and columns, over 8 |
| Heuristics.StepsGiveOrder | searchai.py:169-171 | differences all of one sign order any two elements of the line |
| Heuristics.MonotonicIffSorted | searchai.py:169-171 | `monotonic` holds exactly when the line is non-increasing or non-decreasing |
| Heuristics.DescendingRowCounts | searchai.py:147 | the row [8, 4, 2, 0] counts as monotone |
| Heuristics.ZeroRowDoesNotCount | searchai.py:147 | the all-zero row is monotonic but does not count |
| Heuristics.PeakedRowDoesNotCount | searchai.py:147 | the row [2, 8, 4, 0] does not count |
| Heuristics.MonotonicityRange | searchai.py:143-151 | at most 8 lines count, and the score lies in [0, 1] |
| Heuristics.MonotoneUpToBound | searchai.py:146-150 | after i rows and columns at most 2·i lines count, by induction on i |
| Heuristics.MonotonicityTranspose | searchai.py:144-150 | transposing the board keeps the monotone count |
| Heuristics.MonotoneUpToTranspose | searchai.py:144-150 | for every i, the monotone count over the first i rows and columns is the same for the board and its transpose, by induction on i |
| Heuristics.BoardScore | searchai.py:73-85 | `board_score`: the sum of the corner, empty-field, neighbour and monotonicity scores, each with weight 1 |
| Heuristics.BoardScoreRange | searchai.py:73-85 | the board score lies in [0, 2 + 16/14 + 24/20 + 1] |
| Search.Code | searchai.py:15 | each direction's code is below 4 and indexes it in `[UP, DOWN, LEFT, RIGHT]` |
| Search.MaxDepth | searchai.py:196-204 | `max_depth` returns 2, 3 or 4 |
| Search.MaxDepthIsFour | searchai.py:196-204 | given the normalised empty-field score, `max_depth` returns 4 on every board |
| Search.Expectimax | searchai.py:45-68 | the value of `expectimax`. At the depth limit it is the board score. A spawn ply is the sum over the empty cells of 0.9 times the value with a 2 spawned plus 0.1 times the value with a 4, divided by the number of empty cells. A move ply is the best value of a board-changing direction, starting from 0 and replaced only by a strictly greater one. Its properties are `Search.ExpectimaxRange`, `Search.MovePlyIsMaximum` and `Search.SpawnPlyIsMean` |
| Search.RunExpectimax | searchai.py:45-47 | the method returns the value of the recursive specification `Expectimax`: the board score at the limit, otherwise the ply `probabilistic` selects |
| Search.SpawnTile | searchai.py:53-54 | `emit_tile` on `board.copy()` yields the board with that one cell set, whatever it held |
| Search.RunSpawnPly | searchai.py:48-57 | the spawn-ply loop over the empty cells, divided by their number, returns `Expectimax` of a spawn ply |
| Search.RunMovePly | searchai.py:58-68 | the move-ply loop over the four directions returns `Expectimax` of a move ply |
| Search.ExpectimaxRange | searchai.py:45-68 | every search value lies in [0, the largest board score] |
| Search.SpawnOutcomeRange | searchai.py:53-56 | the expected value of a spawn in one cell lies in that range |
| Search.SpawnTotalRange | searchai.py:49-56 | the spawn ply's running sum over n cells lies in [0, n times the largest board score] |
| Search.BestMoveScoreRange | searchai.py:59-68 | the move ply's running best lies in [0, the largest board score] |
| Search.BestMoveScoreIsMaximum | searchai.py:59-68 | the running best is at least 0 and at least every board-changing direction's value, and it equals 0 or one of those values |
| Search.MovePlyIsMaximum | searchai.py:58-68 | a move ply returns the largest value of a board-changing direction, or 0; it is 0 when no direction changes the board |
| Search.SpawnPlyIsMean | searchai.py:48-57 | a spawn ply lies between any bounds that hold for the 0.9/0.1 outcome of every empty cell |
| Search.SpawnTotalBetween | searchai.py:52-56 | with every outcome in [lo, hi], the sum over n cells lies in [n·lo, n·hi] |
| Search.ExpectimaxShift | searchai.py:45-68 | the search depends on depth and limit only through their difference |
| Search.SpawnTotalShift | searchai.py:52-56 | the spawn sum depends on depth and limit only through their difference |
| Search.BestMoveScoreShift | searchai.py:59-67 | the running best depends on depth and limit only through their difference |
| Search.ScoreToplevelMove | searchai.py:37-42 | `score_toplevel_move`: 0 when the direction leaves the board unchanged, otherwise the spawn-ply value of the moved board from the start depth 0; see `Search.ScoreToplevelMoveRange` and `Search.ToplevelScoreIsChildValue` |
| Search.ToplevelScores | searchai.py:30 | `result` has four scores, the k-th being `score_toplevel_move` of the k-th direction at the chosen depth |
| Search.FindBestMove | searchai.py:29-34 | the chosen direction's score is at least every score, and every earlier direction's score is strictly smaller |
| Search.ScoreToplevelMoveRange | searchai.py:37-42 | a direction that leaves the board unchanged scores 0, and every score lies in [0, the largest board score] |
| Search.OnlyLegalMoveIsChosen | searchai.py:29-42 | when one direction alone changes the board and scores above 0, it is chosen |
| Search.NoLegalMoveChoosesUp | searchai.py:29-34 | when no direction changes the board, `find_best_move` returns Up, the first direction |
| Search.ToplevelScoreIsChildValue | searchai.py:37-42 | a top-level score is 0 for an unchanged board, and otherwise the spawn-ply value one level down a search one deeper |
| Search.ChosenScoreIsMovePlyValue | searchai.py:29-42 | the chosen direction's score is the value of a move ply placed on top of the search |
| Scaling.Normalize | searchai.py:186-193 | the array afterwards holds the rescaled list: unchanged when all values are equal, otherwise (x - min) / (max - min) for each element |
| Scaling.RescaledAt | searchai.py:192 | each element of the rescaled list is its input element sent from [min, max] to [0, 1] |
| Scaling.RescaledRange | searchai.py:186-193 | unless all values are equal, the rescaled values lie in [0, 1], with minimum 0 and maximum 1, in the input's order |
| Scaling.RescaledIdempotent | searchai.py:186-193 | rescaling a rescaled list changes nothing |

## Left out

- `game.merge_up`, `merge_down`, `merge_left` and `merge_right` are not part of this model. They are the parameter `mv`, and two assumptions are made about them:
  - By its type, `mv` is a deterministic function that returns a new board and never writes into the board it is given. The source relies on this: if a merge wrote into `board`, the `board_equals` tests at searchai.py:39 and :62 would always be true.
  - `Search.FreesCell`: a move that changes the board leaves an empty cell.
- The `sys.exit` branch of `execute_move` cannot occur: `Search.Move` has exactly four constructors.
- `find_best_move` prints each score with `%.4f`. That output is not modelled.
- `find_best_move_random_agent` is a random choice with nothing to prove. It is not modelled.
- IEEE floating point: scores are exact reals. Ties that depend on rounding are not modelled.
- numpy's `sort`, `ravel`, `.T`, `diff` and `all` are specified by their meaning, not their implementation.
- Search.Expectimax: does not model the ZeroDivisionError of a spawn ply on a full board. It requires that the board has an empty cell and that `mv` satisfies `FreesCell`. With those, no spawn ply the search reaches is on a full board.
- Search.RunExpectimax: has the same preconditions as `Search.Expectimax`, for the same reason.
- Search.RunSpawnPly: requires an empty cell on the board, for the same reason.
- Search.RunMovePly: requires `FreesCell`, for the same reason.
- Scaling.Normalize: requires a non-empty array. Python's `min` raises on an empty list, and that error is not modelled. The array holds exact reals.
- Search cost and running time are not modelled, beyond the termination measure `max_depth - depth`.
