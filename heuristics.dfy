/**
  The four heuristics that score a board, their normalisation, and
  `board_score`, which adds them up.

  Each heuristic counts something on the board (a raw score) and divides it by
  a fixed constant; the bounds are the module constants of searchai.py and
  are not clamped. The scans the source writes as nested loops are methods,
  each proved to compute the function that specifies it; `board_score` and the
  search use those functions.
 */
module Heuristics {
  import opened Grid
  import opened Sorting

  const WeightCorners: real := 1.0
  const WeightNeighbours: real := 1.0
  const WeightMonotonicity: real := 1.0
  const WeightEmptyFields: real := 1.0

  const CornersMin: int := 0
  const CornersMax: int := 6
  const EmptyFieldsMin: int := 0
  const EmptyFieldsMax: int := 14
  const MonotonicityMin: int := 0
  const MonotonicityMax: int := 8
  const NeighboursMin: int := 0
  const NeighboursMax: int := 20

  /** `(raw - lo) / (hi - lo)` in exact arithmetic, not clamped to [0, 1]. */
  function Normalised(raw: int, lo: int, hi: int): real
    requires lo < hi
  {
    (raw - lo) as real / (hi - lo) as real
  }

  // ---------------------------------------------------------------------------
  // count_empty_fields
  // ---------------------------------------------------------------------------

  function EmptyFieldsScore(b: Board): real {
    Normalised(|EmptyFields(b)|, EmptyFieldsMin, EmptyFieldsMax)
  }

  /** `count_empty_fields`: count the zero tiles row by row, then normalise. */
  method CountEmptyFields(b: Board) returns (r: real)
    ensures r == EmptyFieldsScore(b)
  {
    var zeros := 0;
    for i := 0 to 4
      invariant zeros == |EmptiesUpTo(b, i)|
    {
      for j := 0 to 4
        invariant zeros == |EmptiesUpTo(b, i)| + |RowEmpties(b, i, j)|
      {
        if b[i][j] == 0 {
          zeros := zeros + 1;
        }
      }
    }
    r := Normalised(zeros, EmptyFieldsMin, EmptyFieldsMax);
  }

  /** The empty-field score is the number of empty cells over 14: at most 16/14. */
  lemma EmptyFieldsScoreRange(b: Board)
    ensures EmptyFieldsScore(b) == |EmptyFields(b)| as real / 14.0
    ensures 0.0 <= EmptyFieldsScore(b) <= 16.0 / 14.0
  {
    EmptyFieldsSpec(b);
  }

  // ---------------------------------------------------------------------------
  // check_corners
  // ---------------------------------------------------------------------------

  /** One entry of the source's `areas` dict: a corner tile and its two orthogonal neighbours. */
  datatype Area = Area(corner: int, neighbours: seq<int>)

  /** The `areas` dict in its iteration order: ul, ur, ll, lr. */
  function Areas(b: Board): (areas: seq<Area>)
    ensures |areas| == 4
  {
    [ Area(b[0][0], [b[1][0], b[0][1]]),
      Area(b[0][3], [b[0][2], b[1][3]]),
      Area(b[3][0], [b[3][1], b[2][0]]),
      Area(b[3][3], [b[3][2], b[2][3]]) ]
  }

  /** `sorted_board[0]`: the largest tile. */
  function TopValue(b: Board): int {
    SortDescending(Flatten(b))[0]
  }

  /** `[sorted_board[1], sorted_board[2]]`: the next two tiles, duplicates included. */
  function Podium(b: Board): seq<int> {
    var sorted := SortDescending(Flatten(b));
    [sorted[1], sorted[2]]
  }

  /** The raw score of a corner holding the largest tile. */
  function AreaRaw(a: Area, podium: seq<int>): (raw: int)
    ensures raw in {3, 6, 12}
    ensures raw == 12 <==> forall p | p in podium :: p in a.neighbours
    ensures raw == 6 <==> (exists p | p in podium :: p in a.neighbours) && !(forall p | p in podium :: p in a.neighbours)
  {
    if forall p | p in podium :: p in a.neighbours then 12
    else if exists p | p in podium :: p in a.neighbours then 6
    else 3
  }

  /** The score of the first area whose corner holds `top`; 0 if none does. */
  function FirstCornerRaw(areas: seq<Area>, top: int, podium: seq<int>): (raw: int)
    ensures raw in {0, 3, 6, 12}
    ensures raw == 0 <==> forall k :: 0 <= k < |areas| ==> areas[k].corner != top
  {
    if areas == [] then 0
    else if areas[0].corner == top then AreaRaw(areas[0], podium)
    else
      assert forall k :: 1 <= k < |areas| ==> areas[k] == areas[1..][k - 1];
      FirstCornerRaw(areas[1..], top, podium)
  }

  function CornerRaw(b: Board): int {
    FirstCornerRaw(Areas(b), TopValue(b), Podium(b))
  }

  /** The normalised corner score; since the bound is 6 and the raw score reaches 12, it reaches 2. */
  function CornerScore(b: Board): (r: real)
    ensures r in {0.0, 0.5, 1.0, 2.0}
  {
    Normalised(CornerRaw(b), CornersMin, CornersMax)
  }

  /** `check_corners`: scan the areas in order and score the first corner holding the largest tile. */
  method CheckCorners(b: Board) returns (r: real)
    ensures r == CornerScore(b)
  {
    var sorted := SortDescending(Flatten(b));
    var maxValue := sorted[0];
    var podium := [sorted[1], sorted[2]];
    var areas := Areas(b);
    var score := 0;
    for i := 0 to |areas|
      invariant score == 0
      invariant FirstCornerRaw(areas, maxValue, podium) == FirstCornerRaw(areas[i..], maxValue, podium)
    {
      if areas[i].corner == maxValue {
        if forall p | p in podium :: p in areas[i].neighbours {
          score := 12;
        } else if exists p | p in podium :: p in areas[i].neighbours {
          score := 6;
        } else {
          score := 3;
        }
        break;
      }
      assert areas[i..][1..] == areas[i + 1..];
    }
    r := Normalised(score, CornersMin, CornersMax);
  }

  /** `v` is at least every tile of the board. */
  predicate IsLargestTile(b: Board, v: int) {
    forall i, j :: 0 <= i < 4 && 0 <= j < 4 ==> b[i][j] <= v
  }

  lemma TopValueIsLargest(b: Board)
    ensures IsLargestTile(b, TopValue(b))
    ensures forall v :: (exists i, j :: 0 <= i < 4 && 0 <= j < 4 && b[i][j] == v) ==>
      (IsLargestTile(b, v) <==> v == TopValue(b))
  {
    var s := Flatten(b);
    SortDescendingHead(s);
    forall i, j | 0 <= i < 4 && 0 <= j < 4 ensures b[i][j] <= TopValue(b) {
      assert s[4 * i + j] == b[i][j] && s[4 * i + j] in s;
    }
  }

  /**
    The corner score is 0 exactly when no corner holds a largest tile of the
    board.
   */
  lemma CornerScoreZeroIff(b: Board)
    ensures CornerScore(b) == 0.0 <==>
      !IsLargestTile(b, b[0][0]) && !IsLargestTile(b, b[0][3]) &&
      !IsLargestTile(b, b[3][0]) && !IsLargestTile(b, b[3][3])
  {
    TopValueIsLargest(b);
    var areas := Areas(b);
    assert areas[0].corner == b[0][0] && areas[1].corner == b[0][3];
    assert areas[2].corner == b[3][0] && areas[3].corner == b[3][3];
  }

  /**
    The first corner in the order ul, ur, ll, lr that holds a largest tile
    decides the score: 12 when both podium values are among its neighbours,
    6 when one is, 3 when neither is.
   */
  lemma CornerScoreFirstMatch(b: Board, k: nat)
    requires k < 4
    requires forall m :: 0 <= m < k ==> !IsLargestTile(b, Areas(b)[m].corner)
    requires IsLargestTile(b, Areas(b)[k].corner)
    ensures CornerRaw(b) == AreaRaw(Areas(b)[k], Podium(b))
    ensures CornerScore(b) == AreaRaw(Areas(b)[k], Podium(b)) as real / 6.0
  {
    TopValueIsLargest(b);
    var areas, top, podium := Areas(b), TopValue(b), Podium(b);
    assert areas[0].corner == b[0][0] && areas[1].corner == b[0][3];
    assert areas[2].corner == b[3][0] && areas[3].corner == b[3][3];
    var rest := areas;
    for m := 0 to k
      invariant rest == areas[m..]
      invariant FirstCornerRaw(areas, top, podium) == FirstCornerRaw(rest, top, podium)
    {
      assert rest[0].corner != top;
      rest := rest[1..];
    }
  }

  /**
    The podium values are the second and third largest tiles counting
    duplicates: at most one tile exceeds the first and at most two the
    second, and more than one (two) tiles are at least as large.
   */
  lemma PodiumRank(b: Board)
    ensures CountAbove(Flatten(b), Podium(b)[0]) <= 1 < CountAtLeast(Flatten(b), Podium(b)[0])
    ensures CountAbove(Flatten(b), Podium(b)[1]) <= 2 < CountAtLeast(Flatten(b), Podium(b)[1])
  {
    SortDescendingRank(Flatten(b), 1);
    SortDescendingRank(Flatten(b), 2);
  }

  /**
    The podium holds tiles, not distinct values: when the largest tile occurs
    in two cells, the first podium value is that same tile.
   */
  lemma PodiumKeepsDuplicates(b: Board, i: Coord, j: Coord, k: Coord, l: Coord)
    requires i != k || j != l
    requires IsLargestTile(b, b[i][j]) && b[k][l] == b[i][j]
    ensures Podium(b)[0] == TopValue(b) == b[i][j]
  {
    TopValueIsLargest(b);
    var s := Flatten(b);
    assert s[4 * i + j] == b[i][j] && s[4 * k + l] == b[k][l];
    SortDescendingKeepsDuplicates(s, 4 * i + j, 4 * k + l);
  }

  /** A tile larger than all four corner tiles (one in the centre, say) makes the corner score 0. */
  lemma CornerScoreZeroOffCorner(b: Board, i: Coord, j: Coord)
    requires b[i][j] > b[0][0] && b[i][j] > b[0][3] && b[i][j] > b[3][0] && b[i][j] > b[3][3]
    ensures CornerScore(b) == 0.0
  {
    CornerScoreZeroIff(b);
  }

  // ---------------------------------------------------------------------------
  // count_neighbours
  // ---------------------------------------------------------------------------

  /** The positions 1 .. n - 1 of a line holding a non-zero tile equal to the tile before it. */
  function EqualRuns(line: seq<int>, n: nat): nat
    requires n <= |line|
  {
    if n <= 1 then 0
    else EqualRuns(line, n - 1) + (if line[n - 1] != 0 && line[n - 1] == line[n - 2] then 1 else 0)
  }

  /** Equal pairs in rows and columns `0 .. i - 1`. */
  function NeighbourCountUpTo(b: Board, i: nat): nat
    requires i <= 4
  {
    if i == 0 then 0
    else NeighbourCountUpTo(b, i - 1) + EqualRuns(b[i - 1], 4) + EqualRuns(Transpose(b)[i - 1], 4)
  }

  function NeighbourCount(b: Board): nat {
    NeighbourCountUpTo(b, 4)
  }

  function NeighbourScore(b: Board): real {
    Normalised(NeighbourCount(b), NeighboursMin, NeighboursMax)
  }

  /**
    `count_neighbours`: walk row i and column i together, remembering the
    previous tile of each. The source starts `last` at `False`, which Python
    compares and tests exactly like 0, so 0 stands for it here.
   */
  method CountNeighbours(b: Board) returns (r: real)
    ensures r == NeighbourScore(b)
  {
    var neighbours := 0;
    var transposed := Transpose(b);
    for i := 0 to 4
      invariant neighbours == NeighbourCountUpTo(b, i)
    {
      var lastRow, lastCol := 0, 0;
      for j := 0 to 4
        invariant neighbours == NeighbourCountUpTo(b, i) + EqualRuns(b[i], j) + EqualRuns(transposed[i], j)
        invariant lastRow == (if j == 0 then 0 else b[i][j - 1])
        invariant lastCol == (if j == 0 then 0 else transposed[i][j - 1])
      {
        if b[i][j] != 0 && lastRow != 0 && lastRow == b[i][j] {
          neighbours := neighbours + 1;
        }
        if transposed[i][j] != 0 && lastCol != 0 && lastCol == transposed[i][j] {
          neighbours := neighbours + 1;
        }
        lastRow := b[i][j];
        lastCol := transposed[i][j];
      }
    }
    r := Normalised(neighbours, NeighboursMin, NeighboursMax);
  }

  lemma {:induction false} EqualRunsBound(line: seq<int>, n: nat)
    requires 0 < n <= |line|
    ensures EqualRuns(line, n) <= n - 1
  {
    if n > 1 {
      EqualRunsBound(line, n - 1);
    }
  }

  /** At most 3 pairs in each of 4 rows and 4 columns: the raw count is at most 24. */
  lemma NeighbourCountRange(b: Board)
    ensures NeighbourCount(b) <= 24
    ensures 0.0 <= NeighbourScore(b) <= 24.0 / 20.0
  {
    NeighbourCountUpToBound(b, 4);
  }

  lemma {:induction false} NeighbourCountUpToBound(b: Board, i: nat)
    requires i <= 4
    ensures NeighbourCountUpTo(b, i) <= 6 * i
  {
    if i > 0 {
      NeighbourCountUpToBound(b, i - 1);
      EqualRunsBound(b[i - 1], 4);
      EqualRunsBound(Transpose(b)[i - 1], 4);
    }
  }

  /** Rows and columns play symmetric roles: transposing the board keeps the count. */
  lemma NeighbourCountTranspose(b: Board)
    ensures NeighbourCount(Transpose(b)) == NeighbourCount(b)
  {
    NeighbourCountUpToTranspose(b, 4);
  }

  lemma {:induction false} NeighbourCountUpToTranspose(b: Board, i: nat)
    requires i <= 4
    ensures NeighbourCountUpTo(Transpose(b), i) == NeighbourCountUpTo(b, i)
  {
    if i > 0 {
      NeighbourCountUpToTranspose(b, i - 1);
      TransposeInvolution(b);
    }
  }

  // ---------------------------------------------------------------------------
  // compute_monoticity
  // ---------------------------------------------------------------------------

  /** `np.diff`: the differences of neighbouring elements. */
  function Diff(x: seq<int>): (d: seq<int>)
    ensures |d| == if |x| == 0 then 0 else |x| - 1
    ensures forall k :: 0 <= k < |d| ==> d[k] == x[k + 1] - x[k]
  {
    if |x| <= 1 then [] else seq(|x| - 1, k requires 0 <= k < |x| - 1 => x[k + 1] - x[k])
  }

  /** `monotonic`: the differences are all at most 0 or all at least 0. */
  predicate Monotonic(x: seq<int>) {
    var dx := Diff(x);
    (forall k :: 0 <= k < |dx| ==> dx[k] <= 0) || (forall k :: 0 <= k < |dx| ==> dx[k] >= 0)
  }

  predicate NonIncreasing(x: seq<int>) {
    forall i, j :: 0 <= i <= j < |x| ==> x[i] >= x[j]
  }

  predicate NonDecreasing(x: seq<int>) {
    forall i, j :: 0 <= i <= j < |x| ==> x[i] <= x[j]
  }

  /** `np.all(x == 0)`. */
  predicate AllZero(x: seq<int>) {
    forall k :: 0 <= k < |x| ==> x[k] == 0
  }

  /** A line `compute_monoticity` counts: monotonic and not all zero. */
  predicate CountsAsMonotone(x: seq<int>) {
    Monotonic(x) && !AllZero(x)
  }

  /** Monotone rows and columns among `0 .. i - 1`. */
  function MonotoneUpTo(b: Board, i: nat): nat
    requires i <= 4
  {
    if i == 0 then 0
    else
      var row := if CountsAsMonotone(b[i - 1]) then 1 else 0;
      var column := if CountsAsMonotone(Transpose(b)[i - 1]) then 1 else 0;
      MonotoneUpTo(b, i - 1) + row + column
  }

  function MonotonicityCount(b: Board): nat {
    MonotoneUpTo(b, 4)
  }

  function MonotonicityScore(b: Board): real {
    Normalised(MonotonicityCount(b), MonotonicityMin, MonotonicityMax)
  }

  /** `compute_monoticity`: one point per monotone, not all-zero row and column. */
  method ComputeMonotonicity(b: Board) returns (r: real)
    ensures r == MonotonicityScore(b)
  {
    var transposed := Transpose(b);
    var score := 0;
    for i := 0 to 4
      invariant score == MonotoneUpTo(b, i)
    {
      if Monotonic(b[i]) && !AllZero(b[i]) {
        score := score + 1;
      }
      if Monotonic(transposed[i]) && !AllZero(transposed[i]) {
        score := score + 1;
      }
    }
    r := Normalised(score, MonotonicityMin, MonotonicityMax);
  }

  lemma {:induction false} StepsGiveOrder(x: seq<int>, i: nat, j: nat)
    requires i <= j < |x|
    ensures (forall k :: 0 <= k < |x| - 1 ==> x[k + 1] <= x[k]) ==> x[i] >= x[j]
    ensures (forall k :: 0 <= k < |x| - 1 ==> x[k + 1] >= x[k]) ==> x[i] <= x[j]
    decreases j - i
  {
    if i < j {
      StepsGiveOrder(x, i + 1, j);
    }
  }

  /** Monotonic in the sense of `np.diff` is the same as sorted one way or the other. */
  lemma MonotonicIffSorted(x: seq<int>)
    ensures Monotonic(x) <==> NonIncreasing(x) || NonDecreasing(x)
  {
    var dx := Diff(x);
    if forall k :: 0 <= k < |dx| ==> dx[k] <= 0 {
      forall i, j | 0 <= i <= j < |x| ensures x[i] >= x[j] {
        StepsGiveOrder(x, i, j);
      }
    }
    if forall k :: 0 <= k < |dx| ==> dx[k] >= 0 {
      forall i, j | 0 <= i <= j < |x| ensures x[i] <= x[j] {
        StepsGiveOrder(x, i, j);
      }
    }
    if NonIncreasing(x) {
      assert forall k :: 0 <= k < |dx| ==> x[k + 1] <= x[k];
    }
    if NonDecreasing(x) {
      assert forall k :: 0 <= k < |dx| ==> x[k + 1] >= x[k];
    }
  }

  /** The row [8, 4, 2, 0] counts as monotone. */
  lemma DescendingRowCounts()
    ensures CountsAsMonotone([8, 4, 2, 0])
  {
    var down := [8, 4, 2, 0];
    assert Diff(down) == [-4, -2, -2];
    assert down[0] != 0;
  }
  /** The all-zero row is monotonic but does not count. */
  lemma ZeroRowDoesNotCount()
    ensures Monotonic([0, 0, 0, 0]) && !CountsAsMonotone([0, 0, 0, 0])
  {
    var flat := [0, 0, 0, 0];
    assert forall k :: 0 <= k < |Diff(flat)| ==> Diff(flat)[k] == flat[k + 1] - flat[k] == 0;
  }
  /** A row that rises and then falls does not count. */
  lemma PeakedRowDoesNotCount()
    ensures !CountsAsMonotone([2, 8, 4, 0])
  {
    var peak := [2, 8, 4, 0];
    assert Diff(peak) == [6, -4, -4];
    assert Diff(peak)[0] > 0 && Diff(peak)[1] < 0;
  }

  /** At most 8 lines count, so the score lies in [0, 1]. */
  lemma MonotonicityRange(b: Board)
    ensures MonotonicityCount(b) <= 8
    ensures 0.0 <= MonotonicityScore(b) <= 1.0
  {
    MonotoneUpToBound(b, 4);
  }

  lemma {:induction false} MonotoneUpToBound(b: Board, i: nat)
    requires i <= 4
    ensures MonotoneUpTo(b, i) <= 2 * i
  {
    if i > 0 {
      MonotoneUpToBound(b, i - 1);
    }
  }

  /** Rows and columns play symmetric roles: transposing the board keeps the count. */
  lemma MonotonicityTranspose(b: Board)
    ensures MonotonicityCount(Transpose(b)) == MonotonicityCount(b)
  {
    MonotoneUpToTranspose(b, 4);
  }

  lemma {:induction false} MonotoneUpToTranspose(b: Board, i: nat)
    requires i <= 4
    ensures MonotoneUpTo(Transpose(b), i) == MonotoneUpTo(b, i)
  {
    if i > 0 {
      MonotoneUpToTranspose(b, i - 1);
      TransposeInvolution(b);
    }
  }

  // ---------------------------------------------------------------------------
  // board_score
  // ---------------------------------------------------------------------------

  /** `board_score`: the weighted sum of the four heuristics (every weight is 1). */
  function BoardScore(b: Board): real {
    WeightCorners * CornerScore(b)
      + WeightEmptyFields * EmptyFieldsScore(b)
      + WeightNeighbours * NeighbourScore(b)
      + WeightMonotonicity * MonotonicityScore(b)
  }

  /** The largest value the four normalised heuristics can add up to. */
  const MaxBoardScore: real := 2.0 + 16.0 / 14.0 + 24.0 / 20.0 + 1.0

  lemma BoardScoreRange(b: Board)
    ensures 0.0 <= BoardScore(b) <= MaxBoardScore
  {
    EmptyFieldsScoreRange(b);
    NeighbourCountRange(b);
    MonotonicityRange(b);
  }
}
