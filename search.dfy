/**
  The expectimax search of searchai.py and the choice of a move.

  The search alternates a move ply, which takes the best of the four
  directions that change the board, with a spawn ply, which averages over the
  empty cells the outcome of a 2 (probability 0.9) or a 4 (probability 0.1)
  appearing there. At the depth limit it scores the board with BoardScore.
  Scores are exact reals.

  The slide-and-merge of a direction (`game.merge_up` and its siblings) is
  not part of this model: it is the parameter `mv`. Its type makes it a
  deterministic function that returns a new board and never writes into the
  one it is given (the source relies on that when it compares the two with
  `board_equals`); beyond that, only FreesCell is assumed.
 */
module Search {
  import opened Grid
  import opened Heuristics
  import opened Extrema

  /** The four directions; the source's fifth, invalid case cannot be written. */
  datatype Move = Up | Down | Left | Right

  /** The directions in the order the source tries them, `[UP, DOWN, LEFT, RIGHT]`. */
  const Moves: seq<Move> := [Up, Down, Left, Right]

  /** The integer the source uses for a direction: its position in Moves. */
  function Code(m: Move): (k: nat)
    ensures k < 4 && Moves[k] == m
  {
    match m
    case Up => 0
    case Down => 1
    case Left => 2
    case Right => 3
  }

  /** `execute_move`: the external slide-and-merge, selected by direction. */
  type MoveFunction = (Move, Board) -> Board

  /**
    Every move that changes a board leaves an empty cell behind: either a tile
    slid into an empty cell, which leaves the cell it came from empty, or two
    tiles merged. The game's slide-and-merge has this property; the search
    needs it so that no spawn ply it reaches divides by zero.
   */
  ghost predicate FreesCell(mv: MoveFunction) {
    forall m, b :: mv(m, b) != b ==> HasEmptyCell(mv(m, b))
  }

  const ExpectimaxStartDepth: nat := 0

  // ---------------------------------------------------------------------------
  // max_depth
  // ---------------------------------------------------------------------------

  /**
    `max_depth`. Its thresholds are written for a number of empty cells, but
    the source feeds it the normalised score of count_empty_fields.
   */
  function MaxDepth(b: Board): (d: nat)
    ensures d in {2, 3, 4}
  {
    var numberEmptyFields := EmptyFieldsScore(b);
    if numberEmptyFields > 6.0 then 2
    else if numberEmptyFields > 2.0 then 3
    else 4
  }

  /** The normalised empty-field score is at most 16/14, below 2: every board gets depth 4. */
  lemma MaxDepthIsFour(b: Board)
    ensures MaxDepth(b) == 4
  {
    EmptyFieldsScoreRange(b);
  }

  // ---------------------------------------------------------------------------
  // expectimax, as a function
  // ---------------------------------------------------------------------------

  /**
    The value `expectimax(board, depth, max_depth, probabilistic)` returns.
    A spawn ply below the limit needs an empty cell: the source divides by
    the number of empty cells without a guard.
   */
  function Expectimax(mv: MoveFunction, b: Board, depth: nat, maxDepth: nat, probabilistic: bool): real
    requires depth <= maxDepth && FreesCell(mv)
    requires probabilistic && depth < maxDepth ==> HasEmptyCell(b)
    decreases maxDepth - depth, 1, 0
  {
    if depth == maxDepth then BoardScore(b)
    else if probabilistic then
      var emptyFields := EmptyFields(b);
      SpawnTotal(mv, b, depth, maxDepth, emptyFields) / |emptyFields| as real
    else BestMoveScore(mv, b, depth, maxDepth, Moves)
  }

  /** The expected value of a tile spawning in cell `c`: 0.9 for a 2, 0.1 for a 4. */
  function SpawnOutcome(mv: MoveFunction, b: Board, depth: nat, maxDepth: nat, c: Cell): real
    requires depth < maxDepth && FreesCell(mv)
    decreases maxDepth - depth, 0, 0
  {
    0.9 * Expectimax(mv, SetCell(b, c, 2), depth + 1, maxDepth, false)
      + 0.1 * Expectimax(mv, SetCell(b, c, 4), depth + 1, maxDepth, false)
  }

  /** The spawn ply's running `score` after the cells `cells`. */
  function SpawnTotal(mv: MoveFunction, b: Board, depth: nat, maxDepth: nat, cells: seq<Cell>): real
    requires depth < maxDepth && FreesCell(mv)
    decreases maxDepth - depth, 0, |cells| + 1
  {
    if cells == [] then 0.0
    else
      SpawnTotal(mv, b, depth, maxDepth, cells[..|cells| - 1])
        + SpawnOutcome(mv, b, depth, maxDepth, cells[|cells| - 1])
  }

  /**
    The move ply's running `best_score` after trying the directions `moves`:
    a direction that leaves the board unchanged is skipped, and only a
    strictly greater score replaces the best so far.
   */
  function BestMoveScore(mv: MoveFunction, b: Board, depth: nat, maxDepth: nat, moves: seq<Move>): real
    requires depth < maxDepth && FreesCell(mv)
    decreases maxDepth - depth, 0, |moves|
  {
    if moves == [] then 0.0
    else
      var bestScore := BestMoveScore(mv, b, depth, maxDepth, moves[..|moves| - 1]);
      var newBoard := mv(moves[|moves| - 1], b);
      if BoardEquals(b, newBoard) then bestScore
      else
        var score := Expectimax(mv, newBoard, depth + 1, maxDepth, true);
        if score > bestScore then score else bestScore
  }

  // ---------------------------------------------------------------------------
  // expectimax, as the source computes it
  // ---------------------------------------------------------------------------

  /** `expectimax`: score the board at the limit, otherwise run the ply `probabilistic` selects. */
  method RunExpectimax(mv: MoveFunction, board: Board, depth: nat, maxDepth: nat, probabilistic: bool)
    returns (score: real)
    requires depth <= maxDepth && FreesCell(mv)
    requires probabilistic && depth < maxDepth ==> HasEmptyCell(board)
    ensures score == Expectimax(mv, board, depth, maxDepth, probabilistic)
    decreases maxDepth - depth, 2
  {
    if depth == maxDepth {
      score := BoardScore(board);
    } else if probabilistic {
      score := RunSpawnPly(mv, board, depth, maxDepth);
    } else {
      score := RunMovePly(mv, board, depth, maxDepth);
    }
  }

  /** `emit_tile(board.copy(), val, i, j)`, read back as a board. */
  method SpawnTile(board: Board, c: Cell, val: int) returns (spawned: Board)
    ensures spawned == SetCell(board, c, val)
  {
    var copy := CopyBoard(board);
    EmitTile(copy, val, c.row, c.col);
    spawned := Cells(copy);
  }

  /**
    The spawn ply of `expectimax`: for each empty cell, add 0.9 times the
    value of a 2 spawning there and 0.1 times that of a 4, each in its own
    copy of the board; then divide by the number of empty cells.
   */
  method RunSpawnPly(mv: MoveFunction, board: Board, depth: nat, maxDepth: nat) returns (score: real)
    requires depth < maxDepth && FreesCell(mv) && HasEmptyCell(board)
    ensures score == Expectimax(mv, board, depth, maxDepth, true)
    decreases maxDepth - depth, 1
  {
    score := 0.0;
    var emptyFields := GetEmptyFields(board);
    var lenEmptyFields := |emptyFields|;
    for i := 0 to lenEmptyFields
      invariant score == SpawnTotal(mv, board, depth, maxDepth, emptyFields[..i])
    {
      var board2Spawn := SpawnTile(board, emptyFields[i], 2);
      var board4Spawn := SpawnTile(board, emptyFields[i], 4);
      var v2 := RunExpectimax(mv, board2Spawn, depth + 1, maxDepth, false);
      score := score + 0.9 * v2;
      var v4 := RunExpectimax(mv, board4Spawn, depth + 1, maxDepth, false);
      score := score + 0.1 * v4;
      assert emptyFields[..i + 1][..i] == emptyFields[..i];
      assert SpawnTotal(mv, board, depth, maxDepth, emptyFields[..i + 1])
        == SpawnTotal(mv, board, depth, maxDepth, emptyFields[..i]) + SpawnOutcome(mv, board, depth, maxDepth, emptyFields[i]);
    }
    assert emptyFields[..lenEmptyFields] == emptyFields;
    score := score / lenEmptyFields as real;
  }

  /**
    The move ply of `expectimax`: skip each direction that leaves the board
    unchanged and keep the largest score of the others, starting from 0.
   */
  method RunMovePly(mv: MoveFunction, board: Board, depth: nat, maxDepth: nat) returns (score: real)
    requires depth < maxDepth && FreesCell(mv)
    ensures score == Expectimax(mv, board, depth, maxDepth, false)
    decreases maxDepth - depth, 1
  {
    var bestScore := 0.0;
    for i := 0 to 4
      invariant bestScore == BestMoveScore(mv, board, depth, maxDepth, Moves[..i])
    {
      assert Moves[..i + 1][..i] == Moves[..i];
      var newBoard := mv(Moves[i], board);
      if BoardEquals(board, newBoard) {
        continue;
      }
      var s := RunExpectimax(mv, newBoard, depth + 1, maxDepth, true);
      if s > bestScore {
        bestScore := s;
      }
    }
    assert Moves[..4] == Moves;
    score := bestScore;
  }

  // ---------------------------------------------------------------------------
  // What the search computes
  // ---------------------------------------------------------------------------

  /** Every value of the search lies between 0 and the largest possible board score. */
  lemma {:induction false} ExpectimaxRange(mv: MoveFunction, b: Board, depth: nat, maxDepth: nat, probabilistic: bool)
    requires depth <= maxDepth && FreesCell(mv)
    requires probabilistic && depth < maxDepth ==> HasEmptyCell(b)
    ensures 0.0 <= Expectimax(mv, b, depth, maxDepth, probabilistic) <= MaxBoardScore
    decreases maxDepth - depth, 1, 0
  {
    if depth == maxDepth {
      BoardScoreRange(b);
    } else if probabilistic {
      var cells := EmptyFields(b);
      SpawnTotalRange(mv, b, depth, maxDepth, cells);
      MeanRange(SpawnTotal(mv, b, depth, maxDepth, cells), |cells| as real, 0.0, MaxBoardScore);
    } else {
      BestMoveScoreRange(mv, b, depth, maxDepth, Moves);
    }
  }

  lemma {:induction false} SpawnOutcomeRange(mv: MoveFunction, b: Board, depth: nat, maxDepth: nat, c: Cell)
    requires depth < maxDepth && FreesCell(mv)
    ensures 0.0 <= SpawnOutcome(mv, b, depth, maxDepth, c) <= MaxBoardScore
    decreases maxDepth - depth, 0, 0
  {
    ExpectimaxRange(mv, SetCell(b, c, 2), depth + 1, maxDepth, false);
    ExpectimaxRange(mv, SetCell(b, c, 4), depth + 1, maxDepth, false);
  }

  lemma {:induction false} SpawnTotalRange(mv: MoveFunction, b: Board, depth: nat, maxDepth: nat, cells: seq<Cell>)
    requires depth < maxDepth && FreesCell(mv)
    ensures 0.0 <= SpawnTotal(mv, b, depth, maxDepth, cells) <= |cells| as real * MaxBoardScore
    decreases maxDepth - depth, 0, |cells| + 1
  {
    if cells != [] {
      SpawnTotalRange(mv, b, depth, maxDepth, cells[..|cells| - 1]);
      SpawnOutcomeRange(mv, b, depth, maxDepth, cells[|cells| - 1]);
    }
  }

  lemma {:induction false} BestMoveScoreRange(mv: MoveFunction, b: Board, depth: nat, maxDepth: nat, moves: seq<Move>)
    requires depth < maxDepth && FreesCell(mv)
    ensures 0.0 <= BestMoveScore(mv, b, depth, maxDepth, moves) <= MaxBoardScore
    decreases maxDepth - depth, 0, |moves|
  {
    if moves != [] {
      BestMoveScoreRange(mv, b, depth, maxDepth, moves[..|moves| - 1]);
      var newBoard := mv(moves[|moves| - 1], b);
      if newBoard != b {
        ExpectimaxRange(mv, newBoard, depth + 1, maxDepth, true);
      }
    }
  }

  /** A total of n values, each between lo and hi, divided by n lies between lo and hi. */
  lemma MeanRange(total: real, n: real, lo: real, hi: real)
    requires n > 0.0 && n * lo <= total <= n * hi
    ensures lo <= total / n <= hi
  {
    assert total / n * n == total;
  }

  /**
    The move ply's running best over a list of directions: at least 0, at
    least the value of every direction that changes the board, and equal
    either to 0 or to the value of one such direction.
   */
  lemma {:induction false} BestMoveScoreIsMaximum(mv: MoveFunction, b: Board, depth: nat, maxDepth: nat, moves: seq<Move>)
    requires depth < maxDepth && FreesCell(mv)
    ensures BestMoveScore(mv, b, depth, maxDepth, moves) >= 0.0
    ensures forall k :: 0 <= k < |moves| && mv(moves[k], b) != b ==>
      Expectimax(mv, mv(moves[k], b), depth + 1, maxDepth, true) <= BestMoveScore(mv, b, depth, maxDepth, moves)
    ensures BestMoveScore(mv, b, depth, maxDepth, moves) == 0.0 ||
      exists k :: 0 <= k < |moves| && mv(moves[k], b) != b &&
        BestMoveScore(mv, b, depth, maxDepth, moves) == Expectimax(mv, mv(moves[k], b), depth + 1, maxDepth, true)
    decreases |moves|
  {
    if moves != [] {
      var prefix := moves[..|moves| - 1];
      BestMoveScoreIsMaximum(mv, b, depth, maxDepth, prefix);
      assert forall k :: 0 <= k < |prefix| ==> moves[k] == prefix[k];
    }
  }

  /**
    A move ply returns the largest value among the directions that change
    the board, and 0 when there is none (or when every such value is 0).
   */
  lemma MovePlyIsMaximum(mv: MoveFunction, b: Board, depth: nat, maxDepth: nat)
    requires depth < maxDepth && FreesCell(mv)
    ensures Expectimax(mv, b, depth, maxDepth, false) >= 0.0
    ensures forall m :: mv(m, b) != b ==>
      Expectimax(mv, mv(m, b), depth + 1, maxDepth, true) <= Expectimax(mv, b, depth, maxDepth, false)
    ensures Expectimax(mv, b, depth, maxDepth, false) == 0.0 ||
      exists m :: mv(m, b) != b &&
        Expectimax(mv, b, depth, maxDepth, false) == Expectimax(mv, mv(m, b), depth + 1, maxDepth, true)
    ensures (forall m :: mv(m, b) == b) ==> Expectimax(mv, b, depth, maxDepth, false) == 0.0
  {
    BestMoveScoreIsMaximum(mv, b, depth, maxDepth, Moves);
    forall m | mv(m, b) != b
      ensures Expectimax(mv, mv(m, b), depth + 1, maxDepth, true) <= Expectimax(mv, b, depth, maxDepth, false)
    {
      assert Moves[Code(m)] == m;
    }
  }

  /**
    A spawn ply is a mean: when the expected outcome of every empty cell lies
    between lo and hi, so does the ply's value.
   */
  lemma SpawnPlyIsMean(mv: MoveFunction, b: Board, depth: nat, maxDepth: nat, lo: real, hi: real)
    requires depth < maxDepth && FreesCell(mv) && HasEmptyCell(b)
    requires forall k :: 0 <= k < |EmptyFields(b)| ==> lo <= SpawnOutcome(mv, b, depth, maxDepth, EmptyFields(b)[k]) <= hi
    ensures lo <= Expectimax(mv, b, depth, maxDepth, true) <= hi
  {
    var cells := EmptyFields(b);
    SpawnTotalBetween(mv, b, depth, maxDepth, cells, lo, hi);
    SpawnPlyValue(mv, b, depth, maxDepth);
    MeanRange(SpawnTotal(mv, b, depth, maxDepth, cells), |cells| as real, lo, hi);
  }

  lemma SpawnPlyValue(mv: MoveFunction, b: Board, depth: nat, maxDepth: nat)
    requires depth < maxDepth && FreesCell(mv) && HasEmptyCell(b)
    ensures Expectimax(mv, b, depth, maxDepth, true)
      == SpawnTotal(mv, b, depth, maxDepth, EmptyFields(b)) / |EmptyFields(b)| as real
  {
  }

  lemma {:induction false} SpawnTotalBetween(mv: MoveFunction, b: Board, depth: nat, maxDepth: nat, cells: seq<Cell>, lo: real, hi: real)
    requires depth < maxDepth && FreesCell(mv)
    requires forall k :: 0 <= k < |cells| ==> lo <= SpawnOutcome(mv, b, depth, maxDepth, cells[k]) <= hi
    ensures |cells| as real * lo <= SpawnTotal(mv, b, depth, maxDepth, cells) <= |cells| as real * hi
    decreases |cells|
  {
    if cells != [] {
      var n := |cells| - 1;
      var prefix := cells[..n];
      assert forall k :: 0 <= k < |prefix| ==> prefix[k] == cells[k];
      SpawnTotalBetween(mv, b, depth, maxDepth, prefix, lo, hi);
      assert |cells| as real * lo == n as real * lo + lo;
      assert |cells| as real * hi == n as real * hi + hi;
    }
  }

  /** The search depends on depth and limit only through their difference. */
  lemma {:induction false} ExpectimaxShift(mv: MoveFunction, b: Board, depth: nat, maxDepth: nat, probabilistic: bool)
    requires depth <= maxDepth && FreesCell(mv)
    requires probabilistic && depth < maxDepth ==> HasEmptyCell(b)
    ensures Expectimax(mv, b, depth, maxDepth, probabilistic) == Expectimax(mv, b, depth + 1, maxDepth + 1, probabilistic)
    decreases maxDepth - depth, 1, 0
  {
    if depth < maxDepth {
      if probabilistic {
        SpawnTotalShift(mv, b, depth, maxDepth, EmptyFields(b));
      } else {
        BestMoveScoreShift(mv, b, depth, maxDepth, Moves);
      }
    }
  }

  lemma {:induction false} SpawnTotalShift(mv: MoveFunction, b: Board, depth: nat, maxDepth: nat, cells: seq<Cell>)
    requires depth < maxDepth && FreesCell(mv)
    ensures SpawnTotal(mv, b, depth, maxDepth, cells) == SpawnTotal(mv, b, depth + 1, maxDepth + 1, cells)
    decreases maxDepth - depth, 0, |cells| + 1
  {
    if cells != [] {
      var c := cells[|cells| - 1];
      SpawnTotalShift(mv, b, depth, maxDepth, cells[..|cells| - 1]);
      ExpectimaxShift(mv, SetCell(b, c, 2), depth + 1, maxDepth, false);
      ExpectimaxShift(mv, SetCell(b, c, 4), depth + 1, maxDepth, false);
    }
  }

  lemma {:induction false} BestMoveScoreShift(mv: MoveFunction, b: Board, depth: nat, maxDepth: nat, moves: seq<Move>)
    requires depth < maxDepth && FreesCell(mv)
    ensures BestMoveScore(mv, b, depth, maxDepth, moves) == BestMoveScore(mv, b, depth + 1, maxDepth + 1, moves)
    decreases maxDepth - depth, 0, |moves|
  {
    if moves != [] {
      BestMoveScoreShift(mv, b, depth, maxDepth, moves[..|moves| - 1]);
      var newBoard := mv(moves[|moves| - 1], b);
      if newBoard != b {
        ExpectimaxShift(mv, newBoard, depth + 1, maxDepth, true);
      }
    }
  }

  // ---------------------------------------------------------------------------
  // score_toplevel_move and find_best_move
  // ---------------------------------------------------------------------------

  /**
    `score_toplevel_move`: 0 for a direction that leaves the board unchanged,
    otherwise the value of a spawn ply on the moved board from the start depth.
   */
  function ScoreToplevelMove(mv: MoveFunction, m: Move, b: Board, maxDepth: nat): real
    requires FreesCell(mv)
  {
    var newBoard := mv(m, b);
    if BoardEquals(b, newBoard) then 0.0
    else Expectimax(mv, newBoard, ExpectimaxStartDepth, maxDepth, true)
  }

  /** The list `result` of `find_best_move`: one score per direction, depth chosen once. */
  function ToplevelScores(mv: MoveFunction, b: Board): (result: seq<real>)
    requires FreesCell(mv)
    ensures |result| == 4
    ensures forall k :: 0 <= k < 4 ==> result[k] == ScoreToplevelMove(mv, Moves[k], b, MaxDepth(b))
  {
    var depth := MaxDepth(b);
    [ ScoreToplevelMove(mv, Up, b, depth), ScoreToplevelMove(mv, Down, b, depth),
      ScoreToplevelMove(mv, Left, b, depth), ScoreToplevelMove(mv, Right, b, depth) ]
  }

  /**
    `find_best_move`: `result.index(max(result))`, the first direction whose
    score is the largest.
   */
  function FindBestMove(mv: MoveFunction, b: Board): (bestMove: Move)
    requires FreesCell(mv)
    ensures forall k :: 0 <= k < 4 ==> ToplevelScores(mv, b)[k] <= ToplevelScores(mv, b)[Code(bestMove)]
    ensures forall k :: 0 <= k < Code(bestMove) ==> ToplevelScores(mv, b)[k] < ToplevelScores(mv, b)[Code(bestMove)]
  {
    var result := ToplevelScores(mv, b);
    Moves[IndexOf(result, SeqMax(result))]
  }

  /**
    When no direction changes the board (the game is over), every score is 0
    and `result.index(max(result))` is 0: the choice falls back to Up.
   */
  lemma NoLegalMoveChoosesUp(mv: MoveFunction, b: Board)
    requires FreesCell(mv)
    requires forall m :: mv(m, b) == b
    ensures FindBestMove(mv, b) == Up
  {
    var best := FindBestMove(mv, b);
    var scores := ToplevelScores(mv, b);
    forall k | 0 <= k < 4 ensures scores[k] == 0.0 {
      assert mv(Moves[k], b) == b;
    }
    assert scores[0] == scores[Code(best)];
  }

  /** A direction that leaves the board unchanged scores 0; every score lies in [0, MaxBoardScore]. */
  lemma ScoreToplevelMoveRange(mv: MoveFunction, m: Move, b: Board, maxDepth: nat)
    requires FreesCell(mv)
    ensures mv(m, b) == b ==> ScoreToplevelMove(mv, m, b, maxDepth) == 0.0
    ensures 0.0 <= ScoreToplevelMove(mv, m, b, maxDepth) <= MaxBoardScore
  {
    if mv(m, b) != b {
      ExpectimaxRange(mv, mv(m, b), ExpectimaxStartDepth, maxDepth, true);
    }
  }

  /**
    When exactly one direction changes the board and its score is positive,
    find_best_move chooses it. (A direction whose score is 0 ties with the
    unchanged ones and loses to any of them that comes first.)
   */
  lemma OnlyLegalMoveIsChosen(mv: MoveFunction, b: Board, m: Move)
    requires FreesCell(mv)
    requires mv(m, b) != b && forall other :: other != m ==> mv(other, b) == b
    requires ScoreToplevelMove(mv, m, b, MaxDepth(b)) > 0.0
    ensures FindBestMove(mv, b) == m
  {
    var best := FindBestMove(mv, b);
    var scores := ToplevelScores(mv, b);
    assert scores[Code(m)] > 0.0;
    forall other | other != m ensures scores[Code(other)] == 0.0 {
      assert mv(other, b) == b;
    }
    assert scores[Code(best)] >= scores[Code(m)];
  }

  /** A top-level score is the value a move ply one level above the search gives that direction. */
  lemma ToplevelScoreIsChildValue(mv: MoveFunction, m: Move, b: Board, maxDepth: nat)
    requires FreesCell(mv)
    ensures 0.0 <= ScoreToplevelMove(mv, m, b, maxDepth)
    ensures mv(m, b) == b ==> ScoreToplevelMove(mv, m, b, maxDepth) == 0.0
    ensures mv(m, b) != b ==>
      ScoreToplevelMove(mv, m, b, maxDepth) == Expectimax(mv, mv(m, b), 1, maxDepth + 1, true)
  {
    ScoreToplevelMoveRange(mv, m, b, maxDepth);
    if mv(m, b) != b {
      ExpectimaxShift(mv, mv(m, b), 0, maxDepth, true);
    }
  }

  /**
    The top-level ranking is one more move ply: the score of the chosen
    direction is the value a move ply would have one level above the search,
    that is, the largest score of a direction that changes the board, or 0.
   */
  lemma ChosenScoreIsMovePlyValue(mv: MoveFunction, b: Board)
    requires FreesCell(mv)
    ensures ScoreToplevelMove(mv, FindBestMove(mv, b), b, MaxDepth(b))
      == Expectimax(mv, b, ExpectimaxStartDepth, MaxDepth(b) + 1, false)
  {
    var depth := MaxDepth(b);
    var scores := ToplevelScores(mv, b);
    var value := Expectimax(mv, b, 0, depth + 1, false);
    MovePlyIsMaximum(mv, b, 0, depth + 1);
    forall k | 0 <= k < 4 ensures 0.0 <= scores[k] <= value {
      ToplevelScoreIsChildValue(mv, Moves[k], b, depth);
    }
    var chosen := scores[Code(FindBestMove(mv, b))];
    assert chosen <= value;
    if value != 0.0 {
      var m :| mv(m, b) != b && value == Expectimax(mv, mv(m, b), 1, depth + 1, true);
      ToplevelScoreIsChildValue(mv, m, b, depth);
      assert scores[Code(m)] == value;
    }
  }
}
