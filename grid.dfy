/**
  The 4×4 board of the game and the cell-level operations the search uses:
  transposition, flattening, board equality, the row-major list of empty
  cells, and spawning a tile into a copy of a board.

  A board is a value. The source keeps boards in numpy arrays, but the core
  never writes into a board it was given: the only write is `emit_tile`, and
  it is always applied to `board.copy()`. That write is modelled on a fresh
  `array2<int>` (CopyBoard, EmitTile), read back with Cells.
 */
module Grid {

  /** A row or column index of the board. */
  type Coord = i: int | 0 <= i < 4

  type Row = r: seq<int> | |r| == 4 witness [0, 0, 0, 0]

  const EmptyRow: Row := [0, 0, 0, 0]

  /** Four rows of four tiles; 0 is an empty cell. */
  type Board = b: seq<Row> | |b| == 4
    witness [EmptyRow, EmptyRow, EmptyRow, EmptyRow]

  /** The coordinates of one cell, as the `[i, j]` pairs the source lists. */
  datatype Cell = Cell(row: Coord, col: Coord)

  /** Position of a cell in row-major order. */
  function Offset(c: Cell): int {
    4 * c.row + c.col
  }

  /** Strictly increasing in row-major order (hence also free of duplicates). */
  predicate RowMajor(cells: seq<Cell>) {
    forall k, l :: 0 <= k < l < |cells| ==> Offset(cells[k]) < Offset(cells[l])
  }

  /** numpy's `board.T`. */
  function Transpose(b: Board): (t: Board)
    ensures forall i, j :: 0 <= i < 4 && 0 <= j < 4 ==> t[i][j] == b[j][i]
  {
    seq(4, i requires 0 <= i < 4 => seq(4, j requires 0 <= j < 4 => b[j][i]))
  }

  lemma TransposeInvolution(b: Board)
    ensures Transpose(Transpose(b)) == b
  {
    var t := Transpose(Transpose(b));
    forall i | 0 <= i < 4 ensures t[i] == b[i] {
      assert forall j :: 0 <= j < 4 ==> t[i][j] == b[i][j];
    }
  }

  /** numpy's `board.ravel()`: the sixteen tiles in row-major order. */
  function Flatten(b: Board): (s: seq<int>)
    ensures |s| == 16
    ensures forall i, j :: 0 <= i < 4 && 0 <= j < 4 ==> s[4 * i + j] == b[i][j]
    ensures forall x :: x in s <==> exists i, j :: 0 <= i < 4 && 0 <= j < 4 && b[i][j] == x
  {
    var r0: seq<int>, r1: seq<int>, r2: seq<int>, r3: seq<int> := b[0], b[1], b[2], b[3];
    var s := r0 + r1 + r2 + r3;
    assert forall i, j :: 0 <= i < 4 && 0 <= j < 4 ==> s[4 * i + j] == b[i][j];
    assert forall k :: 0 <= k < 16 ==> s[k] == b[k / 4][k % 4];
    s
  }

  /** `board_equals`: numpy's elementwise comparison followed by `.all()`. */
  function BoardEquals(a: Board, b: Board): (r: bool)
    ensures r <==> a == b
  {
    BoardExtensionality(a, b);
    forall i, j :: 0 <= i < 4 && 0 <= j < 4 ==> a[i][j] == b[i][j]
  }

  lemma BoardExtensionality(a: Board, b: Board)
    ensures (forall i, j :: 0 <= i < 4 && 0 <= j < 4 ==> a[i][j] == b[i][j]) ==> a == b
  {
    if forall i, j :: 0 <= i < 4 && 0 <= j < 4 ==> a[i][j] == b[i][j] {
      forall i | 0 <= i < 4 ensures a[i] == b[i] {
        assert forall j :: 0 <= j < 4 ==> a[i][j] == b[i][j];
      }
    }
  }

  /** The board with cell `c` set to `v` and every other cell as it was. */
  function SetCell(b: Board, c: Cell, v: int): (r: Board)
    ensures r[c.row][c.col] == v
    ensures forall i, j :: 0 <= i < 4 && 0 <= j < 4 && (i != c.row || j != c.col) ==> r[i][j] == b[i][j]
  {
    b[c.row := b[c.row][c.col := v]]
  }

  // ---------------------------------------------------------------------------
  // get_empty_fields
  // ---------------------------------------------------------------------------

  /** The empty cells `(i, 0) .. (i, j - 1)` of row `i`, left to right. */
  function RowEmpties(b: Board, i: Coord, j: nat): seq<Cell>
    requires j <= 4
  {
    if j == 0 then []
    else RowEmpties(b, i, j - 1) + (if b[i][j - 1] == 0 then [Cell(i, j - 1)] else [])
  }

  /** The empty cells of rows `0 .. i - 1`, in row-major order. */
  function EmptiesUpTo(b: Board, i: nat): seq<Cell>
    requires i <= 4
  {
    if i == 0 then [] else EmptiesUpTo(b, i - 1) + RowEmpties(b, i - 1, 4)
  }

  /** Every empty cell of the board, in the order `get_empty_fields` appends them. */
  function EmptyFields(b: Board): seq<Cell> {
    EmptiesUpTo(b, |b|)
  }

  predicate HasEmptyCell(b: Board) {
    |EmptyFields(b)| > 0
  }

  lemma RowMajorConcat(s: seq<Cell>, t: seq<Cell>, bound: int)
    requires RowMajor(s) && RowMajor(t)
    requires forall k :: 0 <= k < |s| ==> Offset(s[k]) < bound
    requires forall k :: 0 <= k < |t| ==> bound <= Offset(t[k])
    ensures RowMajor(s + t)
  {
    var u := s + t;
    forall k, l | 0 <= k < l < |u| ensures Offset(u[k]) < Offset(u[l]) {
      if l < |s| {
        assert u[k] == s[k] && u[l] == s[l];
      } else if k >= |s| {
        assert u[k] == t[k - |s|] && u[l] == t[l - |s|];
      } else {
        assert u[k] == s[k] && u[l] == t[l - |s|];
      }
    }
  }

  lemma {:induction false} RowEmptiesSpec(b: Board, i: Coord, j: nat)
    requires j <= 4
    ensures |RowEmpties(b, i, j)| <= j
    ensures forall c :: c in RowEmpties(b, i, j) <==> c.row == i && c.col < j && b[i][c.col] == 0
    ensures RowMajor(RowEmpties(b, i, j))
  {
    if j > 0 {
      RowEmptiesSpec(b, i, j - 1);
      var prev := RowEmpties(b, i, j - 1);
      if b[i][j - 1] == 0 {
        assert forall k :: 0 <= k < |prev| ==> prev[k] in prev;
        RowMajorConcat(prev, [Cell(i, j - 1)], 4 * i + j - 1);
      } else {
        assert RowEmpties(b, i, j) == prev;
      }
    }
  }

  lemma {:induction false} EmptiesUpToSpec(b: Board, i: nat)
    requires i <= 4
    ensures |EmptiesUpTo(b, i)| <= 4 * i
    ensures forall c :: c in EmptiesUpTo(b, i) <==> c.row < i && b[c.row][c.col] == 0
    ensures RowMajor(EmptiesUpTo(b, i))
  {
    if i > 0 {
      EmptiesUpToSpec(b, i - 1);
      RowEmptiesSpec(b, i - 1, 4);
      var prev, last := EmptiesUpTo(b, i - 1), RowEmpties(b, i - 1, 4);
      assert forall k :: 0 <= k < |prev| ==> prev[k] in prev;
      assert forall k :: 0 <= k < |last| ==> last[k] in last;
      RowMajorConcat(prev, last, 4 * (i - 1));
    }
  }

  /**
    The empty-field list holds exactly the zero cells, each once, in
    row-major order; so there are at most sixteen of them.
   */
  lemma EmptyFieldsSpec(b: Board)
    ensures forall c :: c in EmptyFields(b) <==> b[c.row][c.col] == 0
    ensures RowMajor(EmptyFields(b))
    ensures forall k, l :: 0 <= k < l < |EmptyFields(b)| ==> EmptyFields(b)[k] != EmptyFields(b)[l]
    ensures |EmptyFields(b)| <= 16
  {
    EmptiesUpToSpec(b, 4);
  }

  /** `get_empty_fields`: append every zero cell, scanning rows then columns. */
  method GetEmptyFields(b: Board) returns (fields: seq<Cell>)
    ensures fields == EmptyFields(b)
    ensures forall c :: c in fields <==> b[c.row][c.col] == 0
    ensures RowMajor(fields)
  {
    fields := [];
    for i := 0 to 4
      invariant fields == EmptiesUpTo(b, i)
    {
      for j := 0 to 4
        invariant fields == EmptiesUpTo(b, i) + RowEmpties(b, i, j)
      {
        if b[i][j] == 0 {
          fields := fields + [Cell(i, j)];
        }
      }
    }
    EmptyFieldsSpec(b);
  }

  // ---------------------------------------------------------------------------
  // emit_tile on board.copy()
  // ---------------------------------------------------------------------------

  /** The board held in a 4×4 array. */
  function Cells(a: array2<int>): (b: Board)
    requires a.Length0 == 4 && a.Length1 == 4
    reads a
    ensures forall i, j :: 0 <= i < 4 && 0 <= j < 4 ==> b[i][j] == a[i, j]
  {
    seq(4, i requires 0 <= i < 4 reads a => seq(4, j requires 0 <= j < 4 reads a => a[i, j]))
  }

  /** `board.copy()`: a fresh array holding the board's tiles. */
  method CopyBoard(b: Board) returns (a: array2<int>)
    ensures fresh(a) && a.Length0 == 4 && a.Length1 == 4
    ensures Cells(a) == b
  {
    a := new int[4, 4]((i, j) => if 0 <= i < 4 && 0 <= j < 4 then b[i][j] else 0);
    BoardExtensionality(Cells(a), b);
  }

  /** `emit_tile`: write `val` into cell `(x, y)` in place. */
  method EmitTile(a: array2<int>, val: int, x: Coord, y: Coord)
    requires a.Length0 == 4 && a.Length1 == 4
    modifies a
    ensures a[x, y] == val
    ensures forall i, j :: 0 <= i < 4 && 0 <= j < 4 && (i != x || j != y) ==> a[i, j] == old(a[i, j])
    ensures Cells(a) == SetCell(old(Cells(a)), Cell(x, y), val)
  {
    ghost var before := Cells(a);
    a[x, y] := val;
    BoardExtensionality(Cells(a), SetCell(before, Cell(x, y), val));
  }
}
