/** Tic-tac-toe rules and minimax search (week0/tictactoe/tictactoe.py).

    A board is a 3x3 grid of cells; a move is a coordinate pair (row, column).
    X moves first and the players alternate; `Winner` reproduces the program's
    scan of rows, columns and diagonals, including its early return on a line
    of empty cells. */
module TicTacToe {
  import opened Outcomes

  /** A cell; `Empty` is the program's `EMPTY = None`, and also stands for the
      `None` that `winner` returns when nobody has won. */
  datatype Cell = X | O | Empty

  predicate IsGrid(b: seq<seq<Cell>>) {
    |b| == 3 && forall i | 0 <= i < 3 :: |b[i]| == 3
  }

  type Board = b: seq<seq<Cell>> | IsGrid(b)
    witness [[Empty, Empty, Empty], [Empty, Empty, Empty], [Empty, Empty, Empty]]

  /** A move `(i, j)`: row `i`, column `j`. */
  type Action = (int, int)

  /** The starting position: nine empty cells. */
  function InitialState(): (b: Board)
    ensures forall i, j | 0 <= i < 3 && 0 <= j < 3 :: b[i][j] == Empty
  {
    [[Empty, Empty, Empty], [Empty, Empty, Empty], [Empty, Empty, Empty]]
  }

  // ---------------------------------------------------------------------
  // Counting cells
  // ---------------------------------------------------------------------

  /** Coordinates of the cells of `rows` that hold `c`; on a board this is
      the reference meaning of "the cells holding c". */
  function CellsOf(rows: seq<seq<Cell>>, c: Cell): set<Action> {
    set i, j | 0 <= i < |rows| && 0 <= j < |rows[i]| && rows[i][j] == c :: (i, j)
  }

  /** Occurrences of `c` in one row, the inner counting loop of `player`. */
  function CountRow(row: seq<Cell>, c: Cell): nat {
    if |row| == 0 then 0
    else CountRow(row[..|row| - 1], c) + (if row[|row| - 1] == c then 1 else 0)
  }

  /** Occurrences of `c` on the whole grid, the outer loop of `player`. */
  function CountBoard(rows: seq<seq<Cell>>, c: Cell): nat {
    if |rows| == 0 then 0
    else CountBoard(rows[..|rows| - 1], c) + CountRow(rows[|rows| - 1], c)
  }

  function RowCells(row: seq<Cell>, i: int, c: Cell): set<Action> {
    set j | 0 <= j < |row| && row[j] == c :: (i, j)
  }

  lemma {:induction false} RowCellsCount(row: seq<Cell>, i: int, c: Cell)
    ensures |RowCells(row, i, c)| == CountRow(row, c)
  {
    if |row| > 0 {
      var n := |row| - 1;
      var front := row[..n];
      RowCellsCount(front, i, c);
      if row[n] == c {
        assert RowCells(row, i, c) == RowCells(front, i, c) + {(i, n)};
        assert (i, n) !in RowCells(front, i, c);
      } else {
        assert RowCells(row, i, c) == RowCells(front, i, c);
      }
    }
  }

  /** The counting loops of `player` count exactly the cells holding `c`. */
  lemma {:induction false} CountMatchesCells(rows: seq<seq<Cell>>, c: Cell)
    ensures |CellsOf(rows, c)| == CountBoard(rows, c)
  {
    if |rows| > 0 {
      var n := |rows| - 1;
      var front := rows[..n];
      CountMatchesCells(front, c);
      RowCellsCount(rows[n], n, c);
      CellsSplit(rows, c);
    }
  }

  /** The cells of a grid are those of all rows but the last, plus those of
      the last row, and the two parts do not overlap. */
  lemma CellsSplit(rows: seq<seq<Cell>>, c: Cell)
    requires |rows| > 0
    ensures CellsOf(rows, c) == CellsOf(rows[..|rows| - 1], c) + RowCells(rows[|rows| - 1], |rows| - 1, c)
    ensures CellsOf(rows[..|rows| - 1], c) !! RowCells(rows[|rows| - 1], |rows| - 1, c)
  {
  }

  // ---------------------------------------------------------------------
  // Turn order, legal moves and the move function
  // ---------------------------------------------------------------------

  /** The player to move: O when X has more cells than O, X otherwise. */
  function Player(b: Board): (p: Cell)
    ensures p != Empty
    ensures p == O <==> |CellsOf(b, X)| > |CellsOf(b, O)|
  {
    CountMatchesCells(b, X);
    CountMatchesCells(b, O);
    if CountBoard(b, X) > CountBoard(b, O) then O else X
  }

  /** The legal moves: coordinates of the empty cells. */
  function Actions(b: Board): set<Action> {
    CellsOf(b, Empty)
  }

  /** A move is legal exactly when it names a cell of the board and that
      cell is empty. */
  lemma ActionsOnBoard(b: Board, a: Action)
    ensures a in Actions(b) <==> 0 <= a.0 < 3 && 0 <= a.1 < 3 && b[a.0][a.1] == Empty
  {
  }

  /** The starting position offers all nine coordinates. */
  lemma InitialActions()
    ensures forall i, j | 0 <= i < 3 && 0 <= j < 3 :: (i, j) in Actions(InitialState())
    ensures |Actions(InitialState())| == 9
  {
    var b := InitialState();
    var row := [Empty, Empty, Empty];
    assert CountRow(row[..1], Empty) == 1;
    assert CountRow(row[..2], Empty) == 2;
    assert CountRow(row, Empty) == 3;
    assert b[..1] == [row] && b[..2] == [row, row] && b == [row, row, row];
    assert CountBoard(b[..1], Empty) == 3;
    assert CountBoard(b[..2], Empty) == 6;
    assert CountBoard(b, Empty) == 9;
    CountMatchesCells(b, Empty);
  }

  /** On the starting position it is X's turn. */
  lemma InitialPlayer()
    ensures Player(InitialState()) == X
  {
    var b := InitialState();
    assert CellsOf(b, X) == {};
  }

  /** The move function: a move that is not legal is rejected with
      "Invalid Action"; a legal move returns a new board where only the
      chosen cell changed, now holding the player to move. */
  function Result(b: Board, a: Action): (r: Outcomes.Result<Board>)
    ensures r.Err? <==> a !in Actions(b)
    ensures r.Err? ==> r.message == "Invalid Action"
    ensures r.Ok? ==> r.value[a.0][a.1] == Player(b)
    ensures r.Ok? ==> forall i, j | 0 <= i < 3 && 0 <= j < 3 && (i, j) != a :: r.value[i][j] == b[i][j]
  {
    if a !in Actions(b) then Err("Invalid Action")
    else
      var (i, j) := a;
      var mark := if Player(b) == X then X else O;
      Ok(b[i := b[i][j := mark]])
  }

  /** Writing `m` into the empty cell `a` moves `a` out of the empty cells
      and into the cells holding `m`; no other cell changes hands. */
  lemma CellsAfterMark(b: Board, a: Action, m: Cell, c: Cell)
    requires a in Actions(b) && m != Empty
    ensures CellsOf(b[a.0 := b[a.0][a.1 := m]], c) == (CellsOf(b, c) - {a}) + (if c == m then {a} else {})
  {
    var r := b[a.0 := b[a.0][a.1 := m]];
    var rhs := (CellsOf(b, c) - {a}) + (if c == m then {a} else {});
    forall q | q in CellsOf(r, c)
      ensures q in rhs
    {
      var (i, j) := q;
      if q != a {
        assert r[i][j] == b[i][j];
      }
    }
    forall q | q in rhs
      ensures q in CellsOf(r, c)
    {
      var (i, j) := q;
      if q != a {
        assert r[i][j] == b[i][j];
      }
    }
  }

  /** After a legal move the legal moves are the old ones minus the move
      played, the mover holds exactly one more cell and the other player's
      cells are unchanged. */
  lemma ResultCells(b: Board, a: Action)
    requires a in Actions(b)
    ensures Actions(Result(b, a).value) == Actions(b) - {a}
    ensures CellsOf(Result(b, a).value, Player(b)) == CellsOf(b, Player(b)) + {a}
    ensures a !in CellsOf(b, Player(b))
    ensures forall c | c != Player(b) && c != Empty :: CellsOf(Result(b, a).value, c) == CellsOf(b, c)
  {
    var m := if Player(b) == X then X else O;
    assert Result(b, a).value == b[a.0 := b[a.0][a.1 := m]];
    CellsAfterMark(b, a, m, Empty);
    CellsAfterMark(b, a, m, m);
    forall c | c != Player(b) && c != Empty
      ensures CellsOf(Result(b, a).value, c) == CellsOf(b, c)
    {
      CellsAfterMark(b, a, m, c);
    }
  }

  /** A legal move's board; the move function's success value. */
  function Child(b: Board, a: Action): (r: Board)
    requires a in Actions(b)
    ensures |Actions(r)| == |Actions(b)| - 1
  {
    ResultCells(b, a);
    Result(b, a).value
  }

  /** The board reached by playing `moves` from the starting position, or
      the first "Invalid Action" failure. */
  function Play(moves: seq<Action>): Outcomes.Result<Board> {
    if |moves| == 0 then Ok(InitialState())
    else
      match Play(moves[..|moves| - 1])
      case Err(e) => Err(e)
      case Ok(b) => Result(b, moves[|moves| - 1])
  }

  /** X has as many cells as O, or one more. */
  predicate Balanced(b: Board) {
    var d := |CellsOf(b, X)| - |CellsOf(b, O)|;
    0 <= d <= 1
  }

  /** Every board reached from the starting position by legal moves keeps
      the X count equal to the O count or one above it. */
  lemma {:induction false} ReachableBalanced(moves: seq<Action>)
    requires Play(moves).Ok?
    ensures Balanced(Play(moves).value)
  {
    if |moves| == 0 {
      var b := InitialState();
      assert CellsOf(b, X) == {};
      assert CellsOf(b, O) == {};
    } else {
      var b := Play(moves[..|moves| - 1]).value;
      ReachableBalanced(moves[..|moves| - 1]);
      ResultCells(b, moves[|moves| - 1]);
    }
  }

  // ---------------------------------------------------------------------
  // Winner detection
  // ---------------------------------------------------------------------

  /** The eight lines of the board. */
  datatype Line = Row(i: int) | Col(j: int) | Diag | AntiDiag

  predicate ValidLine(l: Line) {
    match l
    case Row(i) => 0 <= i < 3
    case Col(j) => 0 <= j < 3
    case _ => true
  }

  /** The `k`-th cell of line `l`. */
  function At(b: Board, l: Line, k: int): Cell
    requires ValidLine(l) && 0 <= k < 3
  {
    match l
    case Row(i) => b[i][k]
    case Col(j) => b[k][j]
    case Diag => b[k][k]
    case AntiDiag => b[k][2 - k]
  }

  /** Every cell of line `l` holds `p`. */
  predicate Fills(b: Board, l: Line, p: Cell) {
    ValidLine(l) && forall k | 0 <= k < 3 :: At(b, l, k) == p
  }

  /** Some line is filled with `p`. */
  ghost predicate HasLine(b: Board, p: Cell) {
    exists l :: Fills(b, l, p)
  }

  /** Some row or some column is filled with empty cells. */
  predicate HasBlankRowOrColumn(b: Board) {
    exists i | 0 <= i < 3 :: Fills(b, Row(i), Empty) || Fills(b, Col(i), Empty)
  }

  /** Length of the run of leading entries equal to `t`: the counting loop
      with `break` that `winner` runs over one row or column. */
  function Run(s: seq<Cell>, t: Cell): (n: nat)
    ensures n <= |s|
    ensures forall k | 0 <= k < n :: s[k] == t
    ensures n < |s| ==> s[n] != t
  {
    if |s| == 0 || s[0] != t then 0 else 1 + Run(s[1..], t)
  }

  function Column(b: Board, j: int): (c: seq<Cell>)
    requires 0 <= j < 3
    ensures |c| == 3 && forall k | 0 <= k < 3 :: c[k] == At(b, Col(j), k)
  {
    [b[0][j], b[1][j], b[2][j]]
  }

  /** The row scan of `winner` from row `i` on: `Some(v)` when it returns
      `v`, `None` when it falls through to the columns. */
  function RowScan(b: Board, i: nat): (r: Option<Cell>)
    requires i <= 3
    ensures r.Some? ==> exists k | i <= k < 3 :: Fills(b, Row(k), r.value)
    decreases 3 - i
  {
    if i == 3 then None
    else if Run(b[i], b[i][0]) == 3 then
      assert Fills(b, Row(i), b[i][0]);
      Some(b[i][0])
    else RowScan(b, i + 1)
  }

  /** The column scan of `winner` from column `j` on. */
  function ColumnScan(b: Board, j: nat): (r: Option<Cell>)
    requires j <= 3
    ensures r.Some? ==> exists k | j <= k < 3 :: Fills(b, Col(k), r.value)
    decreases 3 - j
  {
    if j == 3 then None
    else if Run(Column(b, j), b[0][j]) == 3 then
      assert Fills(b, Col(j), b[0][j]);
      Some(b[0][j])
    else ColumnScan(b, j + 1)
  }

  /** The winner as the program computes it: rows, then columns, then the
      two diagonals, returning at the first line whose three cells agree,
      even when they agree on being empty. */
  function Winner(b: Board): (w: Cell)
    ensures w != Empty ==> HasLine(b, w)
  {
    match RowScan(b, 0)
    case Some(v) => v
    case None =>
      match ColumnScan(b, 0)
      case Some(v) => v
      case None =>
        if b[0][0] == b[1][1] && b[0][0] == b[2][2] then
          assert Fills(b, Diag, b[0][0]);
          b[0][0]
        else if b[0][2] == b[1][1] && b[0][2] == b[2][0] then
          assert Fills(b, AntiDiag, b[0][2]);
          b[0][2]
        else Empty
  }

  lemma RowScanFinds(b: Board, i: nat, k: nat, p: Cell)
    requires i <= k < 3
    requires Fills(b, Row(k), p)
    ensures RowScan(b, i).Some?
    decreases 3 - i
  {
    if i == k {
      assert At(b, Row(k), 0) == p && At(b, Row(k), 1) == p && At(b, Row(k), 2) == p;
    } else if Run(b[i], b[i][0]) != 3 {
      RowScanFinds(b, i + 1, k, p);
    }
  }

  lemma ColumnScanFinds(b: Board, j: nat, k: nat, p: Cell)
    requires j <= k < 3
    requires Fills(b, Col(k), p)
    ensures ColumnScan(b, j).Some?
    decreases 3 - j
  {
    if j == k {
      assert At(b, Col(k), 0) == p && At(b, Col(k), 1) == p && At(b, Col(k), 2) == p;
    } else if Run(Column(b, j), b[0][j]) != 3 {
      ColumnScanFinds(b, j + 1, k, p);
    }
  }

  /** Without a row or column of empty cells, the scan returns `Empty` only
      when no line is filled by X or O; so its early return is the only way a
      completed line goes unnoticed. */
  lemma WinnerComplete(b: Board, p: Cell)
    requires !HasBlankRowOrColumn(b)
    requires p != Empty && HasLine(b, p)
    ensures Winner(b) != Empty
  {
    var l :| Fills(b, l, p);
    match l
    case Row(k) =>
      RowScanFinds(b, 0, k, p);
      var k' :| 0 <= k' < 3 && Fills(b, Row(k'), RowScan(b, 0).value);
    case Col(k) =>
      RowScanNoBlank(b, 0);
      ColumnScanFinds(b, 0, k, p);
      var k' :| 0 <= k' < 3 && Fills(b, Col(k'), ColumnScan(b, 0).value);
    case Diag =>
      RowScanNoBlank(b, 0);
      ColumnScanNoBlank(b, 0);
      assert At(b, Diag, 0) == p && At(b, Diag, 1) == p && At(b, Diag, 2) == p;
    case AntiDiag =>
      RowScanNoBlank(b, 0);
      ColumnScanNoBlank(b, 0);
      assert At(b, AntiDiag, 0) == p && At(b, AntiDiag, 1) == p && At(b, AntiDiag, 2) == p;
  }

  lemma RowScanNoBlank(b: Board, i: nat)
    requires i <= 3
    requires !HasBlankRowOrColumn(b)
    ensures RowScan(b, i) != Some(Empty)
  {

  }

  lemma ColumnScanNoBlank(b: Board, j: nat)
    requires j <= 3
    requires !HasBlankRowOrColumn(b)
    ensures ColumnScan(b, j) != Some(Empty)
  {

  }

  /** The eight lines in the order the program scans them. */
  const AllLines: seq<Line> := [Row(0), Row(1), Row(2), Col(0), Col(1), Col(2), Diag, AntiDiag]

  /** The first line of `ls` filled by X or by O, or `Empty`. */
  function FirstFilled(b: Board, ls: seq<Line>): (w: Cell)
    requires forall k | 0 <= k < |ls| :: ValidLine(ls[k])
    ensures w != Empty ==> HasLine(b, w)
    ensures w == Empty ==> forall k, p | 0 <= k < |ls| && p != Empty :: !Fills(b, ls[k], p)
  {
    if |ls| == 0 then Empty
    else
      var p := At(b, ls[0], 0);
      if p != Empty && Fills(b, ls[0], p) then p
      else
        var w := FirstFilled(b, ls[1..]);
        assert forall k | 1 <= k < |ls| :: ls[k] == ls[1..][k - 1];
        w
  }

  /** The evidently intended winner: the same scan, but a line of empty
      cells does not end it. */
  function WinnerIntended(b: Board): (w: Cell)
    ensures w != Empty ==> HasLine(b, w)
  {
    FirstFilled(b, AllLines)
  }

  /** The intended scan finds every completed line. */
  lemma WinnerIntendedComplete(b: Board, p: Cell)
    requires p != Empty && HasLine(b, p)
    ensures WinnerIntended(b) != Empty
  {
    var l :| Fills(b, l, p);
    var k := match l
      case Row(i) => i
      case Col(j) => 3 + j
      case Diag => 6
      case AntiDiag => 7;
    assert AllLines[k] == l;
  }

  /** A board reached by legal play on which X has completed the middle row
      while the top row is still empty. */
  const MissedWinBoard: Board := [[Empty, Empty, Empty], [X, X, X], [O, O, Empty]]

  /** The program's scan returns at the empty top row, so it reports no
      winner on `MissedWinBoard` and the game goes on although X has won;
      the intended scan reports X. */
  lemma WinnerMissesLineAfterBlankRow()
    ensures Play([(1, 0), (2, 0), (1, 1), (2, 1), (1, 2)]) == Ok(MissedWinBoard)
    ensures HasLine(MissedWinBoard, X)
    ensures Winner(MissedWinBoard) == Empty
    ensures !Terminal(MissedWinBoard)
    ensures WinnerIntended(MissedWinBoard) == X
  {
    var b := MissedWinBoard;
    assert Fills(b, Row(1), X);
    assert Run(b[0], b[0][0]) == 3;
    assert (2, 2) in Actions(b);
    assert At(b, Row(0), 0) == Empty;
    assert Fills(b, Row(1), At(b, Row(1), 0));
    PlayMissedWin();
  }

  lemma PlayMissedWin()
    ensures Play([(1, 0), (2, 0), (1, 1), (2, 1), (1, 2)]) == Ok(MissedWinBoard)
  {
    var e := Empty;
    var b4: Board := [[e, e, e], [X, X, e], [O, O, e]];
    assert Play([(1, 0), (2, 0), (1, 1), (2, 1)]) == Ok(b4) by {
      PlayFourMoves();
    }
    assert Player(b4) == X by {
      PlayerOf(b4);
    }
    PlayStep([(1, 0), (2, 0), (1, 1), (2, 1)], b4, (1, 2), MissedWinBoard, [(1, 0), (2, 0), (1, 1), (2, 1), (1, 2)]);
  }

  lemma PlayFourMoves()
    ensures Play([(1, 0), (2, 0), (1, 1), (2, 1)]) == Ok([[Empty, Empty, Empty], [X, X, Empty], [O, O, Empty]])
  {
    var e := Empty;
    var b2: Board := [[e, e, e], [X, e, e], [O, e, e]];
    var b3: Board := [[e, e, e], [X, X, e], [O, e, e]];
    var b4: Board := [[e, e, e], [X, X, e], [O, O, e]];
    PlayTwoMoves();
    PlayerOf(b2);
    PlayStep([(1, 0), (2, 0)], b2, (1, 1), b3, [(1, 0), (2, 0), (1, 1)]);
    PlayerOf(b3);
    PlayStep([(1, 0), (2, 0), (1, 1)], b3, (2, 1), b4, [(1, 0), (2, 0), (1, 1), (2, 1)]);
  }

  lemma PlayTwoMoves()
    ensures Play([(1, 0), (2, 0)]) == Ok([[Empty, Empty, Empty], [X, Empty, Empty], [O, Empty, Empty]])
  {
    var e := Empty;
    var b1: Board := [[e, e, e], [X, e, e], [e, e, e]];
    var b2: Board := [[e, e, e], [X, e, e], [O, e, e]];
    InitialPlayer();
    PlayStep([], InitialState(), (1, 0), b1, [(1, 0)]);
    PlayerOf(b1);
    PlayStep([(1, 0)], b1, (2, 0), b2, [(1, 0), (2, 0)]);
  }

  /** One more legal move extends a legal game. */
  lemma PlayStep(moves: seq<Action>, b: Board, a: Action, b': Board, moves': seq<Action>)
    requires Play(moves) == Ok(b)
    requires 0 <= a.0 < 3 && 0 <= a.1 < 3 && b[a.0][a.1] == Empty
    requires forall i, j | 0 <= i < 3 && 0 <= j < 3 :: b'[i][j] == if (i, j) == a then Player(b) else b[i][j]
    requires moves' == moves + [a]
    ensures Play(moves') == Ok(b')
  {
    assert a in Actions(b);
    assert moves'[..|moves|] == moves;
    var r := Result(b, a).value;
    assert forall i | 0 <= i < 3 :: r[i] == b'[i];
    assert r == b';
  }

  /** The player to move, from the cell counts of an explicit board. */
  lemma PlayerOf(b: Board)
    ensures Player(b) == if Count3(b, X) > Count3(b, O) then O else X
  {
    CountBoard3(b, X);
    CountBoard3(b, O);
  }

  function Count3(b: Board, c: Cell): nat {
    (if b[0][0] == c then 1 else 0) + (if b[0][1] == c then 1 else 0) + (if b[0][2] == c then 1 else 0) +
    (if b[1][0] == c then 1 else 0) + (if b[1][1] == c then 1 else 0) + (if b[1][2] == c then 1 else 0) +
    (if b[2][0] == c then 1 else 0) + (if b[2][1] == c then 1 else 0) + (if b[2][2] == c then 1 else 0)
  }

  lemma CountRow3(r: seq<Cell>, c: Cell)
    requires |r| == 3
    ensures CountRow(r, c) == (if r[0] == c then 1 else 0) + (if r[1] == c then 1 else 0) + (if r[2] == c then 1 else 0)
  {
    assert r[..1][..0] == r[..0];
    assert r[..2][..1] == r[..1];
    assert CountRow(r[..1], c) == (if r[0] == c then 1 else 0);
    assert CountRow(r[..2], c) == (if r[0] == c then 1 else 0) + (if r[1] == c then 1 else 0);
  }

  lemma CountBoard3(b: Board, c: Cell)
    ensures CountBoard(b, c) == Count3(b, c)
  {
    CountRow3(b[0], c);
    CountRow3(b[1], c);
    CountRow3(b[2], c);
    CountBoardFront(b, c);
  }

  lemma CountBoardFront(b: Board, c: Cell)
    ensures CountBoard(b, c) == CountRow(b[0], c) + CountRow(b[1], c) + CountRow(b[2], c)
  {
    assert b[..1][..0] == b[..0];
    assert b[..2][..1] == b[..1];
    assert b[..3] == b;
    assert CountBoard(b[..1], c) == CountRow(b[0], c);
    assert CountBoard(b[..2], c) == CountRow(b[0], c) + CountRow(b[1], c);
  }

  // ---------------------------------------------------------------------
  // End of game and scores
  // ---------------------------------------------------------------------

  /** The game is over when X or O has won or no legal move is left. */
  function Terminal(b: Board): (t: bool)
    ensures t <==> Winner(b) != Empty || CountBoard(b, Empty) == 0
  {
    CountMatchesCells(b, Empty);
    Winner(b) == X || Winner(b) == O || |Actions(b)| == 0
  }

  /** 1 when X has won, -1 when O has won, 0 otherwise. */
  function Utility(b: Board): (u: int)
    ensures u == 1 <==> Winner(b) == X
    ensures u == -1 <==> Winner(b) == O
    ensures u == 0 <==> Winner(b) == Empty
  {
    var w := Winner(b);
    if w == X then 1 else if w == O then -1 else 0
  }

  /** The legal moves listed in row-major order: the order in which the
      search below visits the set of actions. */
  function ActionList(b: Board): (s: seq<Action>)
    ensures forall a :: a in s <==> a in Actions(b)
  {
    ActionsFrom(b, 0)
  }

  function ActionsFrom(b: Board, p: nat): (s: seq<Action>)
    requires p <= 9
    ensures forall a :: a in s <==> a in Actions(b) && 3 * a.0 + a.1 >= p
    decreases 9 - p
  {
    if p == 9 then []
    else
      var rest := ActionsFrom(b, p + 1);
      var a := (p / 3, p % 3);
      if b[p / 3][p % 3] == Empty then [a] + rest else rest
  }

  /** Value of the game for X when X is to move and both sides play
      perfectly: a terminal board scores its utility, any other board the
      best value over X's legal moves (see `MaxValueIsBest`). */
  function MaxValue(b: Board): (v: int)
    ensures -1 <= v <= 1
    ensures Terminal(b) ==> v == Utility(b)
    decreases |Actions(b)|, 1, 0
  {
    if Terminal(b) then Utility(b)
    else
      var s := ActionList(b);
      NonEmptyList(b);
      Largest(MinValues(b, s))
  }

  /** Value of the game for X when O is to move: the smallest value X can
      be held to over O's legal moves (see `MinValueIsBest`). */
  function MinValue(b: Board): (v: int)
    ensures -1 <= v <= 1
    ensures Terminal(b) ==> v == Utility(b)
    decreases |Actions(b)|, 1, 0
  {
    if Terminal(b) then Utility(b)
    else
      var s := ActionList(b);
      NonEmptyList(b);
      Smallest(MaxValues(b, s))
  }

  /** `minValue(result(board, action))` for each listed move. */
  function MinValues(b: Board, s: seq<Action>): (vs: seq<int>)
    requires forall a | a in s :: a in Actions(b)
    ensures |vs| == |s|
    ensures forall k | 0 <= k < |vs| :: -1 <= vs[k] <= 1
    decreases |Actions(b)|, 0, |s|
  {
    if |s| == 0 then []
    else [MinValue(Child(b, s[0]))] + MinValues(b, s[1..])
  }

  /** `maxValue(result(board, action))` for each listed move. */
  function MaxValues(b: Board, s: seq<Action>): (vs: seq<int>)
    requires forall a | a in s :: a in Actions(b)
    ensures |vs| == |s|
    ensures forall k | 0 <= k < |vs| :: -1 <= vs[k] <= 1
    decreases |Actions(b)|, 0, |s|
  {
    if |s| == 0 then []
    else [MaxValue(Child(b, s[0]))] + MaxValues(b, s[1..])
  }

  lemma {:induction false} MinValuesAt(b: Board, s: seq<Action>, k: nat)
    requires forall a | a in s :: a in Actions(b)
    requires k < |s|
    ensures MinValues(b, s)[k] == MinValue(Child(b, s[k]))
  {
    if k > 0 {
      MinValuesAt(b, s[1..], k - 1);
    }
  }

  lemma {:induction false} MaxValuesAt(b: Board, s: seq<Action>, k: nat)
    requires forall a | a in s :: a in Actions(b)
    requires k < |s|
    ensures MaxValues(b, s)[k] == MaxValue(Child(b, s[k]))
  {
    if k > 0 {
      MaxValuesAt(b, s[1..], k - 1);
    }
  }

  /** `v = max(v, ...)` folded over a non-empty list. */
  function Largest(vs: seq<int>): (v: int)
    requires |vs| > 0
    ensures exists k | 0 <= k < |vs| :: v == vs[k]
    ensures forall k | 0 <= k < |vs| :: vs[k] <= v
  {
    if |vs| == 1 then vs[0]
    else
      var rest := Largest(vs[1..]);
      assert forall k | 1 <= k < |vs| :: vs[k] == vs[1..][k - 1];
      if vs[0] >= rest then vs[0] else rest
  }

  /** `v = min(v, ...)` folded over a non-empty list. */
  function Smallest(vs: seq<int>): (v: int)
    requires |vs| > 0
    ensures exists k | 0 <= k < |vs| :: v == vs[k]
    ensures forall k | 0 <= k < |vs| :: vs[k] >= v
  {
    if |vs| == 1 then vs[0]
    else
      var rest := Smallest(vs[1..]);
      assert forall k | 1 <= k < |vs| :: vs[k] == vs[1..][k - 1];
      if vs[0] <= rest then vs[0] else rest
  }

  /** An entry no smaller than every entry is the fold's result. */
  lemma LargestAt(vs: seq<int>, k: nat)
    requires k < |vs|
    requires forall i | 0 <= i < |vs| :: vs[i] <= vs[k]
    ensures Largest(vs) == vs[k]
  {
  }

  /** An entry no larger than every entry is the fold's result. */
  lemma SmallestAt(vs: seq<int>, k: nat)
    requires k < |vs|
    requires forall i | 0 <= i < |vs| :: vs[i] >= vs[k]
    ensures Smallest(vs) == vs[k]
  {
  }

  /** A board that is not over has a legal move. */
  lemma NonEmptyList(b: Board)
    requires !Terminal(b)
    ensures |ActionList(b)| > 0
  {
    assert Actions(b) != {};
    var a :| a in Actions(b);
    assert a in ActionList(b);
  }

  lemma MaxValueUnfold(b: Board)
    requires !Terminal(b)
    ensures |ActionList(b)| > 0
    ensures MaxValue(b) == Largest(MinValues(b, ActionList(b)))
  {
    NonEmptyList(b);
  }

  lemma MinValueUnfold(b: Board)
    requires !Terminal(b)
    ensures |ActionList(b)| > 0
    ensures MinValue(b) == Smallest(MaxValues(b, ActionList(b)))
  {
    NonEmptyList(b);
  }

  /** The position in the move list of a move that reaches the value. */
  lemma MaxValueWitness(b: Board) returns (k: nat)
    requires !Terminal(b)
    ensures k < |ActionList(b)|
    ensures MaxValue(b) == MinValue(Child(b, ActionList(b)[k]))
  {
    var s := ActionList(b);
    MaxValueUnfold(b);
    var vs := MinValues(b, s);
    k :| 0 <= k < |vs| && Largest(vs) == vs[k];
    MinValuesAt(b, s, k);
  }

  lemma MaxValueBounded(b: Board)
    requires !Terminal(b)
    ensures forall k | 0 <= k < |ActionList(b)| :: MinValue(Child(b, ActionList(b)[k])) <= MaxValue(b)
  {
    var s := ActionList(b);
    MaxValueUnfold(b);
    forall k | 0 <= k < |s|
      ensures MinValue(Child(b, s[k])) <= MaxValue(b)
    {
      MinValuesAt(b, s, k);
    }
  }

  /** On a board that is not over, the value with X to move is reached by
      one of X's legal moves. */
  lemma MaxValueAttained(b: Board)
    requires !Terminal(b)
    ensures exists a | a in Actions(b) :: MaxValue(b) == MinValue(Child(b, a))
  {
    var k := MaxValueWitness(b);
    var a := ActionList(b)[k];
    assert a in Actions(b);
  }

  /** On a board that is not over, the value with X to move is the
      largest of the values left to O by X's legal moves. */
  lemma MaxValueIsBest(b: Board)
    requires !Terminal(b)
    ensures forall a | a in Actions(b) :: MinValue(Child(b, a)) <= MaxValue(b)
  {
    MaxValueBounded(b);
    var s := ActionList(b);
    forall a | a in Actions(b)
      ensures MinValue(Child(b, a)) <= MaxValue(b)
    {
      assert a in s;
      var m :| 0 <= m < |s| && s[m] == a;
    }
  }

  /** The position in the move list of a move that reaches the value. */
  lemma MinValueWitness(b: Board) returns (k: nat)
    requires !Terminal(b)
    ensures k < |ActionList(b)|
    ensures MinValue(b) == MaxValue(Child(b, ActionList(b)[k]))
  {
    var s := ActionList(b);
    MinValueUnfold(b);
    var vs := MaxValues(b, s);
    k :| 0 <= k < |vs| && Smallest(vs) == vs[k];
    MaxValuesAt(b, s, k);
  }

  lemma MinValueBounded(b: Board)
    requires !Terminal(b)
    ensures forall k | 0 <= k < |ActionList(b)| :: MaxValue(Child(b, ActionList(b)[k])) >= MinValue(b)
  {
    var s := ActionList(b);
    MinValueUnfold(b);
    forall k | 0 <= k < |s|
      ensures MaxValue(Child(b, s[k])) >= MinValue(b)
    {
      MaxValuesAt(b, s, k);
    }
  }

  /** On a board that is not over, the value with O to move is reached by
      one of O's legal moves. */
  lemma MinValueAttained(b: Board)
    requires !Terminal(b)
    ensures exists a | a in Actions(b) :: MinValue(b) == MaxValue(Child(b, a))
  {
    var k := MinValueWitness(b);
    var a := ActionList(b)[k];
    assert a in Actions(b);
  }

  /** On a board that is not over, the value with O to move is the
      smallest of the values left to X by O's legal moves. */
  lemma MinValueIsBest(b: Board)
    requires !Terminal(b)
    ensures forall a | a in Actions(b) :: MaxValue(Child(b, a)) >= MinValue(b)
  {
    MinValueBounded(b);
    var s := ActionList(b);
    forall a | a in Actions(b)
      ensures MaxValue(Child(b, a)) >= MinValue(b)
    {
      assert a in s;
      var m :| 0 <= m < |s| && s[m] == a;
    }
  }

  /** Index of the first largest entry: the loop of `minimax` for X, which
      keeps the first action whose value beats every earlier one. */
  method FirstLargest(vs: seq<int>) returns (k: int)
    requires |vs| > 0
    requires forall i | 0 <= i < |vs| :: -1 <= vs[i] <= 1
    ensures 0 <= k < |vs|
    ensures forall i | 0 <= i < |vs| :: vs[i] <= vs[k]
    ensures forall i | 0 <= i < k :: vs[i] < vs[k]
  {
    // -2 lies below every value, so it plays the part of float("-inf").
    var v := -2;
    k := 0;
    for i := 0 to |vs|
      invariant 0 <= k < |vs|
      invariant i == 0 ==> v == -2
      invariant i > 0 ==> k < i && v == vs[k]
      invariant forall m | 0 <= m < i :: vs[m] <= v
      invariant forall m | 0 <= m < k :: vs[m] < vs[k]
    {
      var temp := vs[i];
      if temp > v {
        v := temp;
        k := i;
      }
    }
  }

  /** Index of the first smallest entry: the loop of `minimax` for O. */
  method FirstSmallest(vs: seq<int>) returns (k: int)
    requires |vs| > 0
    requires forall i | 0 <= i < |vs| :: -1 <= vs[i] <= 1
    ensures 0 <= k < |vs|
    ensures forall i | 0 <= i < |vs| :: vs[i] >= vs[k]
    ensures forall i | 0 <= i < k :: vs[i] > vs[k]
  {
    // 2 lies above every value, so it plays the part of float("inf").
    var v := 2;
    k := 0;
    for i := 0 to |vs|
      invariant 0 <= k < |vs|
      invariant i == 0 ==> v == 2
      invariant i > 0 ==> k < i && v == vs[k]
      invariant forall m | 0 <= m < i :: vs[m] >= v
      invariant forall m | 0 <= m < k :: vs[m] > vs[k]
    {
      var temp := vs[i];
      if temp < v {
        v := temp;
        k := i;
      }
    }
  }

  /** When every value listed before position `k` differs from the value
      at `k`, the entry at `k` comes no later than any entry with that
      value. */
  lemma FirstReaching<T>(s: seq<T>, vs: seq<int>, k: nat)
    requires |vs| == |s| && k < |s|
    requires forall i | 0 <= i < k :: vs[i] != vs[k]
    ensures forall i | 0 <= i < |s| && vs[i] == vs[k] :: s[k] in s[..i + 1]
  {
  }

  /** No move listed before the chosen one reaches the value `max_value`
      promises X. */
  lemma FirstBestForX(b: Board, s: seq<Action>, vs: seq<int>, k: nat)
    requires forall a | a in s :: a in Actions(b)
    requires vs == MinValues(b, s) && k < |s|
    requires forall i | 0 <= i < k :: vs[i] < vs[k]
    ensures forall i | 0 <= i < |s| && MinValue(Child(b, s[i])) == vs[k] :: s[k] in s[..i + 1]
  {
    FirstReaching(s, vs, k);
    forall i | 0 <= i < |s|
      ensures vs[i] == MinValue(Child(b, s[i]))
    {
      MinValuesAt(b, s, i);
    }
  }

  /** No move listed before the chosen one reaches the value `min_value`
      promises O. */
  lemma FirstBestForO(b: Board, s: seq<Action>, vs: seq<int>, k: nat)
    requires forall a | a in s :: a in Actions(b)
    requires vs == MaxValues(b, s) && k < |s|
    requires forall i | 0 <= i < k :: vs[i] > vs[k]
    ensures forall i | 0 <= i < |s| && MaxValue(Child(b, s[i])) == vs[k] :: s[k] in s[..i + 1]
  {
    FirstReaching(s, vs, k);
    forall i | 0 <= i < |s|
      ensures vs[i] == MaxValue(Child(b, s[i]))
    {
      MaxValuesAt(b, s, i);
    }
  }

  /** The move chosen for the player to move: none on a finished board,
      `pick` (the program's random coordinate) on the empty board, and
      otherwise the first legal move, in row-major order, that reaches the
      best value for the mover: no earlier move in that order reaches it. */
  method Minimax(b: Board, pick: Action) returns (r: Option<Action>)
    requires 0 <= pick.0 < 3 && 0 <= pick.1 < 3
    ensures r.None? <==> Terminal(b)
    ensures r.Some? ==> r.value in Actions(b)
    ensures b == InitialState() ==> r == Some(pick)
    ensures r.Some? && b != InitialState() && Player(b) == X ==> MinValue(Child(b, r.value)) == MaxValue(b)
    ensures r.Some? && b != InitialState() && Player(b) == O ==> MaxValue(Child(b, r.value)) == MinValue(b)
    ensures r.Some? && b != InitialState() && Player(b) == X ==>
      forall i | 0 <= i < |ActionList(b)| && MinValue(Child(b, ActionList(b)[i])) == MaxValue(b) :: r.value in ActionList(b)[..i + 1]
    ensures r.Some? && b != InitialState() && Player(b) == O ==>
      forall i | 0 <= i < |ActionList(b)| && MaxValue(Child(b, ActionList(b)[i])) == MinValue(b) :: r.value in ActionList(b)[..i + 1]
  {
    if Terminal(b) {
      return None;
    }
    if b == InitialState() {
      InitialActions();
      return Some(pick);
    }
    var s := ActionList(b);
    if Player(b) == X {
      MaxValueUnfold(b);
      var vs := MinValues(b, s);
      var k := FirstLargest(vs);
      MinValuesAt(b, s, k);
      LargestAt(vs, k);
      r := Some(s[k]);
      FirstBestForX(b, s, vs, k);
    } else {
      MinValueUnfold(b);
      var vs := MaxValues(b, s);
      var k := FirstSmallest(vs);
      MaxValuesAt(b, s, k);
      SmallestAt(vs, k);
      r := Some(s[k]);
      FirstBestForO(b, s, vs, k);
    }
  }
}
