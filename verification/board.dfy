/** Board evaluation: the pure part of the match engine.
    A board is a square grid of cells. The scans are written over the grid's
    own dimension N (N >= 1), not over a fixed 3, as the engine's scans are. */
module Board {

  /** A cell is empty or holds one of the two symbols. */
  datatype Cell = Empty | X | O

  /** What a player places: a cell that is not empty. */
  type Symbol = c: Cell | c != Empty witness X

  /** The verdict on a board: nothing decided yet, a completed line of one
      symbol, or a full board without a completed line. */
  datatype Outcome = None | Winner(sym: Symbol) | Tie

  /** A board as a value, row by row. */
  type Grid = seq<seq<Cell>>

  /** The dimension of every board a session creates. */
  const Size: nat := 3

  function Other(s: Symbol): (t: Symbol)
    ensures t != s
  {
    if s == X then O else X
  }

  /** N rows of N cells each, N >= 1. */
  predicate Square(g: Grid) {
    |g| > 0 && forall i :: 0 <= i < |g| ==> |g[i]| == |g|
  }

  /** (row, col) names a cell of the square grid g. */
  predicate OnBoard(g: Grid, row: int, col: int) {
    0 <= row < |g| && 0 <= col < |g|
  }

  /** An N x N grid with every cell empty. */
  function EmptyGrid(n: nat): (g: Grid)
    ensures |g| == n
    ensures forall i :: 0 <= i < n ==> |g[i]| == n
    ensures forall i, j :: 0 <= i < n && 0 <= j < n ==> g[i][j] == Empty
  {
    seq(n, i => seq(n, j => Empty))
  }

  /** g with the one cell (row, col) set to c. */
  function SetCell(g: Grid, row: nat, col: nat, c: Cell): (h: Grid)
    requires row < |g| && col < |g[row]|
    ensures |h| == |g| && forall i :: 0 <= i < |g| ==> |h[i]| == |g[i]|
    ensures h[row][col] == c
    ensures forall i, j :: 0 <= i < |g| && 0 <= j < |g[i]| && (i != row || j != col) ==> h[i][j] == g[i][j]
  {
    g[row := g[row][col := c]]
  }

  // ----- Lines -----

  /** Every cell of row i holds c. */
  predicate RowOf(g: Grid, i: nat, c: Cell)
    requires Square(g) && i < |g|
  {
    forall j :: 0 <= j < |g| ==> g[i][j] == c
  }

  /** Every cell of column j holds c. */
  predicate ColOf(g: Grid, j: nat, c: Cell)
    requires Square(g) && j < |g|
  {
    forall i :: 0 <= i < |g| ==> g[i][j] == c
  }

  /** Every cell of the main diagonal (top left to bottom right) holds c. */
  predicate DiagOf(g: Grid, c: Cell)
    requires Square(g)
  {
    forall i :: 0 <= i < |g| ==> g[i][i] == c
  }

  /** Every cell of the anti-diagonal (top right to bottom left) holds c. */
  predicate AntiDiagOf(g: Grid, c: Cell)
    requires Square(g)
  {
    forall i :: 0 <= i < |g| ==> g[i][|g| - 1 - i] == c
  }

  predicate RowWon(g: Grid, i: nat)
    requires Square(g) && i < |g|
  {
    RowOf(g, i, X) || RowOf(g, i, O)
  }

  predicate ColWon(g: Grid, j: nat)
    requires Square(g) && j < |g|
  {
    ColOf(g, j, X) || ColOf(g, j, O)
  }

  predicate DiagWon(g: Grid)
    requires Square(g)
  {
    DiagOf(g, X) || DiagOf(g, O)
  }

  predicate AntiDiagWon(g: Grid)
    requires Square(g)
  {
    AntiDiagOf(g, X) || AntiDiagOf(g, O)
  }

  /** Some row, column or diagonal of g consists entirely of s. */
  predicate HasLine(g: Grid, s: Symbol)
    requires Square(g)
  {
    || (exists i :: 0 <= i < |g| && RowOf(g, i, s))
    || (exists j :: 0 <= j < |g| && ColOf(g, j, s))
    || DiagOf(g, s)
    || AntiDiagOf(g, s)
  }

  predicate NoLine(g: Grid)
    requires Square(g)
  {
    !HasLine(g, X) && !HasLine(g, O)
  }

  /** No cell of g is empty. */
  predicate Full(g: Grid)
    requires Square(g)
  {
    forall i, j :: 0 <= i < |g| && 0 <= j < |g| ==> g[i][j] != Empty
  }

  // ----- The scans, in the engine's order -----

  /** Rows from `from` downwards: the first row whose first cell is not empty
      and equals every other cell of the row decides, with that cell's symbol. */
  function RowScan(g: Grid, from: nat): (r: Outcome)
    requires Square(g) && from <= |g|
    ensures r != Tie
    ensures r == None <==> forall i :: from <= i < |g| ==> !RowWon(g, i)
    ensures r.Winner? ==>
      exists i :: from <= i < |g| && RowOf(g, i, r.sym) && forall k :: from <= k < i ==> !RowWon(g, k)
    decreases |g| - from
  {
    if from == |g| then None
    else if g[from][0] != Empty && RowOf(g, from, g[from][0]) then
      assert RowWon(g, from);
      Winner(g[from][0])
    else RowScan(g, from + 1)
  }

  /** Columns from `from` rightwards, as RowScan does for rows. */
  function ColScan(g: Grid, from: nat): (r: Outcome)
    requires Square(g) && from <= |g|
    ensures r != Tie
    ensures r == None <==> forall j :: from <= j < |g| ==> !ColWon(g, j)
    ensures r.Winner? ==>
      exists j :: from <= j < |g| && ColOf(g, j, r.sym) && forall k :: from <= k < j ==> !ColWon(g, k)
    decreases |g| - from
  {
    if from == |g| then None
    else if g[0][from] != Empty && ColOf(g, from, g[0][from]) then
      assert ColWon(g, from);
      Winner(g[0][from])
    else ColScan(g, from + 1)
  }

  /** The main diagonal, then the anti-diagonal. */
  function DiagonalScan(g: Grid): (r: Outcome)
    requires Square(g)
    ensures r != Tie
    ensures r == None <==> !DiagWon(g) && !AntiDiagWon(g)
    ensures DiagWon(g) ==> r.Winner? && DiagOf(g, r.sym)
    ensures !DiagWon(g) && AntiDiagWon(g) ==> r.Winner? && AntiDiagOf(g, r.sym)
  {
    var n := |g|;
    if g[0][0] != Empty && DiagOf(g, g[0][0]) then Winner(g[0][0])
    else if g[0][n - 1] != Empty && AntiDiagOf(g, g[0][n - 1]) then Winner(g[0][n - 1])
    else None
  }

  /** The verdict on g: rows, then columns, then diagonals; failing all
      three, a full board is a tie and any other board is undecided. */
  function Evaluate(g: Grid): Outcome
    requires Square(g)
  {
    var rows := RowScan(g, 0);
    if rows != None then rows
    else
      var cols := ColScan(g, 0);
      if cols != None then cols
      else
        var diagonals := DiagonalScan(g);
        if diagonals != None then diagonals
        else if Full(g) then Tie
        else None
  }

  // ----- What the verdict means -----

  lemma NoRowWonIsNoRowLine(g: Grid, s: Symbol)
    requires Square(g)
    requires forall i :: 0 <= i < |g| ==> !RowWon(g, i)
    ensures !exists i :: 0 <= i < |g| && RowOf(g, i, s)
  {
    if exists i :: 0 <= i < |g| && RowOf(g, i, s) {
      var i :| 0 <= i < |g| && RowOf(g, i, s);
      assert RowWon(g, i);
    }
  }

  lemma NoColWonIsNoColLine(g: Grid, s: Symbol)
    requires Square(g)
    requires forall j :: 0 <= j < |g| ==> !ColWon(g, j)
    ensures !exists j :: 0 <= j < |g| && ColOf(g, j, s)
  {
    if exists j :: 0 <= j < |g| && ColOf(g, j, s) {
      var j :| 0 <= j < |g| && ColOf(g, j, s);
      assert ColWon(g, j);
    }
  }

  /** A winner always has a completed line; a tie is exactly a full board
      without a completed line; "undecided" is exactly a board with an empty
      cell and no completed line. In particular a full board with a
      completed line reports a winner, never a tie. */
  lemma EvaluateCorrect(g: Grid)
    requires Square(g)
    ensures Evaluate(g).Winner? ==> HasLine(g, Evaluate(g).sym)
    ensures Evaluate(g) == Tie <==> Full(g) && NoLine(g)
    ensures Evaluate(g) == None <==> !Full(g) && NoLine(g)
  {
    var rows, cols, diagonals := RowScan(g, 0), ColScan(g, 0), DiagonalScan(g);
    if rows == None && cols == None && diagonals == None {
      NoRowWonIsNoRowLine(g, X);
      NoRowWonIsNoRowLine(g, O);
      NoColWonIsNoColLine(g, X);
      NoColWonIsNoColLine(g, O);
      assert NoLine(g);
    } else if rows.Winner? {
      var i :| 0 <= i < |g| && RowOf(g, i, rows.sym) && forall k :: 0 <= k < i ==> !RowWon(g, k);
      assert HasLine(g, rows.sym);
    } else if cols.Winner? {
      var j :| 0 <= j < |g| && ColOf(g, j, cols.sym) && forall k :: 0 <= k < j ==> !ColWon(g, k);
      assert HasLine(g, cols.sym);
    }
  }

  /** A completed line is always reported as a winner. */
  lemma LineIsReported(g: Grid, s: Symbol)
    requires Square(g) && HasLine(g, s)
    ensures Evaluate(g).Winner?
  {
    EvaluateCorrect(g);
  }

  /** The order of the scans decides which line is reported: the first
      completed row; failing that the first completed column; failing that
      the main diagonal; failing that the anti-diagonal. */
  lemma EvaluatePriority(g: Grid)
    requires Square(g)
    ensures forall i :: 0 <= i < |g| && RowWon(g, i) && (forall k :: 0 <= k < i ==> !RowWon(g, k))
              ==> Evaluate(g) == Winner(g[i][0])
    ensures (forall i :: 0 <= i < |g| ==> !RowWon(g, i)) ==>
              forall j :: 0 <= j < |g| && ColWon(g, j) && (forall k :: 0 <= k < j ==> !ColWon(g, k))
                ==> Evaluate(g) == Winner(g[0][j])
    ensures (forall i :: 0 <= i < |g| ==> !RowWon(g, i)) && (forall j :: 0 <= j < |g| ==> !ColWon(g, j)) ==>
              (DiagWon(g) ==> Evaluate(g) == Winner(g[0][0])) &&
              (!DiagWon(g) && AntiDiagWon(g) ==> Evaluate(g) == Winner(g[0][|g| - 1]))
  {
    forall i | 0 <= i < |g| && RowWon(g, i) && (forall k :: 0 <= k < i ==> !RowWon(g, k))
      ensures Evaluate(g) == Winner(g[i][0])
    {
      var r := RowScan(g, 0);
      assert r != None;
      var i' :| 0 <= i' < |g| && RowOf(g, i', r.sym) && forall k :: 0 <= k < i' ==> !RowWon(g, k);
      assert RowWon(g, i');
      assert i' == i;
      assert g[i][0] == r.sym;
    }
    if forall i :: 0 <= i < |g| ==> !RowWon(g, i) {
      forall j | 0 <= j < |g| && ColWon(g, j) && (forall k :: 0 <= k < j ==> !ColWon(g, k))
        ensures Evaluate(g) == Winner(g[0][j])
      {
        var c := ColScan(g, 0);
        assert c != None;
        var j' :| 0 <= j' < |g| && ColOf(g, j', c.sym) && forall k :: 0 <= k < j' ==> !ColWon(g, k);
        assert ColWon(g, j');
        assert j' == j;
        assert g[0][j] == c.sym;
      }
    }
  }

  // ----- Placing one symbol -----

  /** The rows and columns of g after s fills the empty cell (row, col):
      none of them consists of the other symbol. */
  lemma PlacementRowsCols(g: Grid, row: nat, col: nat, s: Symbol)
    requires Square(g) && NoLine(g)
    requires row < |g| && col < |g| && g[row][col] == Empty
    ensures Square(SetCell(g, row, col, s))
    ensures forall i :: 0 <= i < |g| ==> !RowOf(SetCell(g, row, col, s), i, Other(s))
    ensures forall j :: 0 <= j < |g| ==> !ColOf(SetCell(g, row, col, s), j, Other(s))
  {
    var h, t, n := SetCell(g, row, col, s), Other(s), |g|;
    assert !HasLine(g, t);
    forall i | 0 <= i < n
      ensures !RowOf(h, i, t)
    {
      if i == row {
        assert h[row][col] != t;
      } else {
        assert !RowOf(g, i, t);
        var j :| 0 <= j < n && g[i][j] != t;
        assert h[i][j] == g[i][j];
      }
    }
    forall j | 0 <= j < n
      ensures !ColOf(h, j, t)
    {
      if j == col {
        assert h[row][col] != t;
      } else {
        assert !ColOf(g, j, t);
        var i :| 0 <= i < n && g[i][j] != t;
        assert h[i][j] == g[i][j];
      }
    }
  }

  /** The two diagonals of g after s fills the empty cell (row, col): neither
      consists of the other symbol. */
  lemma PlacementDiagonals(g: Grid, row: nat, col: nat, s: Symbol)
    requires Square(g) && NoLine(g)
    requires row < |g| && col < |g| && g[row][col] == Empty
    ensures Square(SetCell(g, row, col, s))
    ensures !DiagOf(SetCell(g, row, col, s), Other(s))
    ensures !AntiDiagOf(SetCell(g, row, col, s), Other(s))
  {
  }

  /** Writing s into an empty cell of a board without a completed line can
      complete a line of s only: never one of the other symbol. */
  lemma PlacementOnlyCompletesMover(g: Grid, row: nat, col: nat, s: Symbol)
    requires Square(g) && NoLine(g)
    requires row < |g| && col < |g| && g[row][col] == Empty
    ensures Square(SetCell(g, row, col, s))
    ensures !HasLine(SetCell(g, row, col, s), Other(s))
    ensures Evaluate(SetCell(g, row, col, s)) != Winner(Other(s))
  {
    var h := SetCell(g, row, col, s);
    PlacementRowsCols(g, row, col, s);
    PlacementDiagonals(g, row, col, s);
    assert !HasLine(h, Other(s));
    EvaluateCorrect(h);
  }

  /** A board with every cell empty is undecided. */
  lemma EmptyGridUndecided(n: nat)
    requires n > 0
    ensures Square(EmptyGrid(n))
    ensures Evaluate(EmptyGrid(n)) == None
  {
    var g := EmptyGrid(n);
    assert g[0][0] == Empty;
    forall s: Symbol
      ensures !HasLine(g, s)
    {
      forall i | 0 <= i < n
        ensures !RowOf(g, i, s) && !ColOf(g, i, s)
      {
        assert g[i][0] == Empty && g[0][i] == Empty;
      }
      assert g[0][n - 1] == Empty;
    }
    EvaluateCorrect(g);
  }

  // ----- Counting symbols -----

  function CountRow(r: seq<Cell>, c: Cell): nat {
    if r == [] then 0 else (if r[0] == c then 1 else 0) + CountRow(r[1..], c)
  }

  /** The number of cells of g holding c. */
  function Count(g: Grid, c: Cell): nat {
    if g == [] then 0 else CountRow(g[0], c) + Count(g[1..], c)
  }

  lemma {:induction false} CountRowAbsent(r: seq<Cell>, c: Cell)
    requires forall j :: 0 <= j < |r| ==> r[j] != c
    ensures CountRow(r, c) == 0
  {
    if r != [] {
      CountRowAbsent(r[1..], c);
    }
  }

  /** A symbol that appears nowhere counts zero. */
  lemma {:induction false} CountAbsent(g: Grid, c: Cell)
    requires forall i, j :: 0 <= i < |g| && 0 <= j < |g[i]| ==> g[i][j] != c
    ensures Count(g, c) == 0
  {
    if g != [] {
      CountRowAbsent(g[0], c);
      CountAbsent(g[1..], c);
    }
  }

  lemma {:induction false} CountRowSet(r: seq<Cell>, j: nat, s: Symbol, c: Symbol)
    requires j < |r| && r[j] == Empty
    ensures CountRow(r[j := s], c) == CountRow(r, c) + (if c == s then 1 else 0)
  {
    if j == 0 {
      assert r[j := s][1..] == r[1..];
    } else {
      assert r[j := s][1..] == r[1..][j - 1 := s];
      CountRowSet(r[1..], j - 1, s, c);
    }
  }

  /** Filling an empty cell with s adds one to the count of s and leaves the
      count of the other symbol as it was. */
  lemma {:induction false} CountSet(g: Grid, row: nat, col: nat, s: Symbol, c: Symbol)
    requires row < |g| && col < |g[row]| && g[row][col] == Empty
    ensures Count(SetCell(g, row, col, s), c) == Count(g, c) + (if c == s then 1 else 0)
  {
    var h := SetCell(g, row, col, s);
    if row == 0 {
      assert h[1..] == g[1..];
      CountRowSet(g[0], col, s, c);
    } else {
      assert h[0] == g[0];
      assert h[1..] == SetCell(g[1..], row - 1, col, s);
      CountSet(g[1..], row - 1, col, s, c);
    }
  }
}
