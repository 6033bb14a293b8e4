/** The engine's board helpers as they run: over a board held in a
    two-dimensional array, with nested loops, early exits and a local
    `winCheck` flag. Each is proved to compute the value the corresponding
    function of module Board gives for the board's contents. */
module BoardScan {
  import opened Board

  /** The contents of b as a value, row by row. */
  ghost function GridOf(b: array2<Cell>): (g: Grid)
    reads b
    ensures |g| == b.Length0
    ensures forall i :: 0 <= i < b.Length0 ==> |g[i]| == b.Length1
  {
    seq(b.Length0, i requires 0 <= i < b.Length0 reads b =>
      seq(b.Length1, j requires 0 <= j < b.Length1 reads b => b[i, j]))
  }

  /** A fresh Size x Size board with every cell empty. */
  method CreateNewBoard() returns (b: array2<Cell>)
    ensures fresh(b)
    ensures b.Length0 == Size && b.Length1 == Size
    ensures GridOf(b) == EmptyGrid(Size)
  {
    b := new Cell[Size, Size];
    for i := 0 to Size
      invariant forall r, c :: 0 <= r < i && 0 <= c < Size ==> b[r, c] == Empty
    {
      for j := 0 to Size
        invariant forall r, c :: 0 <= r < i && 0 <= c < Size ==> b[r, c] == Empty
        invariant forall c :: 0 <= c < j ==> b[i, c] == Empty
      {
        b[i, j] := Empty;
      }
    }
    SameGrid(b, EmptyGrid(Size));
  }

  lemma GridOfCells(b: array2<Cell>)
    ensures forall i, j :: 0 <= i < b.Length0 && 0 <= j < b.Length1 ==> GridOf(b)[i][j] == b[i, j]
  {
  }

  lemma SameGrid(b: array2<Cell>, g: Grid)
    requires |g| == b.Length0
    requires forall i :: 0 <= i < |g| ==> |g[i]| == b.Length1
    requires forall i, j :: 0 <= i < b.Length0 && 0 <= j < b.Length1 ==> g[i][j] == b[i, j]
    ensures GridOf(b) == g
  {
    var h := GridOf(b);
    GridOfCells(b);
    forall i | 0 <= i < |g|
      ensures h[i] == g[i]
    {
      assert |h[i]| == |g[i]|;
    }
  }

  /** Whether (row, col) addresses a cell of b. It answers for every pair of
      integers, the negative and the too-large ones included. */
  function IsCoordinateValid(b: array2<Cell>, row: int, col: int): (r: bool)
    ensures r <==> 0 <= row < b.Length0 && 0 <= col < b.Length1
  {
    if row < 0 || col < 0 then false
    else if row >= b.Length0 || b.Length0 == 0 || col >= b.Length1 then false
    else true
  }

  /** Rows top to bottom; the first one whose first cell is not empty and
      equal to all of its other cells gives the winner. */
  method CheckRows(b: array2<Cell>) returns (w: Outcome)
    requires b.Length0 == b.Length1 > 0
    ensures w == RowScan(GridOf(b), 0)
  {
    ghost var g := GridOf(b);
    GridOfCells(b);
    var row := 0;
    while row < b.Length0
      invariant 0 <= row <= b.Length0
      invariant RowScan(g, row) == RowScan(g, 0)
    {
      var element := b[row, 0];
      if element != Empty {
        var winCheck := true;
        var col := 1;
        while col < b.Length1
          invariant 1 <= col <= b.Length1
          invariant winCheck
          invariant forall k :: 0 <= k < col ==> b[row, k] == element
        {
          if b[row, col] != element {
            winCheck := false;
            break;
          }
          col := col + 1;
        }
        if winCheck {
          assert RowOf(g, row, element);
          return Winner(element);
        }
        assert g[row][col] != element;
      }
      row := row + 1;
    }
    return None;
  }

  /** Columns left to right, as CheckRows does for rows. */
  method CheckCols(b: array2<Cell>) returns (w: Outcome)
    requires b.Length0 == b.Length1 > 0
    ensures w == ColScan(GridOf(b), 0)
  {
    ghost var g := GridOf(b);
    GridOfCells(b);
    var col := 0;
    while col < b.Length1
      invariant 0 <= col <= b.Length1
      invariant ColScan(g, col) == ColScan(g, 0)
    {
      var element := b[0, col];
      if element != Empty {
        var winCheck := true;
        var row := 1;
        while row < b.Length0
          invariant 1 <= row <= b.Length0
          invariant winCheck
          invariant forall k :: 0 <= k < row ==> b[k, col] == element
        {
          if b[row, col] != element {
            winCheck := false;
            break;
          }
          row := row + 1;
        }
        if winCheck {
          assert ColOf(g, col, element);
          return Winner(element);
        }
        assert g[row][col] != element;
      }
      col := col + 1;
    }
    return None;
  }

  /** The main diagonal from the top left corner, then the anti-diagonal
      from the top right corner. */
  method CheckDiagonals(b: array2<Cell>) returns (w: Outcome)
    requires b.Length0 == b.Length1 > 0
    ensures w == DiagonalScan(GridOf(b))
  {
    ghost var g := GridOf(b);
    GridOfCells(b);
    var size := b.Length0;
    var element := b[0, 0];
    var winCheck := true;
    if element != Empty {
      var i := 1;
      while i < size
        invariant 1 <= i <= size
        invariant winCheck
        invariant forall k :: 0 <= k < i ==> b[k, k] == element
      {
        if b[i, i] != element {
          winCheck := false;
          break;
        }
        i := i + 1;
      }
      if winCheck {
        assert DiagOf(g, element);
        return Winner(element);
      }
      assert g[i][i] != element;
    }

    element := b[0, size - 1];
    if element != Empty {
      winCheck := true;
      var i := 1;
      while i < size
        invariant 1 <= i <= size
        invariant winCheck
        invariant forall k :: 0 <= k < i ==> g[k][size - 1 - k] == element
      {
        if b[i, size - i - 1] != element {
          winCheck := false;
          break;
        }
        i := i + 1;
      }
      if winCheck {
        assert AntiDiagOf(g, element);
        return Winner(element);
      }
      assert g[i][size - 1 - i] != element;
    }
    return None;
  }

  /** Tie when no cell is empty; the scan stops at the first empty cell. */
  method CheckTie(b: array2<Cell>) returns (w: Outcome)
    requires b.Length0 == b.Length1 > 0
    ensures w == Tie <==> Full(GridOf(b))
    ensures w == None <==> !Full(GridOf(b))
  {
    ghost var g := GridOf(b);
    GridOfCells(b);
    for i := 0 to b.Length0
      invariant forall r, c :: 0 <= r < i && 0 <= c < b.Length1 ==> b[r, c] != Empty
    {
      for j := 0 to b.Length1
        invariant forall c :: 0 <= c < j ==> b[i, c] != Empty
      {
        if b[i, j] == Empty {
          assert g[i][j] == Empty;
          return None;
        }
      }
    }
    return Tie;
  }

  /** Rows, then columns, then diagonals, then the tie check; the first
      scan that finds something decides. */
  method CheckWinner(b: array2<Cell>) returns (w: Outcome)
    requires b.Length0 == b.Length1 > 0
    ensures w == Evaluate(GridOf(b))
  {
    w := CheckRows(b);
    if w != None {
      return;
    }
    w := CheckCols(b);
    if w != None {
      return;
    }
    w := CheckDiagonals(b);
    if w != None {
      return;
    }
    w := CheckTie(b);
  }
}
