/** The session's protocol as values: the state one match session keeps, the
    messages its two players send, the notifications it sends back, and the
    effect of each message as a function from the old state to the new state
    and the notifications it produces. The class TicTacToeSession in module
    GameSession is proved to behave exactly as these functions say. */
module Protocol {
  import opened Board

  datatype Score = Score(xWon: nat, oWon: nat)

  /** What the session sends to one player. */
  datatype Event =
    | GameStarted
    | InitialGameData(symbol: Symbol, isXTurn: bool, score: Score)
    | TurnPlayed(isXTurn: bool, row: int, col: int, symbol: Symbol)
    | GameOver(winner: Outcome, score: Score)
      // the payload of gameRestarted is a bare boolean, the new turn flag
    | GameRestarted(isXTurn: bool)

  /** One send: the roster index of the recipient and what it receives. */
  datatype Emit = Emit(to: nat, event: Event)

  /** What a player sends to the session. */
  datatype Request =
    | RequestInitialData
    | PlacePiece(row: int, col: int)
    | PlayAgain

  /** A request together with the roster index of its sender. */
  datatype Inbound = Inbound(from: nat, request: Request)

  /** The state of one session. `isGameStarted` means "a game is in
      progress"; it is false between a decisive move and the next restart. */
  datatype Game = Game(grid: Grid, isXturn: bool, isGameStarted: bool, score: Score)

  /** The state after a message and what was sent, in sending order. */
  datatype Step = Step(next: Game, out: seq<Emit>)

  /** A session has exactly two players, in join order. */
  const PlayerCount: nat := 2

  /** The symbol of the participant at roster index `index`: even indices
      play X, odd ones O. */
  function SymbolOf(index: nat): Symbol {
    if index % 2 == 0 then X else O
  }

  /** The symbol whose turn it is. */
  function TurnSymbol(isXturn: bool): Symbol {
    if isXturn then X else O
  }

  predicate WellFormed(g: Game) {
    |g.grid| == Size && Square(g.grid)
  }

  /** X moves first in every game and the players alternate, so X has placed
      as many pieces as O when it is X's turn and one more otherwise. */
  predicate Balanced(g: Game) {
    Count(g.grid, X) == Count(g.grid, O) + (if g.isXturn then 0 else 1)
  }

  /** What every reachable session state satisfies: a game in progress has
      no completed line and no full board. */
  predicate Inv(g: Game) {
    WellFormed(g) && Balanced(g) && (g.isGameStarted ==> Evaluate(g.grid) == None)
  }

  /** The same event to every player, in roster order. */
  function Broadcast(n: nat, e: Event): (out: seq<Emit>)
    ensures |out| == n
    ensures forall k :: 0 <= k < n ==> out[k] == Emit(k, e)
  {
    if n == 0 then [] else Broadcast(n - 1, e) + [Emit(n - 1, e)]
  }

  /** The notifications of an accepted move, for the first n players in
      roster order: each player's turnPlayed, then, when the move decided the
      game, that same player's gameOver. Every player gets one notice per
      move, two when the move decided the game, and nobody else gets any. */
  function MoveNotices(n: nat, isXTurn: bool, row: int, col: int, sym: Symbol, winner: Outcome, score: Score): (out: seq<Emit>)
    ensures |out| == if winner == None then n else 2 * n
    ensures forall k :: 0 <= k < |out| ==> out[k].to < n
  {
    if n == 0 then []
    else
      MoveNotices(n - 1, isXTurn, row, col, sym, winner, score)
      + [Emit(n - 1, TurnPlayed(isXTurn, row, col, sym))]
      + (if winner != None then [Emit(n - 1, GameOver(winner, score))] else [])
  }

  /** For the two players of a session: player 0's notices, then player 1's. */
  lemma TwoPlayerNotices(isXTurn: bool, row: int, col: int, sym: Symbol, winner: Outcome, score: Score)
    ensures var played, over := TurnPlayed(isXTurn, row, col, sym), GameOver(winner, score);
      MoveNotices(PlayerCount, isXTurn, row, col, sym, winner, score)
        == if winner == None then [Emit(0, played), Emit(1, played)]
           else [Emit(0, played), Emit(0, over), Emit(1, played), Emit(1, over)]
  {
    var played, over := TurnPlayed(isXTurn, row, col, sym), GameOver(winner, score);
    assert MoveNotices(0, isXTurn, row, col, sym, winner, score) == [];
    assert MoveNotices(1, isXTurn, row, col, sym, winner, score)
        == if winner == None then [Emit(0, played)] else [Emit(0, played), Emit(0, over)];
  }

  /** The score after a verdict: a winner's counter goes up by one. The
      total rises by one exactly on a win, and no counter ever falls. */
  function Tally(score: Score, winner: Outcome): (r: Score)
    ensures r.xWon + r.oWon == score.xWon + score.oWon + (if winner.Winner? then 1 else 0)
    ensures r.xWon >= score.xWon && r.oWon >= score.oWon
  {
    if winner == Winner(X) then score.(xWon := score.xWon + 1)
    else if winner == Winner(O) then score.(oWon := score.oWon + 1)
    else score
  }

  /** A new session: an empty board, X to move, a game in progress, no wins
      yet, and gameStarted sent to each player in roster order. */
  function NewSession(): Step {
    Step(Game(EmptyGrid(Size), true, true, Score(0, 0)), Broadcast(PlayerCount, GameStarted))
  }

  /** The sender holds the symbol whose turn it is. */
  predicate IsPlayerTurn(g: Game, p: nat): (r: bool)
    ensures r <==> SymbolOf(p) == TurnSymbol(g.isXturn)
  {
    (SymbolOf(p) == X && g.isXturn) || (SymbolOf(p) == O && !g.isXturn)
  }

  /** Placing sym at (row, col): ignored unless the coordinate is on the
      board, the cell is empty and a game is in progress. */
  function Place(g: Game, row: int, col: int, sym: Symbol): (r: Step)
    requires WellFormed(g)
    ensures WellFormed(r.next)
  {
    if !OnBoard(g.grid, row, col) || g.grid[row][col] != Empty || !g.isGameStarted then Step(g, [])
    else
      var grid := SetCell(g.grid, row, col, sym);
      var isXturn := !g.isXturn;
      var winner := Evaluate(grid);
      var isGameStarted := if winner != None then false else g.isGameStarted;
      var score := Tally(g.score, winner);
      Step(Game(grid, isXturn, isGameStarted, score),
           MoveNotices(PlayerCount, isXturn, row, col, sym, winner, score))
  }

  /** requestInitialData from player p: p alone is sent its symbol, the turn
      flag and the score. Nothing changes and nobody else is sent anything. */
  function SendInitialData(g: Game, p: nat): (r: Step)
    ensures r.next == g
    ensures |r.out| == 1 && r.out[0].to == p
  {
    Step(g, [Emit(p, InitialGameData(SymbolOf(p), g.isXturn, g.score))])
  }

  /** placePiece from player p: passed on with p's symbol on p's turn,
      ignored otherwise. */
  function Move(g: Game, p: nat, row: int, col: int): (r: Step)
    requires WellFormed(g)
    ensures WellFormed(r.next)
  {
    if IsPlayerTurn(g, p) then Place(g, row, col, SymbolOf(p)) else Step(g, [])
  }

  /** playAgain: ignored while a game is in progress; otherwise an empty
      board, X to move, a game in progress, and the new turn flag to every
      player. */
  function Restart(g: Game): (r: Step)
    requires WellFormed(g)
    ensures WellFormed(r.next)
  {
    if g.isGameStarted then Step(g, [])
    else
      var next := Game(EmptyGrid(Size), true, true, g.score);
      Step(next, Broadcast(PlayerCount, GameRestarted(next.isXturn)))
  }

  /** The effect of one message from player p. */
  function Handle(g: Game, m: Inbound): (r: Step)
    requires WellFormed(g) && m.from < PlayerCount
    ensures WellFormed(r.next)
  {
    match m.request
    case RequestInitialData => SendInitialData(g, m.from)
    case PlacePiece(row, col) => Move(g, m.from, row, col)
    case PlayAgain => Restart(g)
  }

  /** A whole conversation: the messages handled one at a time, in order,
      and everything sent, in order. */
  function Run(g: Game, ms: seq<Inbound>): (r: Step)
    requires WellFormed(g) && forall k :: 0 <= k < |ms| ==> ms[k].from < PlayerCount
    ensures WellFormed(r.next)
    decreases |ms|
  {
    if ms == [] then Step(g, [])
    else
      var first := Handle(g, ms[0]);
      var rest := Run(first.next, ms[1..]);
      Step(rest.next, first.out + rest.out)
  }

  // ----- Properties -----

  /** A move from p is accepted exactly when it is p's turn, the coordinate
      is on the board, the cell is empty and a game is in progress. */
  predicate Accepts(g: Game, p: nat, row: int, col: int)
    requires WellFormed(g)
  {
    IsPlayerTurn(g, p) && OnBoard(g.grid, row, col) && g.grid[row][col] == Empty && g.isGameStarted
  }

  /** Every session starts alike: all cells empty, no wins, X to move, a game
      in progress, participant 0 playing X and participant 1 playing O, and
      exactly one gameStarted per player, in roster order. */
  lemma NewSessionState()
    ensures var s := NewSession();
      && Inv(s.next)
      && (forall i, j :: 0 <= i < Size && 0 <= j < Size ==> s.next.grid[i][j] == Empty)
      && s.next.score == Score(0, 0)
      && s.next.isXturn && s.next.isGameStarted
      && SymbolOf(0) == X && SymbolOf(1) == O
      && s.out == [Emit(0, GameStarted), Emit(1, GameStarted)]
  {
    var s := NewSession();
    EmptyGridUndecided(Size);
    CountAbsent(s.next.grid, X);
    CountAbsent(s.next.grid, O);
  }

  /** The invariant holds of a new session's state. */
  lemma NewSessionInv(g: Game)
    requires g == NewSession().next
    ensures Inv(g)
  {
    NewSessionState();
  }

  /** A move is silently ignored, with no state change and nothing sent,
      exactly when it fails one of the four guards; an accepted move always
      sends something. */
  lemma PlacementIgnored(g: Game, p: nat, row: int, col: int)
    requires WellFormed(g) && p < PlayerCount
    ensures var r := Handle(g, Inbound(p, PlacePiece(row, col)));
      && (r.out == [] <==> !Accepts(g, p, row, col))
      && (!Accepts(g, p, row, col) ==> r.next == g)
  {
  }

  /** An accepted move writes the mover's symbol into exactly the one cell,
      flips the turn, ends the game exactly when the verdict is decisive,
      adds one to the winner's counter only, and sends each player in roster
      order its turnPlayed (with the flipped turn) followed, on a decisive
      verdict, by its gameOver with the new score. */
  lemma PlacementAccepted(g: Game, p: nat, row: int, col: int)
    requires WellFormed(g) && p < PlayerCount && Accepts(g, p, row, col)
    ensures var r := Handle(g, Inbound(p, PlacePiece(row, col)));
      var s, w := SymbolOf(p), Evaluate(r.next.grid);
      var played := TurnPlayed(r.next.isXturn, row, col, s);
      var over := GameOver(w, r.next.score);
      && r.next.grid[row][col] == s
      && (forall i, j :: 0 <= i < Size && 0 <= j < Size && (i, j) != (row, col) ==>
            r.next.grid[i][j] == g.grid[i][j])
      && r.next.isXturn == !g.isXturn
      && (r.next.isGameStarted <==> w == None)
      && (w == Winner(X) ==> r.next.score == Score(g.score.xWon + 1, g.score.oWon))
      && (w == Winner(O) ==> r.next.score == Score(g.score.xWon, g.score.oWon + 1))
      && (!w.Winner? ==> r.next.score == g.score)
      && r.out == if w == None then [Emit(0, played), Emit(1, played)]
                  else [Emit(0, played), Emit(0, over), Emit(1, played), Emit(1, over)]
  {
    var w := Evaluate(SetCell(g.grid, row, col, SymbolOf(p)));
    TwoPlayerNotices(!g.isXturn, row, col, SymbolOf(p), w, Tally(g.score, w));
  }

  /** In a reachable state an accepted move can only be won by the mover:
      the other player's counter never moves on it. */
  lemma WinnerIsMover(g: Game, p: nat, row: int, col: int)
    requires Inv(g) && p < PlayerCount && Accepts(g, p, row, col)
    ensures var r := Handle(g, Inbound(p, PlacePiece(row, col)));
      && Evaluate(r.next.grid) != Winner(Other(SymbolOf(p)))
      && (SymbolOf(p) == X ==> r.next.score.oWon == g.score.oWon)
      && (SymbolOf(p) == O ==> r.next.score.xWon == g.score.xWon)
  {
    EvaluateCorrect(g.grid);
    PlacementOnlyCompletesMover(g.grid, row, col, SymbolOf(p));
  }

  /** A restart, whether ignored or not, keeps the invariant. */
  lemma RestartKeepsInv(g: Game)
    requires Inv(g)
    ensures Inv(Restart(g).next)
  {
    if !g.isGameStarted {
      EmptyGridUndecided(Size);
      CountAbsent(EmptyGrid(Size), X);
      CountAbsent(EmptyGrid(Size), O);
    }
  }

  /** A placement by the player whose turn it is keeps the invariant. */
  lemma PlaceKeepsInv(g: Game, row: int, col: int, sym: Symbol)
    requires Inv(g) && sym == TurnSymbol(g.isXturn)
    ensures Inv(Place(g, row, col, sym).next)
  {
    if OnBoard(g.grid, row, col) && g.grid[row][col] == Empty && g.isGameStarted {
      CountSet(g.grid, row, col, sym, X);
      CountSet(g.grid, row, col, sym, O);
    }
  }

  /** Every message keeps the session invariant. */
  lemma HandlePreservesInv(g: Game, m: Inbound)
    requires Inv(g) && m.from < PlayerCount
    ensures Inv(Handle(g, m).next)
  {
    match m.request
    case RequestInitialData =>
    case PlacePiece(row, col) =>
      if IsPlayerTurn(g, m.from) {
        PlaceKeepsInv(g, row, col, SymbolOf(m.from));
      }
    case PlayAgain =>
      RestartKeepsInv(g);
  }

  /** No message lowers a counter, and at most one counter goes up, by one. */
  lemma HandleScoreMonotone(g: Game, m: Inbound)
    requires WellFormed(g) && m.from < PlayerCount
    ensures var s := Handle(g, m).next.score;
      && g.score.xWon <= s.xWon && g.score.oWon <= s.oWon
      && s.xWon + s.oWon <= g.score.xWon + g.score.oWon + 1
  {
  }

  /** playAgain is ignored, with nothing sent, while a game is in progress;
      otherwise it starts a new game on an empty board with X to move, keeps
      the score, and sends gameRestarted(true) to each player in roster
      order. */
  lemma PlayAgainEffect(g: Game, p: nat)
    requires WellFormed(g) && p < PlayerCount
    ensures var r := Handle(g, Inbound(p, PlayAgain));
      && (g.isGameStarted ==> r == Step(g, []))
      && (!g.isGameStarted ==>
            && (forall i, j :: 0 <= i < Size && 0 <= j < Size ==> r.next.grid[i][j] == Empty)
            && r.next.isXturn && r.next.isGameStarted && r.next.score == g.score
            && Evaluate(r.next.grid) == None
            && r.out == [Emit(0, GameRestarted(true)), Emit(1, GameRestarted(true))])
  {
    EmptyGridUndecided(Size);
  }

  /** Any sequence of messages keeps the invariant. */
  lemma {:induction false} RunPreservesInv(g: Game, ms: seq<Inbound>)
    requires Inv(g) && forall k :: 0 <= k < |ms| ==> ms[k].from < PlayerCount
    ensures Inv(Run(g, ms).next)
    decreases |ms|
  {
    if ms != [] {
      HandlePreservesInv(g, ms[0]);
      RunPreservesInv(Handle(g, ms[0]).next, ms[1..]);
    }
  }

  /** Over any sequence of messages neither counter ever goes down, and
      every win is a single increment: the sum rises by at most one per
      message. */
  lemma {:induction false} RunScoreMonotone(g: Game, ms: seq<Inbound>)
    requires WellFormed(g) && forall k :: 0 <= k < |ms| ==> ms[k].from < PlayerCount
    ensures var s := Run(g, ms).next.score;
      && g.score.xWon <= s.xWon && g.score.oWon <= s.oWon
      && s.xWon + s.oWon <= g.score.xWon + g.score.oWon + |ms|
    decreases |ms|
  {
    if ms != [] {
      HandleScoreMonotone(g, ms[0]);
      RunScoreMonotone(Handle(g, ms[0]).next, ms[1..]);
    }
  }

  /** Every state a session reaches, whatever messages it is sent, satisfies
      the invariant. */
  lemma ReachableInv(start: Game, ms: seq<Inbound>)
    requires start == NewSession().next
    requires forall k :: 0 <= k < |ms| ==> ms[k].from < PlayerCount
    ensures Inv(Run(start, ms).next)
  {
    NewSessionInv(start);
    RunPreservesInv(start, ms);
  }

  // ----- Scenarios -----

  /** A move far off the board, on a fresh session, changes nothing and
      sends nothing. */
  lemma OffBoardMoveIgnored()
    ensures Handle(NewSession().next, Inbound(0, PlacePiece(5, 5))) == Step(NewSession().next, [])
  {
  }

  /** The fifth move X(0,2), from the position the opening X(0,0), O(1,1),
      X(0,1), O(2,2) reaches (TopRowWinOpening): X completes the top row, the
      game ends, X's counter goes to one, and each player receives turnPlayed
      followed by gameOver with X as the winner. */
  lemma TopRowWin()
    ensures var g := Game([[X, X, Empty], [Empty, O, Empty], [Empty, Empty, O]], true, true, Score(0, 0));
      var played, over := TurnPlayed(false, 0, 2, X), GameOver(Winner(X), Score(1, 0));
      Handle(g, Inbound(0, PlacePiece(0, 2)))
        == Step(Game([[X, X, X], [Empty, O, Empty], [Empty, Empty, O]], false, false, Score(1, 0)),
                [Emit(0, played), Emit(0, over), Emit(1, played), Emit(1, over)])
  {
    var before := [[X, X, Empty], [Empty, O, Empty], [Empty, Empty, O]];
    var after := [[X, X, X], [Empty, O, Empty], [Empty, Empty, O]];
    assert SetCell(before, 0, 2, X)[0] == after[0];
    assert Evaluate(after) == Winner(X);
    assert SetCell(before, 0, 2, X) == after;
    var g := Game(before, true, true, Score(0, 0));
    assert Handle(g, Inbound(0, PlacePiece(0, 2))) == Place(g, 0, 2, X);
    TwoPlayerNotices(false, 0, 2, X, Winner(X), Score(1, 0));
  }

  /** The opening X(0,0), O(1,1), X(0,1), O(2,2), played from a new session
      by participants 0, 1, 0, 1, reaches the position TopRowWin starts from:
      every move is accepted, none decides the game, and X is to move. */
  lemma TopRowWinOpening(start: Game, ms: seq<Inbound>)
    requires start == NewSession().next
    requires ms == [Inbound(0, PlacePiece(0, 0)), Inbound(1, PlacePiece(1, 1)),
                    Inbound(0, PlacePiece(0, 1)), Inbound(1, PlacePiece(2, 2))]
    ensures Run(start, ms).next
         == Game([[X, X, Empty], [Empty, O, Empty], [Empty, Empty, O]], true, true, Score(0, 0))
  {
    var g1 := Game([[X, Empty, Empty], [Empty, Empty, Empty], [Empty, Empty, Empty]], false, true, Score(0, 0));
    var g2 := Game([[X, Empty, Empty], [Empty, O, Empty], [Empty, Empty, Empty]], true, true, Score(0, 0));
    var g3 := Game([[X, X, Empty], [Empty, O, Empty], [Empty, Empty, Empty]], false, true, Score(0, 0));
    var g4 := Game([[X, X, Empty], [Empty, O, Empty], [Empty, Empty, O]], true, true, Score(0, 0));
    OpeningFirst(start, g1);
    OpeningSecond(g1, g2);
    OpeningThird(g2, g3);
    OpeningFourth(g3, g4);
    RunFour(start, ms, g1, g2, g3, g4);
  }

  /** X(0,0) on a new session. */
  lemma OpeningFirst(g0: Game, g1: Game)
    requires g0 == NewSession().next
    requires g1 == Game([[X, Empty, Empty], [Empty, Empty, Empty], [Empty, Empty, Empty]], false, true, Score(0, 0))
    ensures WellFormed(g1) && Handle(g0, Inbound(0, PlacePiece(0, 0))).next == g1
  {
    EmptyBoard();
    assert g0.grid[0][0 := X] == g1.grid[0];
    OpeningMove(g0, 0, 0, 0, g1.grid, 1, 1);
  }

  /** O(1,1) after X(0,0). */
  lemma OpeningSecond(g1: Game, g2: Game)
    requires g1 == Game([[X, Empty, Empty], [Empty, Empty, Empty], [Empty, Empty, Empty]], false, true, Score(0, 0))
    requires g2 == Game([[X, Empty, Empty], [Empty, O, Empty], [Empty, Empty, Empty]], true, true, Score(0, 0))
    ensures WellFormed(g2) && Handle(g1, Inbound(1, PlacePiece(1, 1))).next == g2
  {
    assert g1.grid[1][1 := O] == g2.grid[1];
    OpeningMove(g1, 1, 1, 1, g2.grid, 0, 1);
  }

  /** X(0,1) after X(0,0), O(1,1). */
  lemma OpeningThird(g2: Game, g3: Game)
    requires g2 == Game([[X, Empty, Empty], [Empty, O, Empty], [Empty, Empty, Empty]], true, true, Score(0, 0))
    requires g3 == Game([[X, X, Empty], [Empty, O, Empty], [Empty, Empty, Empty]], false, true, Score(0, 0))
    ensures WellFormed(g3) && Handle(g2, Inbound(0, PlacePiece(0, 1))).next == g3
  {
    assert g2.grid[0][1 := X] == g3.grid[0];
    OpeningMove(g2, 0, 0, 1, g3.grid, 0, 2);
  }

  /** O(2,2) after X(0,0), O(1,1), X(0,1). */
  lemma OpeningFourth(g3: Game, g4: Game)
    requires g3 == Game([[X, X, Empty], [Empty, O, Empty], [Empty, Empty, Empty]], false, true, Score(0, 0))
    requires g4 == Game([[X, X, Empty], [Empty, O, Empty], [Empty, Empty, O]], true, true, Score(0, 0))
    ensures WellFormed(g4) && Handle(g3, Inbound(1, PlacePiece(2, 2))).next == g4
  {
    assert g3.grid[2][2 := O] == g4.grid[2];
    OpeningMove(g3, 1, 2, 2, g4.grid, 0, 2);
  }

  /** Four messages, each taking the state to the next one given. */
  lemma RunFour(g0: Game, ms: seq<Inbound>, g1: Game, g2: Game, g3: Game, g4: Game)
    requires WellFormed(g0) && WellFormed(g1) && WellFormed(g2) && WellFormed(g3)
    requires |ms| == 4
    requires ms[0].from < PlayerCount && ms[1].from < PlayerCount
    requires ms[2].from < PlayerCount && ms[3].from < PlayerCount
    requires Handle(g0, ms[0]).next == g1 && Handle(g1, ms[1]).next == g2
    requires Handle(g2, ms[2]).next == g3 && Handle(g3, ms[3]).next == g4
    ensures Run(g0, ms).next == g4
  {
    forall k | 0 <= k < |ms|
      ensures ms[k].from < PlayerCount
    {
      assert k == 0 || k == 1 || k == 2 || k == 3;
    }
    assert ms[1..][1..] == ms[2..] && ms[2..][1..] == ms[3..] && ms[3..][1..] == [];
    assert Run(g3, ms[3..]).next == g4;
    assert Run(g2, ms[2..]).next == g4;
    assert Run(g1, ms[1..]).next == g4;
  }

  /** The empty 3 x 3 board, written out. */
  lemma EmptyBoard()
    ensures EmptyGrid(Size) == [[Empty, Empty, Empty], [Empty, Empty, Empty], [Empty, Empty, Empty]]
  {
    var e := [[Empty, Empty, Empty], [Empty, Empty, Empty], [Empty, Empty, Empty]];
    forall i | 0 <= i < Size
      ensures EmptyGrid(Size)[i] == e[i]
    {
    }
  }

  /** Three cells that cannot form a line: one is empty or two differ. */
  predicate Blocked(a: Cell, b: Cell, c: Cell) {
    a == Empty || a != b || a != c
  }

  /** A 3 x 3 board whose eight lines are each blocked and which has an empty
      cell is undecided: no line and not full. */
  lemma Undecided(g: Grid, ei: nat, ej: nat)
    requires |g| == Size && forall i :: 0 <= i < Size ==> |g[i]| == Size
    requires Blocked(g[0][0], g[0][1], g[0][2]) && Blocked(g[1][0], g[1][1], g[1][2])
    requires Blocked(g[2][0], g[2][1], g[2][2])
    requires Blocked(g[0][0], g[1][0], g[2][0]) && Blocked(g[0][1], g[1][1], g[2][1])
    requires Blocked(g[0][2], g[1][2], g[2][2])
    requires Blocked(g[0][0], g[1][1], g[2][2]) && Blocked(g[0][2], g[1][1], g[2][0])
    requires ei < Size && ej < Size && g[ei][ej] == Empty
    ensures Square(g) && NoLine(g) && !Full(g)
  {
    forall i, s: Symbol | 0 <= i < Size
      ensures !RowOf(g, i, s) && !ColOf(g, i, s)
    {
      assert i == 0 || i == 1 || i == 2;
    }
    forall s: Symbol
      ensures !DiagOf(g, s) && !AntiDiagOf(g, s)
    {
      assert g[0][|g| - 1 - 0] == g[0][2] && g[2][|g| - 1 - 2] == g[2][0];
    }
  }

  /** One undecided move: participant p's piece lands at (row, col) and the
      board becomes `after`, whose eight lines are each blocked and which
      keeps the empty cell (ei, ej); the turn passes and the game goes on. */
  lemma OpeningMove(g: Game, p: nat, row: nat, col: nat, after: Grid, ei: nat, ej: nat)
    requires WellFormed(g) && p < PlayerCount && Accepts(g, p, row, col)
    requires after == g.grid[row := g.grid[row][col := SymbolOf(p)]]
    requires Blocked(after[0][0], after[0][1], after[0][2]) && Blocked(after[1][0], after[1][1], after[1][2])
    requires Blocked(after[2][0], after[2][1], after[2][2])
    requires Blocked(after[0][0], after[1][0], after[2][0]) && Blocked(after[0][1], after[1][1], after[2][1])
    requires Blocked(after[0][2], after[1][2], after[2][2])
    requires Blocked(after[0][0], after[1][1], after[2][2]) && Blocked(after[0][2], after[1][1], after[2][0])
    requires ei < Size && ej < Size && after[ei][ej] == Empty
    ensures WellFormed(Game(after, !g.isXturn, true, g.score))
    ensures Handle(g, Inbound(p, PlacePiece(row, col))).next == Game(after, !g.isXturn, true, g.score)
  {
    Undecided(after, ei, ej);
    EvaluateCorrect(after);
    PlacementAccepted(g, p, row, col);
  }

  /** A full board on which every line holds both symbols is a tie. */
  lemma FullBoardTie()
    ensures Evaluate([[X, O, X], [X, O, O], [O, X, X]]) == Tie
  {
    var g := [[X, O, X], [X, O, O], [O, X, X]];
    // a cell that breaks each line: every row, every column, both diagonals
    assert g[0][1] != g[0][0] && g[1][1] != g[1][0] && g[2][1] != g[2][0];
    assert g[2][0] != g[0][0] && g[2][1] != g[0][1] && g[1][2] != g[0][2];
    assert g[1][1] != g[0][0] && g[1][1] != g[0][2];
    assert Full(g);
  }

  /** A move that fills the board without completing a line is a tie: the
      game ends, the score stays as it was, and each player receives
      turnPlayed followed by gameOver with the tie. */
  lemma LastCellTie(g: Game, p: nat, row: int, col: int)
    requires WellFormed(g) && p < PlayerCount && Accepts(g, p, row, col)
    requires var h := SetCell(g.grid, row, col, SymbolOf(p)); Full(h) && NoLine(h)
    ensures var r := Handle(g, Inbound(p, PlacePiece(row, col)));
      var played, over := TurnPlayed(!g.isXturn, row, col, SymbolOf(p)), GameOver(Tie, g.score);
      && !r.next.isGameStarted && r.next.score == g.score
      && r.out == [Emit(0, played), Emit(0, over), Emit(1, played), Emit(1, over)]
  {
    EvaluateCorrect(SetCell(g.grid, row, col, SymbolOf(p)));
    PlacementAccepted(g, p, row, col);
  }
}
