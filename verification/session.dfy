/** One match session between two connected players, as the engine runs it:
    the board is an array written in place and replaced by a fresh one on a
    restart, the turn flag, the in-progress flag and the score are fields,
    and every send is appended to `sent`, in sending order. Each handler is
    proved to do exactly what Protocol.Handle says of the same message. */
module GameSession {
  import opened Board
  import opened BoardScan
  import opened Protocol

  /** A participant's connection: an opaque handle owned by the transport
      layer. */
  type Channel = nat

  /** A participant and the symbol it plays for the whole session. */
  datatype Player = Player(socket: Channel, symbol: Symbol)

  /** The participants in join order: the first plays X, and each later one
      plays the other symbol from the one before it. */
  function Roster(participants: seq<Channel>): (r: seq<Player>)
    ensures |r| == |participants|
    ensures forall i :: 0 <= i < |r| ==> r[i].socket == participants[i]
    ensures |r| > 0 ==> r[0].symbol == X
    ensures forall i :: 0 < i < |r| ==> r[i].symbol == Other(r[i - 1].symbol)
  {
    seq(|participants|, i requires 0 <= i < |participants| => Player(participants[i], SymbolOf(i)))
  }

  class TicTacToeSession {
    var board: array2<Cell>
    var isGameStarted: bool
    var score: Score
    const players: seq<Player>
    var isXturn: bool
    /** Every send so far, in order. */
    var sent: seq<Emit>

    /** The session's state as a value. */
    ghost function State(): Game
      reads this`board, this`isXturn, this`isGameStarted, this`score, board
    {
      Game(GridOf(board), isXturn, isGameStarted, score)
    }

    /** The board is Size x Size and the roster holds the two participants
        with the symbols their join order gives. The game invariant Inv is
        kept on the values: each handler's new state is the one
        Protocol.Handle gives, and Protocol.HandlePreservesInv shows that
        Handle keeps Inv. */
    ghost predicate Valid()
      reads this`board
    {
      && board.Length0 == Size && board.Length1 == Size
      && |players| == PlayerCount
      && players[0].symbol == SymbolOf(0) && players[1].symbol == SymbolOf(1)
    }

    /** A session for two participants in join order: the first plays X and
        the second O; the board is empty, the score is zero, X moves first, a
        game is in progress, and each participant is sent gameStarted once,
        in roster order. */
    constructor (participants: seq<Channel>)
      requires |participants| == PlayerCount
      ensures Valid() && fresh(board)
      ensures players == Roster(participants)
      ensures players[0].symbol == X && players[1].symbol == O
      ensures State() == NewSession().next && Inv(State())
      ensures sent == NewSession().out
    {
      var newBoard := CreateNewBoard();
      board := newBoard;
      isGameStarted := true;
      score := Score(0, 0);
      var roster := Roster(participants);
      assert roster[0].symbol == X && roster[1].symbol == O;
      players := roster;
      isXturn := true;
      sent := [];
      new;
      SendToAll(GameStarted);
      NewSessionInv(State());
    }

    /** Player p holds the symbol whose turn it is: for a valid session, the
        same answer as Protocol.IsPlayerTurn gives for its state. */
    predicate IsPlayerTurn(p: nat): (r: bool)
      requires p < |players|
      reads this, board
      ensures r <==> players[p].symbol == TurnSymbol(isXturn)
      ensures Valid() ==> (r <==> Protocol.IsPlayerTurn(State(), p))
    {
      (players[p].symbol == X && isXturn) || (players[p].symbol == O && !isXturn)
    }

    /** requestInitialData from player p: p alone is sent its symbol, the
        turn flag and the score; nothing else changes. */
    method RequestInitialData(p: nat)
      requires Valid() && p < |players|
      modifies this`sent
      ensures Valid() && State() == old(State())
      ensures sent == old(sent) + [Emit(p, InitialGameData(players[p].symbol, isXturn, score))]
      ensures sent == old(sent) + Handle(old(State()), Inbound(p, Request.RequestInitialData)).out
    {
      sent := sent + [Emit(p, InitialGameData(players[p].symbol, isXturn, score))];
    }

    /** placePiece from player p: passed on with p's symbol when it is p's
        turn, ignored otherwise. */
    method OnPlacePiece(p: nat, row: int, col: int)
      requires Valid() && p < |players|
      modifies this`isXturn, this`isGameStarted, this`score, this`sent, board
      ensures Valid()
      ensures State() == Handle(old(State()), Inbound(p, Request.PlacePiece(row, col))).next
      ensures sent == old(sent) + Handle(old(State()), Inbound(p, Request.PlacePiece(row, col))).out
    {
      assert players[p].symbol == SymbolOf(p);
      if IsPlayerTurn(p) {
        PlacePiece(row, col, players[p].symbol);
      }
    }

    /** Places symbol at (row, col) if the coordinate is valid, the cell is
        empty and a game is in progress; then flips the turn, evaluates the
        board, settles the game and the score, and notifies both players. */
    method PlacePiece(row: int, col: int, symbol: Symbol)
      requires Valid()
      modifies this`isXturn, this`isGameStarted, this`score, this`sent, board
      ensures Valid()
      ensures State() == Place(old(State()), row, col, symbol).next
      ensures sent == old(sent) + Place(old(State()), row, col, symbol).out
    {
      if !IsCoordinateValid(board, row, col) || board[row, col] != Empty || !isGameStarted {
        return;
      }
      Write(row, col, symbol);
      isXturn := !isXturn;
      var winner := CheckWinner(board);
      Settle(winner);
      SendMoveNotices(row, col, symbol, winner);
    }

    /** Writes symbol into the one cell (row, col) of the board. */
    method Write(row: int, col: int, symbol: Symbol)
      requires board.Length0 == Size && board.Length1 == Size
      requires 0 <= row < Size && 0 <= col < Size
      modifies board
      ensures GridOf(board) == SetCell(old(GridOf(board)), row, col, symbol)
    {
      ghost var grid := SetCell(GridOf(board), row, col, symbol);
      board[row, col] := symbol;
      SameGrid(board, grid);
    }

    /** A decisive verdict ends the game; a win adds one to the winner's
        counter. */
    method Settle(winner: Outcome)
      modifies this`isGameStarted, this`score
      ensures isGameStarted == (winner == None && old(isGameStarted))
      ensures score == Tally(old(score), winner)
    {
      if winner != None {
        isGameStarted := false;
      }
      if winner == Winner(X) {
        score := score.(xWon := score.xWon + 1);
      } else if winner == Winner(O) {
        score := score.(oWon := score.oWon + 1);
      }
    }

    /** The same event to each player, in roster order. */
    method SendToAll(e: Event)
      requires |players| == PlayerCount
      modifies this`sent
      ensures sent == old(sent) + Broadcast(PlayerCount, e)
    {
      for i := 0 to |players|
        invariant sent == old(sent) + Broadcast(i, e)
      {
        sent := sent + [Emit(i, e)];
      }
    }

    /** Each player in roster order gets turnPlayed and, on a decisive
        verdict, gameOver. */
    method SendMoveNotices(row: int, col: int, symbol: Symbol, winner: Outcome)
      requires |players| == PlayerCount
      modifies this`sent
      ensures sent == old(sent) + MoveNotices(PlayerCount, isXturn, row, col, symbol, winner, score)
    {
      for i := 0 to |players|
        invariant sent == old(sent) + MoveNotices(i, isXturn, row, col, symbol, winner, score)
      {
        sent := sent + [Emit(i, TurnPlayed(isXturn, row, col, symbol))];
        if winner != None {
          sent := sent + [Emit(i, GameOver(winner, score))];
        }
      }
    }

    /** playAgain from any player: ignored while a game is in progress;
        otherwise a fresh empty board, X to move, a game in progress, and
        gameRestarted(true) to each player in roster order. The score and the
        players' symbols stay as they were. */
    method OnPlayAgain(p: nat)
      requires Valid() && p < |players|
      modifies this`board, this`isXturn, this`isGameStarted, this`sent
      ensures Valid()
      ensures State() == Handle(old(State()), Inbound(p, Request.PlayAgain)).next
      ensures sent == old(sent) + Handle(old(State()), Inbound(p, Request.PlayAgain)).out
      ensures old(isGameStarted) ==> board == old(board)
      ensures !old(isGameStarted) ==> fresh(board)
    {
      if isGameStarted {
        return;
      }
      ghost var before := State();
      ghost var r := Handle(before, Inbound(p, Request.PlayAgain));
      board := CreateNewBoard();
      isXturn := true;
      isGameStarted := true;
      SendToAll(GameRestarted(isXturn));
      assert State() == r.next;
    }
  }
}
