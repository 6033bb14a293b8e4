# Tic-tac-toe match engine, modelled in Dafny

This project models the match engine of a two-player online tic-tac-toe
server: the class `TicTacToeSession` and the board helpers beside it in
`src/server/TicTacToeSession.js`. A session pairs two connected players.
The first to join plays X and the second plays O. The session keeps a 3 x 3
board, whose turn it is, whether a game is in progress, and a running score.
It reacts to three requests from either player:

- `requestInitialData` answers with the player's symbol, the turn and the score.
- `placePiece` places the sender's symbol when the move is legal.
- `playAgain` starts a new game once the current one is over.

The session notifies the players by sending each of them events.

The project has four modules:

- `Board` (board.dfy) is the pure part. It defines cells, the square grid of
  size N, the lines (rows, columns, the two diagonals) and the verdict
  `Evaluate`. `Evaluate` scans rows, then columns, then the diagonals, then
  checks for a tie, in the engine's order. The module proves what the verdict
  means: a winner has a completed line, a tie is exactly a full board without
  one, and the first completed line in scan order is the one reported. It
  also proves that filling an empty cell can complete a line of the mover's
  symbol only.
- `BoardScan` (scan.dfy) holds the engine's helpers as they run. They work on
  a board held in a two-dimensional array, with nested loops, early exits and
  the `winCheck` flag. Each helper is proved to compute exactly the `Board`
  function for the array's contents.
- `Protocol` (protocol.dfy) describes the session as values. `Handle` gives
  the effect of one request: the new state and the events sent, in order.
  `Run` folds `Handle` over a sequence of requests. The module proves these
  properties of them:
  - moves are ignored or accepted under exactly the engine's four guards;
  - an accepted move has exactly the engine's effect;
  - the winner of a move is always the mover;
  - a restart has the engine's effect;
  - the score never goes down;
  - the invariant `Inv` holds in every reachable state. `Inv` says that the
    pieces are balanced between X and O, and that a game in progress has no
    completed line and no full board.
- `GameSession` (session.dfy) is the class `TicTacToeSession`. Its fields are
  the board (an `array2<Cell>`, written in place), the two flags, the score,
  the roster, and `sent`, the log of every event sent. Each handler method
  ends in exactly the state and the log that `Protocol.Handle` gives for the
  same request.

Events are logged as `Emit(to, event)`. `to` is the recipient's roster index:
0 for the first participant and 1 for the second. Payloads are value
snapshots.

Two details of the notifications matter for the model:

- After a restart, each player receives only the new turn flag as a plain
  boolean (line 46).
- A move's notices are sent by a single loop over the roster (lines 71-87).
  Every player receives `turnPlayed`, then immediately, when the move decided
  the game, its own `gameOver`. So player 0 hears both before player 1 hears
  either.

## Model

| member | source | states |
|---|---|---|
| Board.EmptyGrid | src/server/TicTacToeSession.js:92-98 | A new board has N rows of N cells, and every cell is empty. |
| Board.SetCell | src/server/TicTacToeSession.js:58 | Writing one cell sets that cell to the new value. Every other cell and the board's dimensions are unchanged. |
| Board.RowScan | src/server/TicTacToeSession.js:125-140 | The row scan never reports a tie. It reports nothing exactly when no row from `from` on is filled with one symbol. When it reports a symbol, some row is entirely that symbol and no earlier row is completed. |
| Board.ColScan | src/server/TicTacToeSession.js:142-157 | The same as RowScan, for columns from left to right. |
| Board.DiagonalScan | src/server/TicTacToeSession.js:159-191 | This scan never reports a tie. It reports nothing exactly when neither diagonal is completed. A completed main diagonal is reported with its symbol. Failing that, a completed anti-diagonal is reported with its symbol. |
| Board.Evaluate | src/server/TicTacToeSession.js:109-123 | The verdict: rows, then columns, then diagonals, then the tie check of lines 193-200. It has no contract of its own. `EvaluateCorrect`, `LineIsReported` and `EvaluatePriority` state what it means. |
| Board.EvaluateCorrect | src/server/TicTacToeSession.js:109-123 | A reported winner has a completed line of its symbol. The verdict is a tie exactly when the board is full and no line is completed. It is undecided exactly when some cell is empty and no line is completed. |
| Board.LineIsReported | src/server/TicTacToeSession.js:109-123 | A board with a completed line always gets a winner, never a tie or nothing, even when the board is full. |
| Board.EvaluatePriority | src/server/TicTacToeSession.js:109-123 | The reported line follows the check order. The first completed row wins. With no completed row, the first completed column wins. With neither, the main diagonal wins, then the anti-diagonal. |
| Board.PlacementOnlyCompletesMover | src/server/TicTacToeSession.js:58-60 | Filling an empty cell with s, on a board without a completed line, never completes a line of the other symbol. The verdict is then never a win for the other symbol. |
| Board.EmptyGridUndecided | src/server/TicTacToeSession.js:92-98 | A new board is square and its verdict is "nothing decided". |
| Board.CountAbsent | src/server/TicTacToeSession.js:92-98 | A symbol that appears in no cell counts zero. `NewSessionState` applies this to a new session's empty board. |
| Board.CountSet | src/server/TicTacToeSession.js:58 | Writing s into an empty cell adds exactly one to the count of s. The count of the other symbol is unchanged. |
| BoardScan.CreateNewBoard | src/server/TicTacToeSession.js:92-98 | This returns a freshly allocated 3 x 3 board whose contents are the all-empty grid. |
| BoardScan.IsCoordinateValid | src/server/TicTacToeSession.js:100-106 | True exactly when 0 <= row < rows and 0 <= col < columns. It is defined, without fault, for every pair of integers, including negative and too-large ones. |
| BoardScan.CheckRows | src/server/TicTacToeSession.js:125-140 | The nested loops with the early exit compute exactly `RowScan` over the board's contents. |
| BoardScan.CheckCols | src/server/TicTacToeSession.js:142-157 | The nested loops compute exactly `ColScan` over the board's contents. |
| BoardScan.CheckDiagonals | src/server/TicTacToeSession.js:159-191 | The two diagonal loops compute exactly `DiagonalScan` over the board's contents. |
| BoardScan.CheckTie | src/server/TicTacToeSession.js:193-200 | This returns a tie exactly when no cell is empty, and nothing exactly when some cell is empty. |
| BoardScan.CheckWinner | src/server/TicTacToeSession.js:109-123 | The four checks, called in order with early returns, compute exactly the verdict `Evaluate` on the board's contents. |
| Protocol.SymbolOf | src/server/TicTacToeSession.js:12 | A participant's symbol from the parity of its roster index. It has no contract of its own. `Roster` states the alternation it gives, and `NewSessionState` states that participants 0 and 1 play X and O. |
| Protocol.IsPlayerTurn | src/server/TicTacToeSession.js:50-52 | It is p's turn exactly when p's symbol is the symbol whose turn it is. |
| Protocol.Tally | src/server/TicTacToeSession.js:61-68 | The total of the two counters rises by one exactly when the verdict names a winner. Neither counter ever falls. `PlacementAccepted` states that only the winner's counter rises. |
| Protocol.MoveNotices | src/server/TicTacToeSession.js:71-87 | A move sends n notices, or 2n when it decided the game, and only to the first n players. `TwoPlayerNotices` gives the exact order for two players. |
| Protocol.SendInitialData | src/server/TicTacToeSession.js:27-33 | requestInitialData changes no state and sends exactly one event, to the sender alone. |
| Protocol.NewSession | src/server/TicTacToeSession.js:2-19 | The state and announcements of a new session. It has no contract of its own. `NewSessionState` and `NewSessionInv` state them. |
| Protocol.Accepts | src/server/TicTacToeSession.js:54-57 | The four guards on a move: the sender's turn (line 35), then a coordinate on the board, an empty cell and a game in progress (line 56). It has no contract of its own. `PlacementIgnored` and `PlacementAccepted` state that it decides exactly whether a move takes effect. |
| Protocol.Broadcast | src/server/TicTacToeSession.js:45-46 | Sending one event to all players gives one send per player, in roster order, each of the same event. |
| Protocol.TwoPlayerNotices | src/server/TicTacToeSession.js:71-87 | For the two players, a move's notices are p0 turnPlayed, then p1 turnPlayed. When the move decided the game, they are p0 turnPlayed, p0 gameOver, p1 turnPlayed, p1 gameOver. |
| Protocol.Place | src/server/TicTacToeSession.js:54-88 | A placement, accepted or ignored, leaves a 3 x 3 board. Its effect is stated by PlacementIgnored, PlacementAccepted and PlaceKeepsInv. |
| Protocol.Move | src/server/TicTacToeSession.js:34-37 | A placePiece request, passed on or ignored, leaves a 3 x 3 board. It is passed on only on the sender's turn, as PlacementIgnored states. |
| Protocol.Restart | src/server/TicTacToeSession.js:39-47 | A playAgain request leaves a 3 x 3 board. Its effect is stated by PlayAgainEffect and RestartKeepsInv. |
| Protocol.Handle | src/server/TicTacToeSession.js:26-47 | Every request from either player leaves a 3 x 3 board. The lemmas below state each request's effect. |
| Protocol.Run | src/server/TicTacToeSession.js:26-47 | Any sequence of requests, handled in order, leaves a 3 x 3 board. |
| Protocol.NewSessionState | src/server/TicTacToeSession.js:2-19 | A new session has an all-empty board, score 0-0, X to move and a game in progress. Participant 0 plays X and participant 1 plays O. Exactly one gameStarted is sent to each player, in roster order. The invariant holds. |
| Protocol.NewSessionInv | src/server/TicTacToeSession.js:2-19 | The state of a new session satisfies the invariant. |
| Protocol.PlacementIgnored | src/server/TicTacToeSession.js:34-37 | A move sends nothing exactly when it fails one of the four guards: wrong turn, coordinate off the board, cell occupied, or no game in progress. A move that fails them changes no state. In particular an occupied cell is never overwritten. |
| Protocol.PlacementAccepted | src/server/TicTacToeSession.js:58-87 | An accepted move writes the mover's symbol into exactly that cell and flips the turn. The game ends exactly when the verdict is decisive. Only the winner's counter rises, by one, and a tie leaves both unchanged. The events are turnPlayed with the flipped turn for each player in roster order, each followed, on a decisive verdict, by that player's gameOver with the new score. |
| Protocol.WinnerIsMover | src/server/TicTacToeSession.js:58-68 | In a reachable state, an accepted move is never won by the other symbol, and the other player's counter never moves. |
| Protocol.PlaceKeepsInv | src/server/TicTacToeSession.js:54-68 | Placing the symbol whose turn it is keeps the invariant. The counts stay balanced, and a game left in progress has no completed line and no full board. |
| Protocol.RestartKeepsInv | src/server/TicTacToeSession.js:39-47 | playAgain, ignored or not, keeps the invariant. |
| Protocol.HandlePreservesInv | src/server/TicTacToeSession.js:26-47 | Every request from either player keeps the invariant. |
| Protocol.HandleScoreMonotone | src/server/TicTacToeSession.js:61-68 | No request lowers a counter. At most one counter rises, and only by one. |
| Protocol.PlayAgainEffect | src/server/TicTacToeSession.js:39-47 | playAgain during a game changes nothing and sends nothing. Otherwise it gives an empty undecided board, X to move and a game in progress, and keeps the score. It sends gameRestarted(true) to each player in roster order. |
| Protocol.RunPreservesInv | src/server/TicTacToeSession.js:26-47 | Any sequence of requests keeps the invariant. |
| Protocol.RunScoreMonotone | src/server/TicTacToeSession.js:61-68 | Over any sequence of requests, neither counter goes down, and their sum rises by at most one per request. |
| Protocol.ReachableInv | src/server/TicTacToeSession.js:2-47 | Every state reached from a new session, through any requests, satisfies the invariant. |
| Protocol.OffBoardMoveIgnored | src/server/TicTacToeSession.js:54-57 | placePiece at (5, 5) on a new session changes nothing and sends nothing. |
| Protocol.TopRowWinOpening | src/server/TicTacToeSession.js:54-88 | Playing X(0,0), O(1,1), X(0,1), O(2,2) from a new session, by participants 0, 1, 0, 1, accepts every move and decides nothing. It reaches the position with X at (0,0) and (0,1) and O at (1,1) and (2,2), X to move, a game in progress and score 0-0. |
| Protocol.TopRowWin | src/server/TicTacToeSession.js:54-88 | From the position TopRowWinOpening reaches, X's fifth move at (0,2) completes the top row. The game ends, the turn passes to O, the score becomes 1-0, and each player gets turnPlayed, then gameOver naming X with score 1-0. |
| Protocol.FullBoardTie | src/server/TicTacToeSession.js:193-200 | A full board on which every line holds both symbols is judged a tie. |
| Protocol.LastCellTie | src/server/TicTacToeSession.js:58-87 | A move that fills the board without completing a line ends the game and leaves the score unchanged. It sends each player turnPlayed, then gameOver with a tie. |
| GameSession.Roster | src/server/TicTacToeSession.js:9-14 | The roster keeps every participant's channel in join order. The first participant plays X, and each later one plays the other symbol from the one before it, so the two players of a session hold different symbols. |
| GameSession.TicTacToeSession.constructor | src/server/TicTacToeSession.js:2-19 | A new session has a fresh board and the state of `NewSession`: all cells empty, score 0-0, X to move, a game in progress. Participant 0 plays X and participant 1 plays O. The log holds exactly one gameStarted per player, in roster order, and the invariant holds. |
| GameSession.TicTacToeSession.IsPlayerTurn | src/server/TicTacToeSession.js:50-52 | It is p's turn exactly when p's symbol is the symbol whose turn it is. For a valid session, this is the same answer `Protocol.IsPlayerTurn` gives for the session's state, which the value-level model of a move uses. |
| GameSession.TicTacToeSession.RequestInitialData | src/server/TicTacToeSession.js:27-33 | No state changes. Exactly one event, initialGameData with p's symbol, the turn and the score, is sent to p alone, as `Handle` says. |
| GameSession.TicTacToeSession.OnPlacePiece | src/server/TicTacToeSession.js:34-37 | The new state and the events appended are exactly those of `Handle` for placePiece from p. |
| GameSession.TicTacToeSession.PlacePiece | src/server/TicTacToeSession.js:54-88 | The new state and the events appended are exactly those of `Place`. This covers the guards, the in-place write, the flipped turn, the verdict, the end of the game, the score and the notices. |
| GameSession.TicTacToeSession.Write | src/server/TicTacToeSession.js:58 | The board's contents after the write are the old contents with that one cell set. |
| GameSession.TicTacToeSession.Settle | src/server/TicTacToeSession.js:61-68 | A decisive verdict ends the game. A win adds one to the winner's counter, and a tie or nothing leaves the score as it was. |
| GameSession.TicTacToeSession.SendToAll | src/server/TicTacToeSession.js:45-46 | The loop over the players appends one send of the event per player, in roster order. |
| GameSession.TicTacToeSession.SendMoveNotices | src/server/TicTacToeSession.js:70-87 | The loop appends, per player in roster order, turnPlayed and, on a decisive verdict, that player's gameOver. |
| GameSession.TicTacToeSession.OnPlayAgain | src/server/TicTacToeSession.js:39-47 | The new state and the events appended are exactly those of `Handle` for playAgain. A fresh board is allocated only when no game is in progress. |

## Left out

- The socket transport is not modelled: asynchronous delivery, subscribing handlers by event name (`socket.on`) and the `emit` calls themselves. Each inbound request is a method call, with the sender given by its roster index. Each send is appended to the log `sent`.
- A participant's socket is an opaque handle (`Channel`, a natural number). The model never looks inside it.
- `src/server/index.js` (server setup and room list) and `src/client/src/components/GameBoardCell.js` (rendering) are not part of this model.
- JavaScript dynamic typing is not modelled. Coordinates are integers, so non-numeric or fractional coordinates and a missing `placePiece` payload do not arise.
- GameSession.TicTacToeSession.constructor: the two participants' channels are assumed to be different sockets. With one socket given twice, the source would subscribe both players' handlers to it (line 17), so each request would be handled twice. That case is not modelled.
- Sessions with other than two participants are not modelled. The constructor requires exactly two, although the symbol assignment by index parity would accept more.
- Payloads are value snapshots. The source sends its live `score` object in `initialGameData` and `gameOver`, so a receiver could later observe it change. That aliasing is not modelled.
- `createNewBoard` leaves its cells `undefined`. The model writes `Empty` into every cell, because a new Dafny array holds unspecified values.
- The scans are modelled on a square board of any size N >= 1. The source would fault on an empty board at `board[0]`, and the session only creates 3 x 3 boards.
- GameSession.TicTacToeSession.Valid: the invariant `Inv` is not part of the class invariant. It is proved on values instead: each handler's new state equals the one `Handle` gives, and `Protocol.HandlePreservesInv` shows that `Handle` keeps `Inv`. The handler methods themselves do not restate it.
