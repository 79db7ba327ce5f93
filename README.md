# Tic-tac-toe match server: the game thread and its board engine

The server pairs two connected players and runs one tic-tac-toe match
between them on a thread of its own. This project models that thread's
work, together with the board engine it drives:

- **The board engine.** `GameLogic` is a 3x3 `int` board in which -1 is a blank cell, 0 is X and 1 is O. It validates a move, places a mark, scans for a winner, checks whether the board is full, and renders the board as text.
  - `Board.GameLogic` keeps the `array2<int>` board and the source's loops.
  - `BoardSpec` is the grid value each method is proved against.
- **The match.** `GameInstance` greets both players. It asks X and O for moves in turn, retrying invalid lines. It announces the result, shows the final board and closes both connections.
  - When the player asked for a move goes away, it tells whoever is still there that the other player has left and closes both connections.
  - `Session.GameInstance` keeps the source's methods and loops.
  - Each connection is an `Endpoint` value. It holds the lines the player will send, the messages written to it, whether the player has gone, and whether the server has closed it.
  - A player who leaves is a player whose input runs out.
- **The line parser.** `MoveParser` models `split(" ")` followed by `Integer.parseInt` on the first two fields, as pure functions.
- **The transcripts.** `Protocol` describes a played match as values: the sequence of turns, the board they produce, and how the match ended. It defines the exact message sequence, the `Transcript`, that each endpoint receives.

`GameInstance.PlayGame` is proved to leave both connections closed. Each
endpoint has been sent exactly its `Transcript`. Exactly the lines in
`AllLinesRead` have been read from it. The lemmas in `Protocol` then say
what such a match guarantees:
- the turns alternate, starting with X;
- each move adds one mark;
- a match lasts at most nine moves;
- a win is reported as a win even on a full board;
- each player receives exactly one result line, followed by the final board and the closing notice;
- an abandoned match sends no result line.

Where the written description of the system and the code differ, the model follows the code:
- a move line is split at single spaces, not at any whitespace, and fields after the second are ignored rather than rejected;
- after a move that does not end the game, only the mover is written to (the new board and "Waiting for opponent's move..."); the other player hears nothing until its own prompt;
- a line that never arrives, because the player closed the connection, is a player who has left (see below), not one more retry.

## Model

| member | source | states |
|---|---|---|
| BoardSpec.FreshIsBlank | TicTacToeServer.java:258-265 | the starting board is well formed and every cell of it is blank |
| BoardSpec.PlaceEffect | TicTacToeServer.java:290-294 | placing sets cell (row, col) to the player exactly when the move is valid and the player is X or O; every other cell keeps its value |
| BoardSpec.PlaceKeepsMarks | TicTacToeServer.java:290-294 | a cell that holds a mark keeps that mark through any placement: it never reverts to blank and never changes owner |
| BoardSpec.PlaceWellFormed | TicTacToeServer.java:290-294 | placing keeps every cell within blank, X and O |
| BoardSpec.PlaceCount | TicTacToeServer.java:290-294 | a valid placement removes exactly one blank, adds exactly one mark of the mover, and leaves the other mark's count alone |
| BoardSpec.FilledMeansNoMove | TicTacToeServer.java:330-339 | the board is full exactly when no coordinates make a valid move, and exactly when no cell is blank |
| BoardSpec.ScanOrderShape | TicTacToeServer.java:301-319 | the scan checks eight on-board lines: main diagonal, anti-diagonal, columns 0-2, rows 0-2 |
| BoardSpec.FirstCompleteIsFirst | TicTacToeServer.java:301-323 | the scan gives blank exactly when no line is complete; otherwise it gives the mark of a complete line with no complete line before it |
| BoardSpec.FirstCompleteAt | TicTacToeServer.java:301-323 | when line k is the first complete line, the scan gives that line's mark |
| BoardSpec.WinnerOfIsFirstComplete | TicTacToeServer.java:301-323 | the winner is blank exactly when none of the eight lines is complete; otherwise it is the mark of the first complete line in scan order |
| BoardSpec.WinnerIsMark | TicTacToeServer.java:301-323 | on a well-formed board the winner is blank, X or O |
| BoardSpec.LineMarks | TicTacToeServer.java:302-319 | a complete line means at least three cells carry its mark |
| BoardSpec.FewMarksNoWinner | TicTacToeServer.java:301-323 | with fewer than three marks of each player there is no winner |
| BoardSpec.PlaceWinner | TicTacToeServer.java:290-323 | on a board with no winner, a placement leaves either no winner or the player who placed |
| BoardSpec.RenderLayout | TicTacToeServer.java:346-366 | the render is 18 characters; cell (r, c) is at 6r+2c as X, O or a space, followed by a bar after columns 0 and 1 and by a newline after column 2 |
| BoardSpec.RenderStep | TicTacToeServer.java:348-362 | the render read up to cell (r, c) continues with that cell's symbol and then its separator |
| BoardSpec.UnrenderRender | TicTacToeServer.java:346-366 | the render determines the board: every well-formed board can be read back from its text |
| Board.GameLogic.Cells | TicTacToeServer.java:256 | the array viewed as a well-formed grid with the same cell values |
| Board.GameLogic.constructor | TicTacToeServer.java:258-265 | a new engine owns a fresh 3x3 array that is blank everywhere |
| Board.GameLogic.IsValidMove | TicTacToeServer.java:275-281 | true exactly when 0 <= row <= 2, 0 <= col <= 2 and that cell is blank; out-of-range coordinates give false |
| Board.GameLogic.MakePlayerMove | TicTacToeServer.java:290-294 | the array afterwards is the placement of the move on the board before, so it is unchanged for an invalid move or a player other than X and O |
| Board.GameLogic.IsWinningBoard | TicTacToeServer.java:301-323 | the result is the winner of the board: the mark of the first complete line in scan order, or blank |
| Board.GameLogic.BoardFilled | TicTacToeServer.java:330-339 | true exactly when no cell is blank |
| Board.GameLogic.ToString | TicTacToeServer.java:346-366 | the text built cell by cell equals the render of the board |
| MoveParser.Split | TicTacToeServer.java:196 | splitting at single spaces gives at least one field, and no field holds a space |
| MoveParser.SplitWord | TicTacToeServer.java:196 | a word without spaces splits into itself alone |
| MoveParser.SplitCons | TicTacToeServer.java:196 | a word, a space and a rest split into the word followed by the fields of the rest |
| MoveParser.JoinSplit | TicTacToeServer.java:196 | joining the fields with single spaces gives the line back |
| MoveParser.SplitJoin | TicTacToeServer.java:196 | space-free fields joined with single spaces split back into the same fields |
| MoveParser.DigitsDefined | TicTacToeServer.java:197-198 | a field has a decimal value exactly when it is non-empty and made only of digits |
| MoveParser.NatToStringDigits | TicTacToeServer.java:197-198 | the decimal text of a natural number is all digits and is read back as that number |
| MoveParser.ParseIntToString | TicTacToeServer.java:197-198 | the decimal text of any integer, with its sign when negative, holds no space and is parsed back as that integer |
| MoveParser.FieldsDecideMove | TicTacToeServer.java:196-198 | a line whose first two fields are a and b parses as the move (a, b) when both are integers and is rejected otherwise; later fields are ignored |
| MoveParser.OneFieldRejected | TicTacToeServer.java:196-198 | a line with no space in it, and so fewer than two fields, is rejected |
| MoveParser.ParseFormattedMove | TicTacToeServer.java:196-198 | "row col", with any further fields after it, parses as the move (row, col) |
| Protocol.FirstAccepted | TicTacToeServer.java:193-211 | the index of the line that ends the retry loop is at most the number of lines |
| Protocol.FirstAcceptedIs | TicTacToeServer.java:193-211 | the loop stops at line n exactly when every line before n is rejected and line n, if there is one, parses as a move that is valid on the board |
| Protocol.Extend | TicTacToeServer.java:102-133 | one more turn places its move on the board of the earlier turns; the longer match is legal exactly when the shorter one is, the turn belongs to the right player, and the turn is legal on that board |
| Protocol.ExtendLogs | TicTacToeServer.java:102-133 | one more turn adds exactly that turn's messages to each endpoint's log and, for the mover only, the turn's lines to what was read |
| Protocol.NextTurn | TicTacToeServer.java:111-114 | the player to move who sends these lines while the game goes on makes a legal turn: the lines before the first accepted one are rejected and that line's move is placed |
| Protocol.TurnAt | TicTacToeServer.java:92-133 | turn k of a legal match belongs to player k mod 2 and was legal on the board the earlier turns left |
| Protocol.TurnsAlternate | TicTacToeServer.java:92-133 | in a legal match every turn k belongs to player k mod 2 (X first, then strictly alternating) and was legal when made |
| Protocol.ReplayCounts | TicTacToeServer.java:102-133 | after n legal turns the board is well formed with 9-n blanks, (n+1)/2 X marks and n/2 O marks: each accepted move adds exactly one mark |
| Protocol.AtMostNineTurns | TicTacToeServer.java:102-133 | a legal match has at most nine turns |
| Protocol.NoWinBeforeFifthMove | TicTacToeServer.java:102-122 | nobody has won after fewer than five legal moves |
| Protocol.WinnerIsLastMover | TicTacToeServer.java:114-122 | after a legal match, the winner, if any, is the player who moved last |
| Protocol.OutcomeLinesAgree | TicTacToeServer.java:221-238 | a decided match has at least one turn; on a win the last mover is the winner, told "YOU WON!", and the other player is told "YOU LOST!"; on a draw both are told "IT'S A DRAW!" |
| Protocol.WinOnFullBoard | TicTacToeServer.java:119-131 | a move that completes a line and fills the board is a win for the mover, and neither player is told it is a draw |
| Protocol.OutcomeCountAppend | TicTacToeServer.java:221-238 | result lines in two logs put together count as the sum of both |
| Protocol.NoOutcomeConcat | TicTacToeServer.java:84-133 | two logs without result lines put together have none |
| Protocol.NoOutcomeIn | TicTacToeServer.java:221-238 | a log with no result line counts zero of them |
| Protocol.RenderIsNoOutcome | TicTacToeServer.java:346-366 | a rendered board is never a result line |
| Protocol.RetriesAreNoOutcome | TicTacToeServer.java:207 | every retry message is "Invalid position! Try again!" |
| Protocol.TurnLogIsNoOutcome | TicTacToeServer.java:105-127 | nothing written during a turn is a result line |
| Protocol.NoOutcomeDuringPlay | TicTacToeServer.java:84-133 | no result line is written before the match ends |
| Protocol.FinishedLayout | TicTacToeServer.java:135-144 | a finished transcript is the play, then one result line, then "Final board:", the board and "Terminating connection..." |
| Protocol.ClosingNoOutcome | TicTacToeServer.java:241-244 | what follows the result line holds no result line |
| Protocol.OneOutcomeBetween | TicTacToeServer.java:221-245 | a log made of result-free play, one result line and a result-free rest counts exactly one result line |
| Protocol.FinishedHasOneOutcome | TicTacToeServer.java:136-144 | each endpoint of a finished match receives exactly one result line, its own, followed by "Final board:", the final board render and "Terminating connection..." |
| Protocol.AbandonedHasNoOutcome | TicTacToeServer.java:145-162 | an abandoned match sends no result line to either endpoint |
| Protocol.RetryThenAccept | TicTacToeServer.java:191-212 | on a fresh board the line "5 5" is rejected and the following "0 0" is the one accepted |
| Session.SentTwice | TicTacToeServer.java:89-94 | two writes to an endpoint deliver the same as one write of both messages, whether or not the player is still there |
| Session.SwitchTurn | TicTacToeServer.java:172-180 | 0 and 1 are swapped; any other value gives -1 |
| Session.SwitchTurnAlternates | TicTacToeServer.java:129 | switching after k moves hands the turn to the player of move k+1, and switching twice restores the player |
| Session.MoverAfterTurn | TicTacToeServer.java:105-129 | after a turn, the mover's endpoint has been sent the prompt, one retry per rejected line and, while the game goes on, the new board; the turn's lines have been read |
| Session.WaiterAfterTurn | TicTacToeServer.java:102-133 | the other endpoint receives nothing during a turn and stays in play |
| Session.BothAfterTurn | TicTacToeServer.java:102-133 | after a completed turn both endpoints are in play for the longer match |
| Session.BothAfterMove | TicTacToeServer.java:111-129 | the mover's first accepted line makes the next legal turn; the board follows it and both endpoints stay in play |
| Session.BothAfterLeaving | TicTacToeServer.java:191-212 | when the player to move runs out of input without a valid move, that endpoint has left, with every line it sent rejected; the other is still in play |
| Session.LeaverClosed | TicTacToeServer.java:150-161 | the leaver's closed endpoint holds its abandoned-match transcript: the leaving notice to it is lost; all of its lines were read |
| Session.StayerClosed | TicTacToeServer.java:150-161 | the other closed endpoint holds its abandoned-match transcript, ending with the other-player-has-left notice |
| Session.AtFinish | TicTacToeServer.java:136-144 | at the end of a decided match each closed endpoint holds its finished-match transcript |
| Session.BothAbandoned | TicTacToeServer.java:145-162 | an abandoned match ends with both endpoints closed and each holding its transcript and having had exactly its lines read |
| Session.BothFinished | TicTacToeServer.java:135-144 | a decided match ends with both endpoints closed and each holding its transcript and having had exactly its lines read |
| Session.GameInstance.constructor | TicTacToeServer.java:61-66 | a new match has both players connected, nothing written yet and a fresh board |
| Session.GameInstance.Send | TicTacToeServer.java:89 | a write reaches its endpoint if the player is still there and changes nothing else |
| Session.GameInstance.ReadLine | TicTacToeServer.java:196 | a read takes the next line; with no line left the player has gone and there is no line |
| Session.GameInstance.Close | TicTacToeServer.java:143 | closing marks that endpoint closed and changes nothing else |
| Session.GameInstance.Greet | TicTacToeServer.java:89-94 | X is told its symbol; O is told its symbol and told to wait |
| Session.GameInstance.ShowBoard | TicTacToeServer.java:106-108 | "Current board:", the render of the board and then the given note are written to that player only |
| Session.GameInstance.ReadAndValidatePlayerMove | TicTacToeServer.java:191-212 | a returned move is valid on the board and is the parse of the first accepted line; exactly one retry message per rejected line goes to the mover and nothing to the opponent; with no accepted line, the whole input is consumed, the player has gone and there is no move |
| Session.GameInstance.SendEndGameMessages | TicTacToeServer.java:221-245 | each endpoint is sent its result line (won, lost or draw), then "Final board:" and the same render of the board |
| Session.GameInstance.DropConnections | TicTacToeServer.java:150-161 | each endpoint is sent the other-player-has-left notice, with the write lost for a player who has gone, and then closed |
| Session.GameInstance.FinishMatch | TicTacToeServer.java:136-144 | the end-game messages, then "Terminating connection...", go to each endpoint, which is then closed; the board is unchanged |
| Session.GameInstance.AskForMove | TicTacToeServer.java:105-111 | the board and the prompt go to the player to move, followed by the outcome of the read |
| Session.GameInstance.ApplyMove | TicTacToeServer.java:113-127 | the move is placed; the verdict is the board's winner and fullness; exactly while the game goes on, the mover is shown the new board and told to wait |
| Session.GameInstance.EndAbandoned | TicTacToeServer.java:145-162 | after the player to move leaves, both endpoints are closed, each holding its transcript and having had exactly its lines read |
| Session.GameInstance.EndFinished | TicTacToeServer.java:135-144 | after a decided match, both endpoints are closed, each holding its transcript and having had exactly its lines read |
| Session.GameInstance.PlayTurn | TicTacToeServer.java:102-133 | one loop pass either plays the next legal turn, keeping both endpoints in play and reporting the verdict of the new board, or ends with the player to move gone, every line that player sent rejected |
| Session.GameInstance.PlayGame | TicTacToeServer.java:84-163 | the match is a legal sequence of turns; it finishes exactly when the board is decided; an abandoned match was abandoned by the player to move, all of whose lines were rejected; in either case both endpoints are closed, each holding exactly its transcript and having had exactly its lines read |

## Left out

- The `main` accept loop, thread creation and `run()` (TicTacToeServer.java:9-41, 71-77) are not modelled: they are socket acceptance, concurrency and the printing of exceptions. As a result, the "Waiting for another player to connect..." notice that `main` writes to the first player is not part of any transcript.
- Sockets, readers, output streams and console logging are not modelled. Each connection is an `Endpoint` value: the lines still to be read, the messages written, whether the player has gone, and whether it was closed.
- A `readLine()` that returns null is modelled as the player leaving. In the source, the null makes `split` throw. The catch then writes "Invalid position! Try again!", and the match ends only when that write fails. The model takes that write as the failing one. A peer whose connection still accepts writes after its input has ended would make the source retry without end; that case is not modelled.
- A player can leave only while being asked for a move. A write failure at any other moment is not modelled, and neither is an exception from closing a socket.
- `Integer.parseInt` is modelled as an optional sign followed by ASCII decimal digits, over unbounded integers:
  - the source rejects values beyond 32 bits, the model does not;
  - a value that large is off the board, so the same lines are accepted either way;
  - non-ASCII decimal digits, which the source's parser also accepts, are rejected by the model.
- `MoveParser.Split` keeps trailing empty fields, which Java's `split(" ")` drops. A dropped field is empty, and an empty field never parses, so whether fields 0 and 1 give a move is the same.
- The `int[2]` array that `readAndValidatePlayerMove` reuses is modelled as an `Option<Move>` result.
- TicTacToeClient.java is not part of this model.
