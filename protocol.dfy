/**
 * The match protocol as values: the literal notices the server writes, the
 * record of a played match (its turns and how it ended), the board each
 * prefix of turns produces, and the exact sequence of messages each of the
 * two endpoints receives.  The session class in session.dfy is proved to
 * produce exactly these transcripts; the lemmas here say what they mean.
 */
module Protocol {
  import opened Wrappers
  import opened BoardSpec
  import opened MoveParser

  // ---------------------------------------------------------------------
  // The notices, each one write to an endpoint

  const YouAreX := "You are player X\n"
  const YouAreO := "You are player O\n"
  const WaitingForMove := "Waiting for opponent's move...\n"
  const CurrentBoard := "Current board:\n"
  const YourTurn := "Your turn to move!\n"
  const InvalidPosition := "Invalid position! Try again!\n"
  const YouWon := "YOU WON!\n"
  const YouLost := "YOU LOST!\n"
  const ItsADraw := "IT'S A DRAW!\n"
  const FinalBoard := "Final board:\n"
  const Terminating := "Terminating connection...\n"
  const PlayerLeft := "The other player has left! Terminating connection...\n"

  // ---------------------------------------------------------------------
  // Reading a move

  /** A line is accepted when it parses as a move that is valid on the board. */
  predicate Accepts(g: Grid, line: string) {
    var m := ParseMove(line);
    m.Some? && ValidMove(g, m.value.row, m.value.col)
  }

  /** The index of the first accepted line, or the number of lines when none is. */
  function FirstAccepted(g: Grid, lines: seq<string>): (k: nat)
    ensures k <= |lines|
  {
    if lines == [] then 0
    else if Accepts(g, lines[0]) then 0
    else 1 + FirstAccepted(g, lines[1..])
  }

  /**
   * FirstAccepted(g, lines) is n exactly when every line before n is rejected and
   * line n, if there is one, is accepted.
   */
  lemma {:induction false} FirstAcceptedIs(g: Grid, lines: seq<string>, n: nat)
    requires n <= |lines|
    ensures FirstAccepted(g, lines) == n <==>
      (forall j | 0 <= j < n :: !Accepts(g, lines[j])) && (n < |lines| ==> Accepts(g, lines[n]))
    decreases n
  {
    if lines != [] {
      var tail := lines[1..];
      assert forall j | 1 <= j < |lines| :: lines[j] == tail[j - 1];
      if n > 0 {
        FirstAcceptedIs(g, tail, n - 1);
        assert (forall j | 0 <= j < n :: !Accepts(g, lines[j])) <==>
          !Accepts(g, lines[0]) && forall j | 0 <= j < n - 1 :: !Accepts(g, tail[j]);
      }
    }
  }

  /** The retry prompts for n rejected lines. */
  function Retries(n: nat): seq<string> {
    if n == 0 then [] else Retries(n - 1) + [InvalidPosition]
  }

  // ---------------------------------------------------------------------
  // A played match

  /** One applied move: who moved, the lines rejected first, and the line accepted. */
  datatype Turn = Turn(player: int, rejected: seq<string>, accepted: string)

  /** How the session ended: by the board, or because `player`'s input ended after `rejected` lines. */
  datatype Ending = Finished | Abandoned(player: int, rejected: seq<string>)

  function MoveOf(t: Turn): Move {
    match ParseMove(t.accepted)
    case Some(m) => m
    case None => Move(-1, -1)
  }

  /** The board after the turns, played from a fresh board. */
  function Replay(ts: seq<Turn>): Grid
    decreases |ts|
  {
    if ts == [] then Fresh
    else
      var n := |ts| - 1;
      Place(Replay(ts[..n]), ts[n].player, MoveOf(ts[n]).row, MoveOf(ts[n]).col)
  }

  /** The game was still going before `t`, whose rejected lines are all rejected and whose accepted line is accepted. */
  predicate TurnLegal(g: Grid, t: Turn) {
    VerdictOf(g) == Ongoing &&
    (forall j | 0 <= j < |t.rejected| :: !Accepts(g, t.rejected[j])) &&
    Accepts(g, t.accepted)
  }

  /** The turns alternate X, O, X, ..., and each was legal on the board before it. */
  predicate Legal(ts: seq<Turn>)
    decreases |ts|
  {
    ts == [] ||
    var n := |ts| - 1;
    Legal(ts[..n]) && ts[n].player == n % 2 && TurnLegal(Replay(ts[..n]), ts[n])
  }

  // ---------------------------------------------------------------------
  // Transcripts

  function Header(i: int): seq<string> {
    if i == 0 then [YouAreX] else [YouAreO, WaitingForMove]
  }

  function Prompt(g: Grid): seq<string> {
    [CurrentBoard, Render(g), YourTurn]
  }

  function AfterMove(g: Grid): seq<string> {
    [CurrentBoard, Render(g), WaitingForMove]
  }

  /** What endpoint i receives during turn t (nothing unless it is the mover's); the board goes from `before` to `after`. */
  function TurnLog(i: int, before: Grid, t: Turn, after: Grid): seq<string> {
    if t.player != i then []
    else Prompt(before) + Retries(|t.rejected|) + (if VerdictOf(after) == Ongoing then AfterMove(after) else [])
  }

  /** What endpoint i receives during all the turns. */
  function TurnsLog(i: int, ts: seq<Turn>): seq<string>
    decreases |ts|
  {
    if ts == [] then []
    else
      var n := |ts| - 1;
      TurnsLog(i, ts[..n]) + TurnLog(i, Replay(ts[..n]), ts[n], Replay(ts))
  }

  /** The result line for endpoint i: X won, O won, or otherwise a draw. */
  function OutcomeLine(i: int, playerWon: int): string {
    if playerWon == XPlayer then (if i == 0 then YouWon else YouLost)
    else if playerWon == OPlayer then (if i == 1 then YouWon else YouLost)
    else ItsADraw
  }

  function EndGameMessages(i: int, playerWon: int, board: string): seq<string> {
    [OutcomeLine(i, playerWon), FinalBoard, board]
  }

  /** Everything endpoint i receives in a session with these turns and this ending. */
  function Transcript(i: int, ts: seq<Turn>, e: Ending): seq<string> {
    var g := Replay(ts);
    match e
    case Finished => Header(i) + TurnsLog(i, ts) + EndGameMessages(i, WinnerOf(g), Render(g)) + [Terminating]
    case Abandoned(p, rej) =>
      if i == p then Header(i) + TurnsLog(i, ts) + Prompt(g) + Retries(|rej|)
      else Header(i) + TurnsLog(i, ts) + [PlayerLeft]
  }

  /** The lines read from endpoint i during the turns. */
  function LinesRead(i: int, ts: seq<Turn>): seq<string>
    decreases |ts|
  {
    if ts == [] then []
    else
      var n := |ts| - 1;
      LinesRead(i, ts[..n]) + (if ts[n].player == i then ts[n].rejected + [ts[n].accepted] else [])
  }

  /** The lines read from endpoint i in the whole session. */
  function AllLinesRead(i: int, ts: seq<Turn>, e: Ending): seq<string> {
    LinesRead(i, ts) + if e.Abandoned? && e.player == i then e.rejected else []
  }

  /** How the board and legality grow when one more turn is played. */
  lemma Extend(ts: seq<Turn>, t: Turn)
    ensures Replay(ts + [t]) == Place(Replay(ts), t.player, MoveOf(t).row, MoveOf(t).col)
    ensures Legal(ts + [t]) <==> Legal(ts) && t.player == |ts| % 2 && TurnLegal(Replay(ts), t)
  {
    assert (ts + [t])[..|ts|] == ts;
  }

  /** How endpoint i's log and the lines read from it grow when one more turn is played. */
  lemma ExtendLogs(i: int, ts: seq<Turn>, t: Turn)
    ensures Header(i) + TurnsLog(i, ts + [t]) == Header(i) + TurnsLog(i, ts) + TurnLog(i, Replay(ts), t, Replay(ts + [t]))
    ensures LinesRead(i, ts + [t]) == LinesRead(i, ts) + (if t.player == i then t.rejected + [t.accepted] else [])
  {
    assert (ts + [t])[..|ts|] == ts;
  }

  /**
   * The turn a player makes by sending `lines` while the game goes on: the lines
   * before the first accepted one are rejected, that one is the move, and the
   * match with this turn added is still legal.
   */
  lemma NextTurn(ts: seq<Turn>, p: int, lines: seq<string>, k: nat)
    requires Legal(ts) && VerdictOf(Replay(ts)) == Ongoing && p == |ts| % 2
    requires k == FirstAccepted(Replay(ts), lines) && k < |lines|
    ensures ParseMove(lines[k]).Some?
    ensures var t := Turn(p, lines[..k], lines[k]);
      var m := ParseMove(lines[k]).value;
      Legal(ts + [t]) && Replay(ts + [t]) == Place(Replay(ts), p, m.row, m.col)
  {
    var g := Replay(ts);
    var t := Turn(p, lines[..k], lines[k]);
    FirstAcceptedIs(g, lines, k);
    assert TurnLegal(g, t) by {
      forall j | 0 <= j < |t.rejected| ensures !Accepts(g, t.rejected[j]) {
        assert t.rejected[j] == lines[j];
      }
    }
    Extend(ts, t);
    assert MoveOf(t) == ParseMove(lines[k]).value;
  }

  // ---------------------------------------------------------------------
  // What a legal match guarantees

  /** Turn k of a legal match is played by k % 2 on the board the turns before it left. */
  lemma {:induction false} TurnAt(ts: seq<Turn>, k: nat)
    requires Legal(ts) && k < |ts|
    ensures ts[k].player == k % 2 && TurnLegal(Replay(ts[..k]), ts[k])
    decreases |ts|
  {
    var n := |ts| - 1;
    if k < n {
      var pre := ts[..n];
      TurnAt(pre, k);
      assert pre[..k] == ts[..k] && pre[k] == ts[k];
    }
  }

  /** Every turn k is played by k % 2 (X first, then strictly alternating) on the board the earlier turns left. */
  lemma TurnsAlternate(ts: seq<Turn>)
    requires Legal(ts)
    ensures forall k | 0 <= k < |ts| :: ts[k].player == k % 2 && TurnLegal(Replay(ts[..k]), ts[k])
  {
    forall k | 0 <= k < |ts| ensures ts[k].player == k % 2 && TurnLegal(Replay(ts[..k]), ts[k]) {
      TurnAt(ts, k);
    }
  }

  /** Each accepted move adds exactly one mark: after n turns there are n marks, X having the extra one. */
  lemma {:induction false} ReplayCounts(ts: seq<Turn>)
    requires Legal(ts)
    ensures WellFormed(Replay(ts))
    ensures CountOf(Replay(ts), Blank) == 9 - |ts|
    ensures CountOf(Replay(ts), XPlayer) == (|ts| + 1) / 2
    ensures CountOf(Replay(ts), OPlayer) == |ts| / 2
    decreases |ts|
  {
    if ts == [] {
      FreshIsBlank();
    } else {
      var n := |ts| - 1;
      var t := ts[n];
      var g := Replay(ts[..n]);
      ReplayCounts(ts[..n]);
      var m := MoveOf(t);
      assert ValidMove(g, m.row, m.col);
      PlaceWellFormed(g, t.player, m.row, m.col);
      PlaceCount(g, t.player, m.row, m.col, Blank);
      PlaceCount(g, t.player, m.row, m.col, XPlayer);
      PlaceCount(g, t.player, m.row, m.col, OPlayer);
    }
  }

  /** A match lasts at most nine moves. */
  lemma AtMostNineTurns(ts: seq<Turn>)
    requires Legal(ts)
    ensures |ts| <= 9
  {
    ReplayCounts(ts);
  }

  /** Nobody can have won before the fifth move. */
  lemma NoWinBeforeFifthMove(ts: seq<Turn>)
    requires Legal(ts) && |ts| < 5
    ensures WinnerOf(Replay(ts)) == Blank
  {
    ReplayCounts(ts);
    FewMarksNoWinner(Replay(ts));
  }

  /** When the board shows a winner, it is the player who made the last move. */
  lemma WinnerIsLastMover(ts: seq<Turn>)
    requires Legal(ts) && ts != []
    ensures WinnerOf(Replay(ts)) == Blank || WinnerOf(Replay(ts)) == ts[|ts| - 1].player
  {
    var n := |ts| - 1;
    var m := MoveOf(ts[n]);
    PlaceWinner(Replay(ts[..n]), ts[n].player, m.row, m.col);
  }

  /**
   * At the end of a finished match the winner's endpoint is told "YOU WON!"
   * and the other "YOU LOST!"; when the board is full with no line, both are told it is a draw.
   */
  lemma OutcomeLinesAgree(ts: seq<Turn>)
    requires Legal(ts) && VerdictOf(Replay(ts)) != Ongoing
    ensures ts != []
    ensures VerdictOf(Replay(ts)).Won? ==>
      var p := ts[|ts| - 1].player;
      VerdictOf(Replay(ts)).mark == p &&
      OutcomeLine(p, WinnerOf(Replay(ts))) == YouWon && OutcomeLine(1 - p, WinnerOf(Replay(ts))) == YouLost
    ensures VerdictOf(Replay(ts)) == Drawn ==>
      OutcomeLine(0, WinnerOf(Replay(ts))) == ItsADraw && OutcomeLine(1, WinnerOf(Replay(ts))) == ItsADraw
  {
    if ts == [] {
      NoWinBeforeFifthMove(ts);
    } else {
      var n := |ts| - 1;
      assert ts[n].player == n % 2;
      WinnerIsLastMover(ts);
    }
  }

  /** A move that completes a line on the last free cell is reported as a win for its player, never as a draw. */
  lemma WinOnFullBoard(ts: seq<Turn>)
    requires Legal(ts) && Filled(Replay(ts)) && WinnerOf(Replay(ts)) != Blank
    ensures ts != [] && VerdictOf(Replay(ts)) == Won(ts[|ts| - 1].player)
    ensures OutcomeLine(0, WinnerOf(Replay(ts))) != ItsADraw && OutcomeLine(1, WinnerOf(Replay(ts))) != ItsADraw
  {
    OutcomeLinesAgree(ts);
  }

  // ---------------------------------------------------------------------
  // Counting result lines

  predicate IsOutcomeLine(m: string) {
    m == YouWon || m == YouLost || m == ItsADraw
  }

  function OutcomeCount(log: seq<string>): nat
    decreases |log|
  {
    if log == [] then 0
    else OutcomeCount(log[..|log| - 1]) + Ind(IsOutcomeLine(log[|log| - 1]))
  }

  lemma {:induction false} OutcomeCountAppend(a: seq<string>, b: seq<string>)
    ensures OutcomeCount(a + b) == OutcomeCount(a) + OutcomeCount(b)
    decreases |b|
  {
    if b == [] {
      assert a + b == a;
    } else {
      var n := |b| - 1;
      assert (a + b)[..|a + b| - 1] == a + b[..n];
      assert (a + b)[|a + b| - 1] == b[n];
      OutcomeCountAppend(a, b[..n]);
    }
  }

  predicate NoOutcomeLines(log: seq<string>) {
    forall k | 0 <= k < |log| :: !IsOutcomeLine(log[k])
  }

  lemma NoOutcomeConcat(a: seq<string>, b: seq<string>)
    requires NoOutcomeLines(a) && NoOutcomeLines(b)
    ensures NoOutcomeLines(a + b)
  {
    forall k | 0 <= k < |a + b| ensures !IsOutcomeLine((a + b)[k]) {
      if k < |a| {
        assert (a + b)[k] == a[k];
      } else {
        assert (a + b)[k] == b[k - |a|];
      }
    }
  }

  /** A log in which no message is a result line counts none. */
  lemma {:induction false} NoOutcomeIn(log: seq<string>)
    requires NoOutcomeLines(log)
    ensures OutcomeCount(log) == 0
    decreases |log|
  {
    if log != [] {
      NoOutcomeIn(log[..|log| - 1]);
    }
  }

  /** A rendered board is never mistaken for a result line: it is 18 characters long. */
  lemma RenderIsNoOutcome(g: Grid)
    ensures !IsOutcomeLine(Render(g))
  {
    RenderLayout(g);
  }

  lemma RetriesAreNoOutcome(n: nat)
    ensures forall k | 0 <= k < |Retries(n)| :: Retries(n)[k] == InvalidPosition
  {
    if n > 0 {
      RetriesAreNoOutcome(n - 1);
    }
  }

  /** Every message of a turn's log is a notice or a rendered board, never a result line. */
  lemma TurnLogIsNoOutcome(i: int, before: Grid, t: Turn, after: Grid)
    ensures NoOutcomeLines(TurnLog(i, before, t, after))
  {
    if t.player == i {
      RenderIsNoOutcome(before);
      RenderIsNoOutcome(after);
      RetriesAreNoOutcome(|t.rejected|);
    }
  }

  /** No result line is sent while the game is being played. */
  lemma {:induction false} NoOutcomeDuringPlay(i: int, ts: seq<Turn>)
    ensures NoOutcomeLines(Header(i) + TurnsLog(i, ts))
    decreases |ts|
  {
    if ts != [] {
      var n := |ts| - 1;
      var earlier := Header(i) + TurnsLog(i, ts[..n]);
      var last := TurnLog(i, Replay(ts[..n]), ts[n], Replay(ts));
      NoOutcomeDuringPlay(i, ts[..n]);
      TurnLogIsNoOutcome(i, Replay(ts[..n]), ts[n], Replay(ts));
      NoOutcomeConcat(earlier, last);
      assert TurnsLog(i, ts) == TurnsLog(i, ts[..n]) + last;
      assert Header(i) + TurnsLog(i, ts) == earlier + last;
    }
  }

  /** A finished transcript is the play, then the result line, then the final board and the closing notice. */
  lemma FinishedLayout(i: int, ts: seq<Turn>)
    ensures Transcript(i, ts, Finished) ==
      (Header(i) + TurnsLog(i, ts)) + [OutcomeLine(i, WinnerOf(Replay(ts)))] + [FinalBoard, Render(Replay(ts)), Terminating]
  {
    var g := Replay(ts);
    var play := Header(i) + TurnsLog(i, ts);
    var ending := EndGameMessages(i, WinnerOf(g), Render(g));
    assert Transcript(i, ts, Finished) == play + ending + [Terminating];
    assert ending + [Terminating] == [OutcomeLine(i, WinnerOf(g))] + [FinalBoard, Render(g), Terminating];
  }

  /** What follows the result line holds no result line. */
  lemma ClosingNoOutcome(g: Grid)
    ensures NoOutcomeLines([FinalBoard, Render(g), Terminating])
  {
    RenderIsNoOutcome(g);
    assert |FinalBoard| == 13 && |Terminating| == 26;
  }

  lemma Around<T>(a: seq<T>, x: T, b: seq<T>)
    ensures |a + [x] + b| == |a| + 1 + |b|
    ensures (a + [x] + b)[|a|] == x && (a + [x] + b)[|a| + 1..] == b
  {
  }

  /**
   * Each endpoint of a finished match receives exactly one result line, and it is
   * followed by the final board and the termination notice.
   */
  lemma FinishedHasOneOutcome(i: int, ts: seq<Turn>)
    ensures OutcomeCount(Transcript(i, ts, Finished)) == 1
    ensures var t := Transcript(i, ts, Finished);
      |t| >= 4 && t[|t| - 4] == OutcomeLine(i, WinnerOf(Replay(ts))) &&
      t[|t| - 3..] == [FinalBoard, Render(Replay(ts)), Terminating]
  {
    var g := Replay(ts);
    var play := Header(i) + TurnsLog(i, ts);
    var result := OutcomeLine(i, WinnerOf(g));
    var rest := [FinalBoard, Render(g), Terminating];
    FinishedLayout(i, ts);
    Around(play, result, rest);
    NoOutcomeDuringPlay(i, ts);
    ClosingNoOutcome(g);
    OneOutcomeBetween(play, result, rest);
  }

  lemma OneOutcomeBetween(play: seq<string>, result: string, rest: seq<string>)
    requires NoOutcomeLines(play) && IsOutcomeLine(result) && NoOutcomeLines(rest)
    ensures OutcomeCount(play + [result] + rest) == 1
  {
    NoOutcomeIn(play);
    NoOutcomeIn(rest);
    assert OutcomeCount(play + [result]) == 1 by {
      assert (play + [result])[..|play|] == play;
    }
    OutcomeCountAppend(play + [result], rest);
  }

  /** An abandoned match sends no result line to either endpoint. */
  lemma AbandonedHasNoOutcome(i: int, ts: seq<Turn>, p: int, rej: seq<string>)
    ensures OutcomeCount(Transcript(i, ts, Abandoned(p, rej))) == 0
  {
    var g := Replay(ts);
    var play := Header(i) + TurnsLog(i, ts);
    var tail := if i == p then Prompt(g) + Retries(|rej|) else [PlayerLeft];
    assert Transcript(i, ts, Abandoned(p, rej)) == play + tail;
    NoOutcomeDuringPlay(i, ts);
    RenderIsNoOutcome(g);
    RetriesAreNoOutcome(|rej|);
    NoOutcomeIn(play + tail);
  }

  // ---------------------------------------------------------------------
  // Scenarios

  /** A line out of range is rejected, and the next, valid line is the one accepted. */
  lemma RetryThenAccept()
    ensures FirstAccepted(Fresh, ["5 5", "0 0"]) == 1
  {
    FieldsDecideMove("5", "5", "");
    FieldsDecideMove("0", "0", "");
    assert "5 5" == "5" + " " + "5" + "";
    assert "0 0" == "0" + " " + "0" + "";
    FreshIsBlank();
    FirstAcceptedIs(Fresh, ["5 5", "0 0"], 1);
  }
}
