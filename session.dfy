/**
 * One match between two connected players, as the server's game thread runs
 * it.  Each player's connection is an endpoint: the lines that player will
 * send, everything the server has written to it, whether the connection has
 * gone away, and whether the server has closed it.  A player who leaves is a
 * player whose input runs out.
 */
module Session {
  import opened Wrappers
  import opened BoardSpec
  import opened MoveParser
  import opened Protocol
  import opened Board

  /** A player's connection as the server sees it. */
  datatype Endpoint = Endpoint(inbox: seq<string>, outbox: seq<string>, hungUp: bool, closed: bool)
  {
    /** Writing to the connection: delivered while the player is there; once the player has gone, the write fails and nothing arrives. */
    function Sent(msgs: seq<string>): Endpoint {
      if hungUp then this else this.(outbox := outbox + msgs)
    }
  }

  /** Two writes arrive as one. */
  lemma SentTwice(e: Endpoint, a: seq<string>, b: seq<string>)
    ensures e.Sent(a).Sent(b) == e.Sent(a + b)
  {
    if !e.hungUp {
      assert e.outbox + a + b == e.outbox + (a + b);
    }
  }

  lemma SplitAt<T>(s: seq<T>, k: nat)
    requires k < |s|
    ensures s == s[..k] + [s[k]] + s[k + 1..]
  {
    assert s == s[..k] + s[k..];
  }

  lemma Assoc<T>(a: seq<T>, b: seq<T>, c: seq<T>)
    ensures a + (b + c) == a + b + c
  {
  }

  lemma Regroup<T>(a: seq<T>, b: seq<T>, c: seq<T>, d: seq<T>)
    ensures a + (b + c + d) == a + b + c + d
  {
  }

  /** A freshly accepted connection that will send `inbox`. */
  function Connected(inbox: seq<string>): Endpoint {
    Endpoint(inbox, [], false, false)
  }

  /** The other player's index; anything but 0 or 1 gives -1. */
  function SwitchTurn(turnPlayer: int): (next: int)
    ensures turnPlayer == 0 || turnPlayer == 1 ==> next == 1 - turnPlayer
    ensures turnPlayer != 0 && turnPlayer != 1 ==> next == -1
  {
    if turnPlayer == 0 then 1 else if turnPlayer == 1 then 0 else -1
  }

  /** Switching after k moves hands the turn to the player of move k + 1, and switching twice changes nothing. */
  lemma SwitchTurnAlternates(k: nat)
    ensures SwitchTurn(k % 2) == (k + 1) % 2
    ensures SwitchTurn(SwitchTurn(k % 2)) == k % 2
  {
    if k % 2 == 0 {
      assert (k + 1) % 2 == 1;
    } else {
      assert (k + 1) % 2 == 0;
    }
  }

  // ---------------------------------------------------------------------
  // One endpoint's record across a turn and at the end

  /** Endpoint i during play, `inbox` being what it was going to send: still connected, sent its header and the log of the turns so far, and read exactly the lines of its own turns. */
  ghost predicate InPlay(i: int, inbox: seq<string>, e: Endpoint, ts: seq<Turn>) {
    !e.hungUp && !e.closed && e.outbox == Header(i) + TurnsLog(i, ts) && inbox == LinesRead(i, ts) + e.inbox
  }

  /** The mover's endpoint after a turn: the prompt, the retries and, while the game goes on, the new board; the turn's lines are consumed. */
  lemma MoverAfterTurn(i: int, inbox: seq<string>, e: Endpoint, asked: Endpoint, e': Endpoint, ts: seq<Turn>, t: Turn)
    requires InPlay(i, inbox, e, ts) && t.player == i
    requires e.inbox == t.rejected + [t.accepted] + asked.inbox
    requires asked == e.(inbox := asked.inbox, outbox := e.outbox + Prompt(Replay(ts)) + Retries(|t.rejected|))
    requires e' == if VerdictOf(Replay(ts + [t])) == Ongoing then asked.Sent(AfterMove(Replay(ts + [t]))) else asked
    ensures InPlay(i, inbox, e', ts + [t])
  {
    ExtendLogs(i, ts, t);
    Assoc(LinesRead(i, ts), t.rejected + [t.accepted], asked.inbox);
    var before, after := Replay(ts), Replay(ts + [t]);
    var rest := if VerdictOf(after) == Ongoing then AfterMove(after) else [];
    var log := Header(i) + TurnsLog(i, ts);
    assert TurnLog(i, before, t, after) == Prompt(before) + Retries(|t.rejected|) + rest;
    assert asked.outbox == log + Prompt(before) + Retries(|t.rejected|);
    assert e'.outbox == asked.outbox + rest;
    Regroup(log, Prompt(before), Retries(|t.rejected|), rest);
  }

  /** The other endpoint is untouched by a turn and stays in play. */
  lemma WaiterAfterTurn(i: int, inbox: seq<string>, e: Endpoint, ts: seq<Turn>, t: Turn)
    requires InPlay(i, inbox, e, ts) && t.player != i
    ensures InPlay(i, inbox, e, ts + [t])
  {
    ExtendLogs(i, ts, t);
    assert e.outbox == Header(i) + TurnsLog(i, ts) + [];
    assert inbox == LinesRead(i, ts) + [] + e.inbox;
  }

  /** After a completed turn both endpoints are still in play, the mover's as MoverAfterTurn says and the other's untouched. */
  lemma BothAfterTurn(orig: seq<Endpoint>, s: seq<Endpoint>, asked: Endpoint, e: seq<Endpoint>, ts: seq<Turn>, p: int, t: Turn)
    requires |orig| == 2 && |s| == 2 && |e| == 2 && (p == 0 || p == 1) && t.player == p
    requires InPlay(0, orig[0].inbox, s[0], ts) && InPlay(1, orig[1].inbox, s[1], ts)
    requires s[p].inbox == t.rejected + [t.accepted] + asked.inbox
    requires asked == s[p].(inbox := asked.inbox, outbox := s[p].outbox + Prompt(Replay(ts)) + Retries(|t.rejected|))
    requires e[p] == if VerdictOf(Replay(ts + [t])) == Ongoing then asked.Sent(AfterMove(Replay(ts + [t]))) else asked
    requires e[1 - p] == s[1 - p]
    ensures InPlay(0, orig[0].inbox, e[0], ts + [t]) && InPlay(1, orig[1].inbox, e[1], ts + [t])
  {
    if p == 0 {
      MoverAfterTurn(0, orig[0].inbox, s[0], asked, e[0], ts, t);
      WaiterAfterTurn(1, orig[1].inbox, s[1], ts, t);
    } else {
      WaiterAfterTurn(0, orig[0].inbox, s[0], ts, t);
      MoverAfterTurn(1, orig[1].inbox, s[1], asked, e[1], ts, t);
    }
  }

  /**
   * The turn played when the mover's first accepted line is line k: it is the
   * next legal turn, the board follows it, and both endpoints stay in play.
   * Stated in the terms that asking for the move and applying it provide.
   */
  lemma BothAfterMove(orig: seq<Endpoint>, s: seq<Endpoint>, e: seq<Endpoint>, ts: seq<Turn>, p: int, k: nat, m: Move)
    requires |orig| == 2 && |s| == 2 && |e| == 2 && (p == 0 || p == 1)
    requires Legal(ts) && VerdictOf(Replay(ts)) == Ongoing && p == |ts| % 2
    requires InPlay(0, orig[0].inbox, s[0], ts) && InPlay(1, orig[1].inbox, s[1], ts)
    requires k == FirstAccepted(Replay(ts), s[p].inbox) && k < |s[p].inbox| && ParseMove(s[p].inbox[k]) == Some(m)
    requires var asked := s[p].(inbox := s[p].inbox[k + 1..], outbox := s[p].outbox + Prompt(Replay(ts)) + Retries(k));
      var after := Place(Replay(ts), p, m.row, m.col);
      e[p] == if VerdictOf(after) == Ongoing then asked.Sent(AfterMove(after)) else asked
    requires e[1 - p] == s[1 - p]
    ensures var t := Turn(p, s[p].inbox[..k], s[p].inbox[k]);
      Legal(ts + [t]) && Replay(ts + [t]) == Place(Replay(ts), p, m.row, m.col) &&
      InPlay(0, orig[0].inbox, e[0], ts + [t]) && InPlay(1, orig[1].inbox, e[1], ts + [t])
  {
    var lines := s[p].inbox;
    var t := Turn(p, lines[..k], lines[k]);
    NextTurn(ts, p, lines, k);
    SplitAt(lines, k);
    var asked := s[p].(inbox := lines[k + 1..], outbox := s[p].outbox + Prompt(Replay(ts)) + Retries(k));
    BothAfterTurn(orig, s, asked, e, ts, p, t);
  }

  /** Endpoint i once its player has left while asked to move: the prompt and the retries were its last messages. */
  ghost predicate Left(i: int, inbox: seq<string>, e: Endpoint, ts: seq<Turn>, rej: seq<string>) {
    e.hungUp && !e.closed && e.inbox == [] &&
    e.outbox == Header(i) + TurnsLog(i, ts) + Prompt(Replay(ts)) + Retries(|rej|) && inbox == LinesRead(i, ts) + rej &&
    forall j | 0 <= j < |rej| :: !Accepts(Replay(ts), rej[j])
  }

  /** When the player to move leaves without naming a valid move, the mover's endpoint has left and the other is still in play. */
  lemma BothAfterLeaving(orig: seq<Endpoint>, s: seq<Endpoint>, e: seq<Endpoint>, ts: seq<Turn>, p: int, rej: seq<string>)
    requires |orig| == 2 && |s| == 2 && |e| == 2 && (p == 0 || p == 1)
    requires InPlay(0, orig[0].inbox, s[0], ts) && InPlay(1, orig[1].inbox, s[1], ts)
    requires rej == s[p].inbox && FirstAccepted(Replay(ts), rej) == |rej|
    requires e[p] == s[p].(inbox := [], outbox := s[p].outbox + Prompt(Replay(ts)) + Retries(|rej|), hungUp := true)
    requires e[1 - p] == s[1 - p]
    ensures Left(p, orig[p].inbox, e[p], ts, rej) && InPlay(1 - p, orig[1 - p].inbox, e[1 - p], ts)
  {
    FirstAcceptedIs(Replay(ts), rej, |rej|);
    assert orig[p].inbox == LinesRead(p, ts) + rej;
  }

  /** The leaver's endpoint, once closed, holds the abandoned-match transcript of the player who left; its lines were all read. */
  lemma LeaverClosed(i: int, inbox: seq<string>, e: Endpoint, e': Endpoint, ts: seq<Turn>, rej: seq<string>)
    requires Left(i, inbox, e, ts, rej)
    requires e' == e.Sent([PlayerLeft]).(closed := true)
    ensures e'.closed && e'.outbox == Transcript(i, ts, Abandoned(i, rej))
    ensures inbox == AllLinesRead(i, ts, Abandoned(i, rej)) + e'.inbox
  {
    assert inbox == LinesRead(i, ts) + rej + [];
  }

  /** The other endpoint, once closed, holds the abandoned-match transcript of the one still there. */
  lemma StayerClosed(i: int, inbox: seq<string>, e: Endpoint, e': Endpoint, ts: seq<Turn>, p: int, rej: seq<string>)
    requires InPlay(i, inbox, e, ts) && p != i
    requires e' == e.Sent([PlayerLeft]).(closed := true)
    ensures e'.closed && e'.outbox == Transcript(i, ts, Abandoned(p, rej))
    ensures inbox == AllLinesRead(i, ts, Abandoned(p, rej)) + e'.inbox
  {
  }

  /** When the board is decided, each endpoint has been sent its finished-match transcript. */
  lemma AtFinish(i: int, inbox: seq<string>, e: Endpoint, e': Endpoint, ts: seq<Turn>, won: int)
    requires InPlay(i, inbox, e, ts) && won == WinnerOf(Replay(ts))
    requires e' == e.Sent(EndGameMessages(i, won, Render(Replay(ts)))).Sent([Terminating]).(closed := true)
    ensures e'.closed && e'.outbox == Transcript(i, ts, Finished)
    ensures inbox == AllLinesRead(i, ts, Finished) + e'.inbox
  {
  }

  /** Both endpoints closed, each sent exactly its transcript of the match and read exactly its lines of it. */
  ghost predicate Concluded(orig: seq<Endpoint>, e: seq<Endpoint>, ts: seq<Turn>, ending: Ending)
    requires |orig| == 2 && |e| == 2
  {
    e[0].closed && e[1].closed &&
    e[0].outbox == Transcript(0, ts, ending) && e[1].outbox == Transcript(1, ts, ending) &&
    orig[0].inbox == AllLinesRead(0, ts, ending) + e[0].inbox &&
    orig[1].inbox == AllLinesRead(1, ts, ending) + e[1].inbox
  }

  /** A match abandoned by player p ends with p gone, p's rejected lines refused, and both transcripts complete. */
  lemma BothAbandoned(orig: seq<Endpoint>, s: seq<Endpoint>, e: seq<Endpoint>, ts: seq<Turn>, p: int, rej: seq<string>)
    requires |orig| == 2 && |s| == 2 && |e| == 2 && (p == 0 || p == 1)
    requires Left(p, orig[p].inbox, s[p], ts, rej) && InPlay(1 - p, orig[1 - p].inbox, s[1 - p], ts)
    requires e[0] == s[0].Sent([PlayerLeft]).(closed := true) && e[1] == s[1].Sent([PlayerLeft]).(closed := true)
    ensures Concluded(orig, e, ts, Abandoned(p, rej))
  {
    if p == 0 {
      LeaverClosed(0, orig[0].inbox, s[0], e[0], ts, rej);
      StayerClosed(1, orig[1].inbox, s[1], e[1], ts, 0, rej);
    } else {
      StayerClosed(0, orig[0].inbox, s[0], e[0], ts, 1, rej);
      LeaverClosed(1, orig[1].inbox, s[1], e[1], ts, rej);
    }
  }

  /** A decided match ends with both transcripts complete. */
  lemma BothFinished(orig: seq<Endpoint>, s: seq<Endpoint>, e: seq<Endpoint>, ts: seq<Turn>, won: int)
    requires |orig| == 2 && |s| == 2 && |e| == 2 && won == WinnerOf(Replay(ts))
    requires InPlay(0, orig[0].inbox, s[0], ts) && InPlay(1, orig[1].inbox, s[1], ts)
    requires e[0] == s[0].Sent(EndGameMessages(0, won, Render(Replay(ts)))).Sent([Terminating]).(closed := true)
    requires e[1] == s[1].Sent(EndGameMessages(1, won, Render(Replay(ts)))).Sent([Terminating]).(closed := true)
    ensures Concluded(orig, e, ts, Finished)
  {
    AtFinish(0, orig[0].inbox, s[0], e[0], ts, won);
    AtFinish(1, orig[1].inbox, s[1], e[1], ts, won);
  }

  class GameInstance {
    /** The two players' connections, X's first. */
    var ends: seq<Endpoint>
    const game: GameLogic

    ghost predicate Valid()
      reads this, game.board
    {
      |ends| == 2 && game.Valid()
    }

    /** Both players connected, nothing written to them yet, and a blank board. */
    ghost predicate Ready()
      reads this, game.board
    {
      Valid() && game.Cells() == Fresh &&
      forall i | 0 <= i < 2 :: !ends[i].hungUp && !ends[i].closed && ends[i].outbox == []
    }

    /** A match between the players who will send `inbox0` (X) and `inbox1` (O), on a new board. */
    constructor (inbox0: seq<string>, inbox1: seq<string>)
      ensures Ready() && fresh(game) && fresh(game.board)
      ensures ends == [Connected(inbox0), Connected(inbox1)]
    {
      ends := [Connected(inbox0), Connected(inbox1)];
      game := new GameLogic();
    }

    /** writeBytes to player i. */
    method Send(i: int, msg: string)
      requires 0 <= i < 2 && |ends| == 2
      modifies this
      ensures |ends| == 2 && ends[i] == old(ends[i]).Sent([msg]) && ends[1 - i] == old(ends[1 - i])
    {
      ends := ends[i := ends[i].Sent([msg])];
    }

    /** readLine from player i: the next line, or None when the input has ended, the connection then being gone. */
    method ReadLine(i: int) returns (line: Option<string>)
      requires 0 <= i < 2 && |ends| == 2
      modifies this
      ensures |ends| == 2 && ends[1 - i] == old(ends[1 - i])
      ensures old(ends[i].inbox) == [] ==>
        line == None && ends[i] == old(ends[i]).(hungUp := true)
      ensures old(ends[i].inbox) != [] ==>
        line == Some(old(ends[i].inbox[0])) && ends[i] == old(ends[i]).(inbox := old(ends[i].inbox[1..]))
    {
      if ends[i].inbox == [] {
        ends := ends[i := ends[i].(hungUp := true)];
        return None;
      }
      line := Some(ends[i].inbox[0]);
      ends := ends[i := ends[i].(inbox := ends[i].inbox[1..])];
    }

    /** Closing player i's socket. */
    method Close(i: int)
      requires 0 <= i < 2 && |ends| == 2
      modifies this
      ensures |ends| == 2 && ends[i] == old(ends[i]).(closed := true) && ends[1 - i] == old(ends[1 - i])
    {
      ends := ends[i := ends[i].(closed := true)];
    }

    /** Each player's symbol, and the waiting notice to O, who moves second. */
    method Greet()
      requires |ends| == 2
      modifies this
      ensures |ends| == 2 && ends[0] == old(ends[0]).Sent(Header(0)) && ends[1] == old(ends[1]).Sent(Header(1))
    {
      Send(0, YouAreX);
      Send(1, YouAreO);
      Send(1, WaitingForMove);
      SentTwice(old(ends[1]), [YouAreO], [WaitingForMove]);
    }

    /** "Current board:", the board as text, and then `note`, to player i. */
    method ShowBoard(i: int, note: string)
      requires Valid() && 0 <= i < 2
      modifies this
      ensures Valid() && ends[1 - i] == old(ends[1 - i])
      ensures ends[i] == old(ends[i]).Sent([CurrentBoard, Render(game.Cells()), note])
    {
      Send(i, CurrentBoard);
      var text := game.ToString();
      Send(i, text);
      Send(i, note);
      SentTwice(old(ends[i]), [CurrentBoard], [text]);
      SentTwice(old(ends[i]), [CurrentBoard, text], [note]);
    }

    /**
     * Reads lines from the player until one names a valid move, answering every
     * other line with "Invalid position! Try again!".  When the player's input
     * ends, the answer to that can no longer be written and the read fails: None.
     */
    method ReadAndValidatePlayerMove(turnPlayer: int) returns (input: Option<Move>)
      requires Valid() && 0 <= turnPlayer < 2 && !ends[turnPlayer].hungUp
      modifies this
      ensures Valid() && ends[1 - turnPlayer] == old(ends[1 - turnPlayer])
      ensures input.Some? ==> ValidMove(game.Cells(), input.value.row, input.value.col)
      ensures var lines := old(ends[turnPlayer].inbox);
        var k := FirstAccepted(game.Cells(), lines);
        if k < |lines| then
          input == ParseMove(lines[k]) && input.Some? &&
          ends[turnPlayer] == old(ends[turnPlayer]).(inbox := lines[k + 1..], outbox := old(ends[turnPlayer].outbox) + Retries(k))
        else
          input == None &&
          ends[turnPlayer] == old(ends[turnPlayer]).(inbox := [], outbox := old(ends[turnPlayer].outbox) + Retries(k), hungUp := true)
    {
      ghost var g := game.Cells();
      ghost var lines := ends[turnPlayer].inbox;
      ghost var n := 0;
      assert lines[n..] == lines && old(ends[turnPlayer].outbox) + Retries(n) == old(ends[turnPlayer].outbox);
      while true
        invariant Valid() && game.Cells() == g && 0 <= n <= |lines|
        invariant ends[turnPlayer] == old(ends[turnPlayer]).(inbox := lines[n..], outbox := old(ends[turnPlayer].outbox) + Retries(n))
        invariant ends[1 - turnPlayer] == old(ends[1 - turnPlayer])
        invariant forall j | 0 <= j < n :: !Accepts(g, lines[j])
        decreases |lines| - n
      {
        var line := ReadLine(turnPlayer);
        if line.None? {
          // the reply to the missing line fails, which ends the read
          Send(turnPlayer, InvalidPosition);
          FirstAcceptedIs(g, lines, n);
          return None;
        }
        assert line.value == lines[n];
        var playerInput := ParseMove(line.value);
        if playerInput.Some? && game.IsValidMove(playerInput.value.row, playerInput.value.col) {
          FirstAcceptedIs(g, lines, n);
          return playerInput;
        }
        assert !Accepts(g, lines[n]);
        Send(turnPlayer, InvalidPosition);
        assert lines[n..][1..] == lines[n + 1..];
        assert Retries(n + 1) == Retries(n) + [InvalidPosition];
        n := n + 1;
      }
    }

    /** The result line to each player (the winner's and the loser's, or a draw for both), then the final board to each. */
    method SendEndGameMessages(playerWon: int)
      requires Valid()
      modifies this
      ensures Valid()
      ensures forall i | 0 <= i < 2 :: ends[i] == old(ends[i]).Sent(EndGameMessages(i, playerWon, Render(game.Cells())))
    {
      ghost var g := game.Cells();
      ghost var board := Render(g);
      if playerWon == XPlayer {
        Send(0, YouWon);
        Send(1, YouLost);
      } else if playerWon == OPlayer {
        Send(1, YouWon);
        Send(0, YouLost);
      } else {
        for i := 0 to 2
          invariant |ends| == 2
          invariant ends[0] == if 0 < i then old(ends[0]).Sent([ItsADraw]) else old(ends[0])
          invariant ends[1] == if 1 < i then old(ends[1]).Sent([ItsADraw]) else old(ends[1])
        {
          Send(i, ItsADraw);
        }
      }
      ghost var decided := ends;
      assert forall j | 0 <= j < 2 :: decided[j] == old(ends[j]).Sent([OutcomeLine(j, playerWon)]);
      for i := 0 to 2
        invariant Valid() && game.Cells() == g
        invariant ends[0] == if 0 < i then decided[0].Sent([FinalBoard, board]) else decided[0]
        invariant ends[1] == if 1 < i then decided[1].Sent([FinalBoard, board]) else decided[1]
      {
        Send(i, FinalBoard);
        var text := game.ToString();
        assert text == board;
        Send(i, text);
        SentTwice(decided[i], [FinalBoard], [text]);
        assert [FinalBoard] + [text] == [FinalBoard, board];
      }
      forall j | 0 <= j < 2
        ensures ends[j] == old(ends[j]).Sent(EndGameMessages(j, playerWon, board))
      {
        SentTwice(old(ends[j]), [OutcomeLine(j, playerWon)], [FinalBoard, board]);
        assert [OutcomeLine(j, playerWon)] + [FinalBoard, board] == EndGameMessages(j, playerWon, board);
      }
    }

    /** After a failure: the other-player-has-left notice to each player still there, then both sockets closed. */
    method DropConnections()
      requires |ends| == 2
      modifies this
      ensures |ends| == 2
      ensures ends[0] == old(ends[0]).Sent([PlayerLeft]).(closed := true)
      ensures ends[1] == old(ends[1]).Sent([PlayerLeft]).(closed := true)
    {
      for i := 0 to 2
        invariant |ends| == 2
        invariant forall j | 0 <= j < 2 :: ends[j] == if j < i then old(ends[j]).Sent([PlayerLeft]) else old(ends[j])
      {
        Send(i, PlayerLeft);
      }
      for i := 0 to 2
        invariant |ends| == 2
        invariant forall j | 0 <= j < 2 :: ends[j] == if j < i then old(ends[j]).Sent([PlayerLeft]).(closed := true) else old(ends[j]).Sent([PlayerLeft])
      {
        Close(i);
      }
    }

    /** The end of a decided match: the result and the final board to both players, then the closing notice and both sockets closed. */
    method FinishMatch(playerWon: int)
      requires Valid()
      modifies this
      ensures Valid() && game.Cells() == old(game.Cells())
      ensures ends[0] == old(ends[0]).Sent(EndGameMessages(0, playerWon, Render(game.Cells()))).Sent([Terminating]).(closed := true)
      ensures ends[1] == old(ends[1]).Sent(EndGameMessages(1, playerWon, Render(game.Cells()))).Sent([Terminating]).(closed := true)
    {
      SendEndGameMessages(playerWon);
      ghost var ended := ends;
      for i := 0 to 2
        invariant |ends| == 2
        invariant ends[0] == if 0 < i then ended[0].Sent([Terminating]).(closed := true) else ended[0]
        invariant ends[1] == if 1 < i then ended[1].Sent([Terminating]).(closed := true) else ended[1]
      {
        Send(i, Terminating);
        Close(i);
      }
    }

    /** The current board and the prompt to the player to move, then that player's validated move. */
    method AskForMove(turnPlayer: int) returns (input: Option<Move>)
      requires Valid() && 0 <= turnPlayer < 2 && !ends[turnPlayer].hungUp
      modifies this
      ensures Valid() && game.Cells() == old(game.Cells()) && ends[1 - turnPlayer] == old(ends[1 - turnPlayer])
      ensures var lines := old(ends[turnPlayer].inbox);
        var k := FirstAccepted(game.Cells(), lines);
        var shown := old(ends[turnPlayer].outbox) + Prompt(game.Cells()) + Retries(k);
        if k < |lines| then
          input == ParseMove(lines[k]) && input.Some? &&
          ends[turnPlayer] == old(ends[turnPlayer]).(inbox := lines[k + 1..], outbox := shown)
        else
          input == None && ends[turnPlayer] == old(ends[turnPlayer]).(inbox := [], outbox := shown, hungUp := true)
    {
      ShowBoard(turnPlayer, YourTurn);
      input := ReadAndValidatePlayerMove(turnPlayer);
    }

    /** The move applied and the board judged; while the game goes on, the mover is shown the new board and told to wait. */
    method ApplyMove(turnPlayer: int, move: Move) returns (playerWon: int, draw: bool)
      requires Valid() && 0 <= turnPlayer < 2
      modifies this, game.board
      ensures Valid() && game.Cells() == Place(old(game.Cells()), turnPlayer, move.row, move.col)
      ensures playerWon == WinnerOf(game.Cells()) && draw == Filled(game.Cells())
      ensures (playerWon == Blank && !draw) == (VerdictOf(game.Cells()) == Ongoing)
      ensures ends[1 - turnPlayer] == old(ends[1 - turnPlayer])
      ensures ends[turnPlayer] ==
        if VerdictOf(game.Cells()) == Ongoing then old(ends[turnPlayer]).Sent(AfterMove(game.Cells())) else old(ends[turnPlayer])
    {
      game.MakePlayerMove(turnPlayer, move.row, move.col);
      playerWon := game.IsWinningBoard();
      draw := game.BoardFilled();
      if playerWon == Blank && !draw {
        ShowBoard(turnPlayer, WaitingForMove);
      }
    }

    /** The match abandoned by player p: the leaving notice to whoever is still there, and both sockets closed. */
    method EndAbandoned(ghost orig: seq<Endpoint>, ghost turns: seq<Turn>, p: int, ghost rej: seq<string>)
      requires |ends| == 2 && |orig| == 2 && (p == 0 || p == 1)
      requires Left(p, orig[p].inbox, ends[p], turns, rej) && InPlay(1 - p, orig[1 - p].inbox, ends[1 - p], turns)
      modifies this
      ensures |ends| == 2 && ends[p].hungUp && ends[p].inbox == []
      ensures Concluded(orig, ends, turns, Abandoned(p, rej))
    {
      ghost var left := ends;
      DropConnections();
      BothAbandoned(orig, left, ends, turns, p, rej);
    }

    /** The decided match: both players told the result and shown the final board, then both sockets closed. */
    method EndFinished(ghost orig: seq<Endpoint>, ghost turns: seq<Turn>, playerWon: int)
      requires Valid() && |orig| == 2 && game.Cells() == Replay(turns) && playerWon == WinnerOf(Replay(turns))
      requires InPlay(0, orig[0].inbox, ends[0], turns) && InPlay(1, orig[1].inbox, ends[1], turns)
      modifies this
      ensures Valid() && game.Cells() == Replay(turns)
      ensures Concluded(orig, ends, turns, Finished)
    {
      ghost var played := ends;
      FinishMatch(playerWon);
      BothFinished(orig, played, ends, turns, playerWon);
    }

    /**
     * One pass of the match loop for the player to move.  When that player names
     * a valid move, the move is the next legal turn and both endpoints stay in
     * play; `playerWon` and `draw` are the engine's verdict on the new board.
     * When the player leaves first, `moved` is false and the rejected lines of
     * `t` are all the lines that player sent.
     */
    method PlayTurn(turnPlayer: int, ghost turns: seq<Turn>, ghost orig: seq<Endpoint>) returns (moved: bool, playerWon: int, draw: bool, ghost t: Turn)
      requires Valid() && Legal(turns) && game.Cells() == Replay(turns) && VerdictOf(Replay(turns)) == Ongoing
      requires turnPlayer == |turns| % 2 && (turnPlayer == 0 || turnPlayer == 1) && |orig| == 2
      requires InPlay(0, orig[0].inbox, ends[0], turns) && InPlay(1, orig[1].inbox, ends[1], turns)
      modifies this, game.board
      ensures Valid() && t.player == turnPlayer
      ensures moved ==>
        Legal(turns + [t]) && game.Cells() == Replay(turns + [t]) &&
        playerWon == WinnerOf(Replay(turns + [t])) &&
        (playerWon == Blank && !draw <==> VerdictOf(Replay(turns + [t])) == Ongoing) &&
        InPlay(0, orig[0].inbox, ends[0], turns + [t]) && InPlay(1, orig[1].inbox, ends[1], turns + [t])
      ensures !moved ==>
        game.Cells() == Replay(turns) &&
        Left(turnPlayer, orig[turnPlayer].inbox, ends[turnPlayer], turns, t.rejected) &&
        InPlay(1 - turnPlayer, orig[1 - turnPlayer].inbox, ends[1 - turnPlayer], turns)
    {
      ghost var start := ends;
      ghost var lines := ends[turnPlayer].inbox;
      ghost var k := FirstAccepted(game.Cells(), lines);
      var playerInput := AskForMove(turnPlayer);
      if playerInput.None? {
        t := Turn(turnPlayer, lines, []);
        BothAfterLeaving(orig, start, ends, turns, turnPlayer, lines);
        moved, playerWon, draw := false, Blank, false;
        return;
      }
      t := Turn(turnPlayer, lines[..k], lines[k]);
      playerWon, draw := ApplyMove(turnPlayer, playerInput.value);
      BothAfterMove(orig, start, ends, turns, turnPlayer, k, playerInput.value);
      moved := true;
    }

    /**
     * The whole match.  X and O take turns, starting with X, until the board
     * shows a winner or is full, or until the player to move leaves.  The
     * returned turns and ending say what happened; each player has then been
     * sent exactly its Transcript and has had exactly its lines read, and both
     * connections are closed.
     */
    method PlayGame() returns (ghost turns: seq<Turn>, ghost ending: Ending)
      requires Ready()
      modifies this, game.board
      ensures Valid() && Legal(turns) && game.Cells() == Replay(turns)
      ensures ending == Finished <==> VerdictOf(Replay(turns)) != Ongoing
      ensures ending.Abandoned? ==>
        ending.player == |turns| % 2 && ends[ending.player].hungUp && ends[ending.player].inbox == [] &&
        forall j | 0 <= j < |ending.rejected| :: !Accepts(Replay(turns), ending.rejected[j])
      ensures Concluded(old(ends), ends, turns, ending)
    {
      ghost var orig := ends;
      Greet();
      var turnPlayer := 0;
      var playerWon := Blank;
      var draw := false;
      turns := [];
      assert VerdictOf(Replay(turns)) == Ongoing by {
        NoWinBeforeFifthMove(turns);
        FreshIsBlank();
        assert Fresh[0][0] == Blank;
      }
      assert InPlay(0, orig[0].inbox, ends[0], turns);
      assert InPlay(1, orig[1].inbox, ends[1], turns);
      while true
        invariant Valid() && Legal(turns) && |turns| <= 9
        invariant game.Cells() == Replay(turns) && VerdictOf(Replay(turns)) == Ongoing
        invariant turnPlayer == |turns| % 2 && (turnPlayer == 0 || turnPlayer == 1)
        invariant InPlay(0, orig[0].inbox, ends[0], turns) && InPlay(1, orig[1].inbox, ends[1], turns)
        decreases 9 - |turns|
      {
        var moved;
        ghost var t;
        moved, playerWon, draw, t := PlayTurn(turnPlayer, turns, orig);
        if !moved {
          ending := Abandoned(turnPlayer, t.rejected);
          EndAbandoned(orig, turns, turnPlayer, t.rejected);
          return;
        }
        AtMostNineTurns(turns + [t]);
        turns := turns + [t];
        if playerWon == Blank && !draw {
          SwitchTurnAlternates(|turns| - 1);
          turnPlayer := SwitchTurn(turnPlayer);
        } else {
          break;
        }
      }
      ending := Finished;
      EndFinished(orig, turns, playerWon);
    }
  }
}
