/**
 * The board engine's pure view: a 3x3 grid of ints in which -1 is a blank
 * cell, 0 is X and 1 is O, together with the rules the engine applies to it
 * (move validity, placing a mark, the winner scan, fullness, the text render).
 * The class GameLogic in board.dfy is proved against these definitions.
 */
module BoardSpec {

  const XPlayer: int := 0
  const OPlayer: int := 1
  const Blank: int := -1

  /** A 3x3 grid, indexed g[row][col]. */
  type Grid = g: seq<seq<int>> | |g| == 3 && forall r | 0 <= r < 3 :: |g[r]| == 3
    witness [[-1, -1, -1], [-1, -1, -1], [-1, -1, -1]]

  predicate InRange(row: int, col: int) {
    0 <= row < 3 && 0 <= col < 3
  }

  /** Every cell holds Blank, X or O. */
  predicate WellFormed(g: Grid) {
    forall r, c | 0 <= r < 3 && 0 <= c < 3 :: Blank <= g[r][c] <= OPlayer
  }

  /** The board a new game starts from. */
  const Fresh: Grid := [[Blank, Blank, Blank], [Blank, Blank, Blank], [Blank, Blank, Blank]]

  lemma FreshIsBlank()
    ensures WellFormed(Fresh)
    ensures forall r, c | 0 <= r < 3 && 0 <= c < 3 :: Fresh[r][c] == Blank
  {
  }

  /** A move is valid when it lies on the board and targets a blank cell. */
  predicate ValidMove(g: Grid, row: int, col: int) {
    InRange(row, col) && g[row][col] == Blank
  }

  /** The board after `player` marks (row, col): a no-op unless the move is valid and the player is X or O. */
  function Place(g: Grid, player: int, row: int, col: int): Grid {
    if ValidMove(g, row, col) && XPlayer <= player <= OPlayer then g[row := g[row][col := player]] else g
  }

  /** Placing sets exactly the target cell, and only when the move is valid and the player is X or O. */
  lemma PlaceEffect(g: Grid, player: int, row: int, col: int)
    ensures forall r, c | 0 <= r < 3 && 0 <= c < 3 ::
      Place(g, player, row, col)[r][c] ==
        if r == row && c == col && ValidMove(g, row, col) && XPlayer <= player <= OPlayer then player else g[r][c]
  {
  }

  /** An occupied cell never reverts to blank and never changes owner. */
  lemma PlaceKeepsMarks(g: Grid, player: int, row: int, col: int)
    ensures forall r, c | 0 <= r < 3 && 0 <= c < 3 && g[r][c] != Blank :: Place(g, player, row, col)[r][c] == g[r][c]
  {
  }

  lemma PlaceWellFormed(g: Grid, player: int, row: int, col: int)
    requires WellFormed(g)
    ensures WellFormed(Place(g, player, row, col))
  {
  }

  // ---------------------------------------------------------------------
  // Counting cells

  function Ind(b: bool): nat {
    if b then 1 else 0
  }

  function RowCount(row: seq<int>, v: int): nat
    requires |row| == 3
  {
    Ind(row[0] == v) + Ind(row[1] == v) + Ind(row[2] == v)
  }

  /** The number of cells holding `v`. */
  function CountOf(g: Grid, v: int): nat {
    RowCount(g[0], v) + RowCount(g[1], v) + RowCount(g[2], v)
  }

  /** A valid placement turns exactly one blank into one mark of the mover. */
  lemma {:induction false} PlaceCount(g: Grid, player: int, row: int, col: int, v: int)
    requires ValidMove(g, row, col) && XPlayer <= player <= OPlayer
    ensures CountOf(Place(g, player, row, col), v) == CountOf(g, v) + Ind(v == player) - Ind(v == Blank)
  {
    var g' := Place(g, player, row, col);
    assert g'[row][col] == player;
    if row == 0 {
      assert g'[1] == g[1] && g'[2] == g[2];
    } else if row == 1 {
      assert g'[0] == g[0] && g'[2] == g[2];
    } else {
      assert g'[0] == g[0] && g'[1] == g[1];
    }
    assert forall c | 0 <= c < 3 && c != col :: g'[row][c] == g[row][c];
  }

  // ---------------------------------------------------------------------
  // Fullness

  /** No cell is blank. */
  predicate Filled(g: Grid) {
    forall r, c | 0 <= r < 3 && 0 <= c < 3 :: g[r][c] != Blank
  }

  /** The board is full exactly when no move is valid, and exactly when no cell is blank. */
  lemma FilledMeansNoMove(g: Grid)
    ensures Filled(g) <==> forall r, c :: !ValidMove(g, r, c)
    ensures Filled(g) <==> CountOf(g, Blank) == 0
  {
    forall r, c | 0 <= r < 3 && 0 <= c < 3 ensures ValidMove(g, r, c) <==> g[r][c] == Blank {
    }
    if CountOf(g, Blank) == 0 {
      assert forall c | 0 <= c < 3 :: g[0][c] != Blank && g[1][c] != Blank && g[2][c] != Blank;
    }
  }

  // ---------------------------------------------------------------------
  // Lines and the winner scan

  /** Three cells (r0, c0), (r1, c1), (r2, c2). */
  datatype Line = Line(r0: int, c0: int, r1: int, c1: int, r2: int, c2: int)

  function Column(i: int): Line {
    Line(0, i, 1, i, 2, i)
  }

  function Row(i: int): Line {
    Line(i, 0, i, 1, i, 2)
  }

  const MainDiagonal: Line := Line(0, 0, 1, 1, 2, 2)
  const AntiDiagonal: Line := Line(0, 2, 1, 1, 2, 0)

  /** The order in which the engine looks for a complete line: the two diagonals, the three columns, the three rows. */
  const ScanOrder: seq<Line> := [
    MainDiagonal, AntiDiagonal, Column(0), Column(1), Column(2), Row(0), Row(1), Row(2)
  ]

  predicate OnGrid(l: Line) {
    InRange(l.r0, l.c0) && InRange(l.r1, l.c1) && InRange(l.r2, l.c2)
  }

  predicate AllOnGrid(lines: seq<Line>) {
    forall k | 0 <= k < |lines| :: OnGrid(lines[k])
  }

  lemma ScanOrderShape()
    ensures |ScanOrder| == 8 && AllOnGrid(ScanOrder)
    ensures ScanOrder[0] == MainDiagonal && ScanOrder[1] == AntiDiagonal
    ensures forall i | 0 <= i < 3 :: ScanOrder[2 + i] == Column(i) && ScanOrder[5 + i] == Row(i)
  {
    forall i | 0 <= i < 3 ensures ScanOrder[2 + i] == Column(i) && ScanOrder[5 + i] == Row(i) {
      if i == 0 {} else if i == 1 {} else {}
    }
  }

  /** The mark filling the line, or Blank when its cells are not all the same mark. */
  function LineValue(g: Grid, l: Line): int
    requires OnGrid(l)
  {
    var a := g[l.r0][l.c0];
    if a != Blank && g[l.r1][l.c1] == a && g[l.r2][l.c2] == a then a else Blank
  }

  /** The value of the first line of `lines` that is complete, or Blank when none is. */
  function FirstComplete(g: Grid, lines: seq<Line>): int
    requires AllOnGrid(lines)
  {
    if lines == [] then Blank
    else if LineValue(g, lines[0]) != Blank then LineValue(g, lines[0])
    else FirstComplete(g, lines[1..])
  }

  /** What isWinningBoard returns: the mark of the first complete line in scan order, or Blank. */
  function WinnerOf(g: Grid): int {
    ScanOrderShape();
    FirstComplete(g, ScanOrder)
  }

  /**
   * FirstComplete is Blank exactly when no line is complete; otherwise it is
   * the mark of some complete line all of whose predecessors are incomplete.
   */
  lemma {:induction false} FirstCompleteIsFirst(g: Grid, lines: seq<Line>)
    requires AllOnGrid(lines)
    ensures FirstComplete(g, lines) == Blank <==> forall k | 0 <= k < |lines| :: LineValue(g, lines[k]) == Blank
    ensures FirstComplete(g, lines) != Blank ==>
      exists k | 0 <= k < |lines| ::
        LineValue(g, lines[k]) == FirstComplete(g, lines) && forall j | 0 <= j < k :: LineValue(g, lines[j]) == Blank
    decreases |lines|
  {
    if lines != [] {
      var tail := lines[1..];
      FirstCompleteIsFirst(g, tail);
      assert forall k | 1 <= k < |lines| :: lines[k] == tail[k - 1];
      if LineValue(g, lines[0]) != Blank {
        assert LineValue(g, lines[0]) == FirstComplete(g, lines);
      } else if FirstComplete(g, tail) != Blank {
        var k :| 0 <= k < |tail| &&
          LineValue(g, tail[k]) == FirstComplete(g, tail) && forall j | 0 <= j < k :: LineValue(g, tail[j]) == Blank;
        assert LineValue(g, lines[k + 1]) == FirstComplete(g, lines);
        assert forall j | 0 <= j < k + 1 :: LineValue(g, lines[j]) == Blank by {
          forall j | 0 <= j < k + 1 ensures LineValue(g, lines[j]) == Blank {
            if j > 0 { assert lines[j] == tail[j - 1]; }
          }
        }
      }
    }
  }

  /** When line k is the first complete one, FirstComplete returns its mark. */
  lemma {:induction false} FirstCompleteAt(g: Grid, lines: seq<Line>, k: nat)
    requires AllOnGrid(lines) && k < |lines|
    requires forall j | 0 <= j < k :: LineValue(g, lines[j]) == Blank
    requires LineValue(g, lines[k]) != Blank
    ensures FirstComplete(g, lines) == LineValue(g, lines[k])
    decreases k
  {
    if k > 0 {
      var tail := lines[1..];
      assert LineValue(g, lines[0]) == Blank;
      assert forall j | 0 <= j < k - 1 :: tail[j] == lines[j + 1];
      FirstCompleteAt(g, tail, k - 1);
    }
  }

  /** The scan result: Blank iff no line is complete, else the mark of the first complete line in scan order. */
  lemma WinnerOfIsFirstComplete(g: Grid)
    ensures WinnerOf(g) == Blank <==> forall k | 0 <= k < 8 :: LineValue(g, ScanOrder[k]) == Blank
    ensures WinnerOf(g) != Blank ==>
      exists k | 0 <= k < 8 ::
        LineValue(g, ScanOrder[k]) == WinnerOf(g) && forall j | 0 <= j < k :: LineValue(g, ScanOrder[j]) == Blank
  {
    ScanOrderShape();
    FirstCompleteIsFirst(g, ScanOrder);
  }

  /** On a well-formed board the scan reports Blank, X or O. */
  lemma WinnerIsMark(g: Grid)
    requires WellFormed(g)
    ensures WinnerOf(g) == Blank || WinnerOf(g) == XPlayer || WinnerOf(g) == OPlayer
  {
    WinnerOfIsFirstComplete(g);
  }

  /** A complete line holds three cells of its mark. */
  lemma LineMarks(g: Grid, k: nat)
    requires k < 8
    ensures LineValue(g, ScanOrder[k]) != Blank ==> CountOf(g, LineValue(g, ScanOrder[k])) >= 3
  {
    ScanOrderShape();
    if 2 <= k < 5 {
      var i := k - 2;
      assert ScanOrder[k] == Column(i);
      if i == 0 {} else if i == 1 {} else {}
    } else if 5 <= k {
      var i := k - 5;
      assert ScanOrder[k] == Row(i);
      if i == 0 {} else if i == 1 {} else {}
    }
  }

  /** With fewer than three marks of each player, no line is complete. */
  lemma FewMarksNoWinner(g: Grid)
    requires WellFormed(g) && CountOf(g, XPlayer) < 3 && CountOf(g, OPlayer) < 3
    ensures WinnerOf(g) == Blank
  {
    ScanOrderShape();
    forall k | 0 <= k < 8 ensures LineValue(g, ScanOrder[k]) == Blank {
      LineMarks(g, k);
      var l := ScanOrder[k];
      assert Blank <= g[l.r0][l.c0] <= OPlayer;
    }
    WinnerOfIsFirstComplete(g);
  }

  /**
   * If nobody had won before, a placement by `player` produces either no winner or
   * `player`: a newly complete line must run through the newly marked cell.
   */
  lemma PlaceWinner(g: Grid, player: int, row: int, col: int)
    requires WinnerOf(g) == Blank
    ensures WinnerOf(Place(g, player, row, col)) == Blank || WinnerOf(Place(g, player, row, col)) == player
  {
    var g' := Place(g, player, row, col);
    ScanOrderShape();
    WinnerOfIsFirstComplete(g);
    WinnerOfIsFirstComplete(g');
    PlaceEffect(g, player, row, col);
    forall k | 0 <= k < 8 ensures LineValue(g', ScanOrder[k]) == Blank || LineValue(g', ScanOrder[k]) == player {
      assert LineValue(g, ScanOrder[k]) == Blank;
    }
  }

  // ---------------------------------------------------------------------
  // The verdict checked after every move

  datatype Verdict = Ongoing | Won(mark: int) | Drawn

  /** A complete line wins even on a full board; a full board without one is a draw. */
  function VerdictOf(g: Grid): Verdict {
    var w := WinnerOf(g);
    if w != Blank then Won(w) else if Filled(g) then Drawn else Ongoing
  }

  // ---------------------------------------------------------------------
  // The text render

  /** "X" for 0, "O" for 1 and a space for anything else. */
  function Symbol(v: int): char {
    if v == XPlayer then 'X' else if v == OPlayer then 'O' else ' '
  }

  function RowText(row: seq<int>): string
    requires |row| == 3
  {
    [Symbol(row[0]), '|', Symbol(row[1]), '|', Symbol(row[2]), '\n']
  }

  /** Three lines "c|c|c\n", one per row. */
  function Render(g: Grid): string {
    RowText(g[0]) + RowText(g[1]) + RowText(g[2])
  }

  /** The render is 18 characters: cell (r, c) at 6r + 2c, a bar after the first two cells of a row, a newline after the third. */
  lemma RenderLayout(g: Grid)
    ensures |Render(g)| == 18
    ensures forall r, c | 0 <= r < 3 && 0 <= c < 3 ::
      Render(g)[6 * r + 2 * c] == Symbol(g[r][c]) &&
      Render(g)[6 * r + 2 * c + 1] == (if c < 2 then '|' else '\n')
  {
    var s := Render(g);
    forall r, c | InRange(r, c)
      ensures s[6 * r + 2 * c] == Symbol(g[r][c])
      ensures s[6 * r + 2 * c + 1] == (if c < 2 then '|' else '\n')
    {
      assert s[6 * r..6 * r + 6] == RowText(g[r]) by {
        if r == 0 {
          assert s[..6] == RowText(g[0]);
        } else if r == 1 {
          assert s[6..12] == RowText(g[1]);
        } else {
          assert s[12..18] == RowText(g[2]);
        }
      }
      assert s[6 * r + 2 * c] == s[6 * r..6 * r + 6][2 * c];
      assert s[6 * r + 2 * c + 1] == s[6 * r..6 * r + 6][2 * c + 1];
    }
  }

  /** Read left to right, the render continues past cell (r, c) with that cell's symbol and then its separator. */
  lemma RenderStep(g: Grid, r: int, c: int, before: string, after: string)
    requires InRange(r, c)
    requires before == Render(g)[..6 * r + 2 * c]
    requires after == before + [Symbol(g[r][c])] + [if c < 2 then '|' else '\n']
    ensures after == Render(g)[..6 * r + 2 * (c + 1)]
  {
    RenderLayout(g);
    var k := 6 * r + 2 * c;
    var text := Render(g);
    assert text[k] == Symbol(g[r][c]) && text[k + 1] == (if c < 2 then '|' else '\n');
    assert text[..k + 2] == text[..k] + [text[k]] + [text[k + 1]];
  }

  /** The mark a rendered character stands for. */
  function MarkOf(ch: char): int {
    if ch == 'X' then XPlayer else if ch == 'O' then OPlayer else Blank
  }

  /** Reads a board back from its render. */
  function Unrender(s: string): Grid
    requires |s| == 18
  {
    seq(3, r requires 0 <= r < 3 => seq(3, c requires 0 <= c < 3 => MarkOf(s[6 * r + 2 * c])))
  }

  /** The render loses nothing: a well-formed board is recovered from its text. */
  lemma {:induction false} UnrenderRender(g: Grid)
    requires WellFormed(g)
    ensures |Render(g)| == 18 && Unrender(Render(g)) == g
  {
    RenderLayout(g);
    var u := Unrender(Render(g));
    forall r | 0 <= r < 3 ensures u[r] == g[r] {
      forall c | 0 <= c < 3 ensures u[r][c] == g[r][c] {
        assert u[r][c] == MarkOf(Symbol(g[r][c]));
      }
    }
  }
}
