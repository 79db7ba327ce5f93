/**
 * The board engine as the source has it: an object owning a 3x3 int array
 * that its methods scan with index loops and update in place.  Every
 * operation is proved against its definition in BoardSpec.
 */
module Board {
  import opened BoardSpec

  class GameLogic {
    const board: array2<int>

    /** The array is 3x3 and holds only Blank, X and O. */
    ghost predicate Valid()
      reads board
    {
      board.Length0 == 3 && board.Length1 == 3 &&
      forall r, c | 0 <= r < 3 && 0 <= c < 3 :: Blank <= board[r, c] <= OPlayer
    }

    /** The board's contents as a grid value. */
    ghost function Cells(): (g: Grid)
      reads board
      requires Valid()
      ensures WellFormed(g)
      ensures forall r, c | 0 <= r < 3 && 0 <= c < 3 :: g[r][c] == board[r, c]
    {
      [[board[0, 0], board[0, 1], board[0, 2]],
       [board[1, 0], board[1, 1], board[1, 2]],
       [board[2, 0], board[2, 1], board[2, 2]]]
    }

    /** A new engine: every cell blank. */
    constructor ()
      ensures Valid() && fresh(board)
      ensures Cells() == Fresh
    {
      var b := new int[3, 3];
      var i := 0;
      while i < 3
        invariant 0 <= i <= 3
        invariant forall r, c | 0 <= r < i && 0 <= c < 3 :: b[r, c] == Blank
      {
        var j := 0;
        while j < 3
          invariant 0 <= j <= 3
          invariant forall r, c | 0 <= r < i && 0 <= c < 3 :: b[r, c] == Blank
          invariant forall c | 0 <= c < j :: b[i, c] == Blank
        {
          b[i, j] := Blank;
          j := j + 1;
        }
        i := i + 1;
      }
      board := b;
      new;
      assert forall r | 0 <= r < 3 :: Cells()[r] == Fresh[r];
    }

    /** A move is valid iff it lies on the board and its cell is blank; off-board coordinates are simply invalid. */
    function IsValidMove(row: int, col: int): (valid: bool)
      reads board
      requires Valid()
      ensures valid <==> ValidMove(Cells(), row, col)
    {
      !(row < 0 || row > 2 || col < 0 || col > 2 || board[row, col] != Blank)
    }

    /** Marks (row, col) for `player` when the move is valid and the player is X or O; otherwise changes nothing. */
    method MakePlayerMove(player: int, row: int, col: int)
      requires Valid()
      modifies board
      ensures Valid()
      ensures Cells() == Place(old(Cells()), player, row, col)
    {
      ghost var g := Cells();
      if IsValidMove(row, col) && player >= XPlayer && player <= OPlayer {
        board[row, col] := player;
      }
      ghost var g' := Place(g, player, row, col);
      PlaceEffect(g, player, row, col);
      assert forall r | 0 <= r < 3 :: Cells()[r] == g'[r];
    }

    /** The value of the first complete line in scan order (diagonals, columns, rows), or Blank. */
    method IsWinningBoard() returns (winner: int)
      requires Valid()
      ensures winner == WinnerOf(Cells())
    {
      ghost var g := Cells();
      ScanOrderShape();
      if board[0, 0] != Blank && board[1, 1] == board[0, 0] && board[2, 2] == board[0, 0] {
        FirstCompleteAt(g, ScanOrder, 0);
        return board[0, 0];
      } else if board[0, 2] != Blank && board[1, 1] == board[0, 2] && board[2, 0] == board[0, 2] {
        FirstCompleteAt(g, ScanOrder, 1);
        return board[0, 2];
      }
      var i := 0;
      while i < 3
        invariant 0 <= i <= 3
        invariant forall j | 0 <= j < 2 + i :: LineValue(g, ScanOrder[j]) == Blank
      {
        if board[0, i] != Blank && board[1, i] == board[0, i] && board[2, i] == board[0, i] {
          FirstCompleteAt(g, ScanOrder, 2 + i);
          return board[0, i];
        }
        i := i + 1;
      }
      i := 0;
      while i < 3
        invariant 0 <= i <= 3
        invariant forall j | 0 <= j < 5 + i :: LineValue(g, ScanOrder[j]) == Blank
      {
        if board[i, 0] != Blank && board[i, 1] == board[i, 0] && board[i, 2] == board[i, 0] {
          FirstCompleteAt(g, ScanOrder, 5 + i);
          return board[i, 0];
        }
        i := i + 1;
      }
      FirstCompleteIsFirst(g, ScanOrder);
      return Blank;
    }

    /** True iff no cell is blank. */
    method BoardFilled() returns (filled: bool)
      requires Valid()
      ensures filled <==> Filled(Cells())
    {
      var i := 0;
      while i < 3
        invariant 0 <= i <= 3
        invariant forall r, c | 0 <= r < i && 0 <= c < 3 :: board[r, c] != Blank
      {
        var j := 0;
        while j < 3
          invariant 0 <= j <= 3
          invariant forall c | 0 <= c < j :: board[i, c] != Blank
        {
          if board[i, j] == Blank {
            return false;
          }
          j := j + 1;
        }
        i := i + 1;
      }
      return true;
    }

    /** The board as three lines "c|c|c\n", built cell by cell. */
    method ToString() returns (s: string)
      requires Valid()
      ensures s == Render(Cells())
    {
      ghost var g := Cells();
      ghost var text := Render(g);
      var sb := "";
      var i := 0;
      while i < 3
        invariant 0 <= i <= 3
        invariant sb == text[..6 * i]
      {
        var j := 0;
        while j < 3
          invariant 0 <= j <= 3
          invariant sb == text[..6 * i + 2 * j]
        {
          var cur := board[i, j];
          ghost var before := sb;
          if cur == XPlayer {
            sb := sb + "X";
          } else if cur == OPlayer {
            sb := sb + "O";
          } else {
            sb := sb + " ";
          }
          if j < 2 {
            sb := sb + "|";
          } else {
            sb := sb + "\n";
          }
          RenderStep(g, i, j, before, sb);
          j := j + 1;
        }
        i := i + 1;
      }
      s := sb;
      RenderLayout(g);
      assert text[..18] == text;
    }
  }
}
