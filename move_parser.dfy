/**
 * Turning one line a player sent into a candidate move: the line is split at
 * single spaces, and the first two fields are parsed as decimal integers.
 * Any further fields are ignored; fewer than two fields, or a field that
 * is not an integer, gives no move.
 */
module MoveParser {
  import opened Wrappers

  datatype Move = Move(row: int, col: int)

  // ---------------------------------------------------------------------
  // Splitting at single spaces

  /**
   * The fields of `s` between single spaces, in order, empty fields included:
   * "a  b" has the three fields "a", "" and "b".
   */
  function Split(s: string): (fields: seq<string>)
    ensures |fields| >= 1
    ensures forall k | 0 <= k < |fields| :: ' ' !in fields[k]
  {
    if s == [] then [[]]
    else
      var rest := Split(s[1..]);
      if s[0] == ' ' then [[]] + rest
      else [[s[0]] + rest[0]] + rest[1..]
  }

  /** The fields put back together with single spaces between them. */
  function Join(fields: seq<string>): string
    requires |fields| >= 1
  {
    if |fields| == 1 then fields[0] else fields[0] + " " + Join(fields[1..])
  }

  /** A word without spaces is a single field. */
  lemma {:induction false} SplitWord(a: string)
    requires ' ' !in a
    ensures Split(a) == [a]
  {
    if a != [] {
      assert ' ' !in a[1..];
      SplitWord(a[1..]);
      assert [a[0]] + a[1..] == a;
    }
  }

  /** A word followed by a space is the first field; the rest of the line gives the others. */
  lemma {:induction false} SplitCons(a: string, rest: string)
    requires ' ' !in a
    ensures Split(a + " " + rest) == [a] + Split(rest)
  {
    if a == [] {
      assert a + " " + rest == " " + rest;
      assert (" " + rest)[1..] == rest;
    } else {
      assert ' ' !in a[1..];
      SplitCons(a[1..], rest);
      assert (a + " " + rest)[1..] == a[1..] + " " + rest;
      assert [a[0]] + a[1..] == a;
    }
  }

  /** Splitting loses nothing. */
  lemma {:induction false} JoinSplit(s: string)
    ensures Join(Split(s)) == s
  {
    if s != [] {
      JoinSplit(s[1..]);
      var rest := Split(s[1..]);
      if s[0] == ' ' {
        assert ([[]] + rest)[1..] == rest;
        assert s == [] + " " + s[1..];
      } else if |rest| == 1 {
        assert s == [s[0]] + rest[0];
      } else {
        var fs := [[s[0]] + rest[0]] + rest[1..];
        assert fs[1..] == rest[1..];
        assert Join(rest) == rest[0] + " " + Join(rest[1..]);
        assert s == [s[0]] + s[1..];
      }
    }
  }

  /** Joining space-free fields and splitting again gives the fields back. */
  lemma {:induction false} SplitJoin(fields: seq<string>)
    requires |fields| >= 1
    requires forall k | 0 <= k < |fields| :: ' ' !in fields[k]
    ensures Split(Join(fields)) == fields
    decreases |fields|
  {
    if |fields| == 1 {
      SplitWord(fields[0]);
    } else {
      SplitJoin(fields[1..]);
      SplitCons(fields[0], Join(fields[1..]));
      assert [fields[0]] + fields[1..] == fields;
    }
  }

  // ---------------------------------------------------------------------
  // Decimal integers

  predicate IsDigit(ch: char) {
    '0' <= ch <= '9'
  }

  predicate AllDigits(s: string) {
    forall k | 0 <= k < |s| :: IsDigit(s[k])
  }

  function DigitValue(ch: char): nat
    requires IsDigit(ch)
  {
    (ch as int) - ('0' as int)
  }

  function DigitChar(d: nat): char
    requires d < 10
  {
    (('0' as int) + d) as char
  }

  /** The value of a non-empty string of digits, most significant first; None for anything else. */
  function Digits(s: string): Option<nat>
    decreases |s|
  {
    if s == [] || !IsDigit(s[|s| - 1]) then None
    else if |s| == 1 then Some(DigitValue(s[0]))
    else match Digits(s[..|s| - 1])
      case Some(v) => Some(v * 10 + DigitValue(s[|s| - 1]))
      case None => None
  }

  /** A string is read as a number exactly when it is non-empty and all digits. */
  lemma {:induction false} DigitsDefined(s: string)
    ensures Digits(s).Some? <==> |s| >= 1 && AllDigits(s)
    decreases |s|
  {
    if |s| > 1 {
      var init := s[..|s| - 1];
      DigitsDefined(init);
      assert AllDigits(s) <==> AllDigits(init) && IsDigit(s[|s| - 1]) by {
        assert forall k | 0 <= k < |init| :: init[k] == s[k];
      }
    }
  }

  /**
   * Integer.parseInt on one field: an optional '+' or '-' followed by at least
   * one digit.  Anything else is not a number.
   */
  function ParseInt(s: string): Option<int> {
    if |s| >= 2 && (s[0] == '-' || s[0] == '+') then
      match Digits(s[1..])
      case Some(magnitude) =>
        var m: int := magnitude;
        Some(if s[0] == '-' then -m else m)
      case None => None
    else
      match Digits(s)
      case Some(v) => Some(v)
      case None => None
  }

  /** The decimal digits of n, without leading zeros. */
  function NatToString(n: nat): string {
    if n < 10 then [DigitChar(n)] else NatToString(n / 10) + [DigitChar(n % 10)]
  }

  /** The decimal text of x, with a '-' when it is negative. */
  function IntToString(x: int): string {
    if x < 0 then "-" + NatToString(-x) else NatToString(x)
  }

  lemma {:induction false} NatToStringDigits(n: nat)
    ensures AllDigits(NatToString(n))
    ensures Digits(NatToString(n)) == Some(n)
  {
    var s := NatToString(n);
    if n >= 10 {
      NatToStringDigits(n / 10);
      assert s[..|s| - 1] == NatToString(n / 10);
    }
  }

  /** Printing then parsing any integer gives it back, and its text holds no space. */
  lemma ParseIntToString(x: int)
    ensures ParseInt(IntToString(x)) == Some(x)
    ensures ' ' !in IntToString(x)
  {
    var n := if x < 0 then -x else x;
    NatToStringDigits(n);
    var s := IntToString(x);
    if x < 0 {
      assert s[1..] == NatToString(n);
    }
    assert forall k | 0 <= k < |s| :: s[k] != ' ';
  }

  // ---------------------------------------------------------------------
  // Lines to moves

  /** readLine().split(" ") and Integer.parseInt on fields 0 and 1: the move, or None when the line is not one. */
  function ParseMove(line: string): Option<Move> {
    var fields := Split(line);
    if |fields| < 2 then None
    else match (ParseInt(fields[0]), ParseInt(fields[1]))
      case (Some(row), Some(col)) => Some(Move(row, col))
      case _ => None
  }

  /**
   * A line whose first two fields are `a` and `b` parses as (a, b) when both are
   * integers and is rejected otherwise; whatever follows is ignored.
   */
  lemma FieldsDecideMove(a: string, b: string, rest: string)
    requires ' ' !in a && ' ' !in b
    requires rest == [] || rest[0] == ' '
    ensures ParseMove(a + " " + b + rest) ==
      if ParseInt(a).Some? && ParseInt(b).Some? then Some(Move(ParseInt(a).value, ParseInt(b).value)) else None
  {
    var line := a + " " + b + rest;
    assert line == a + " " + (b + rest);
    SplitCons(a, b + rest);
    if rest == [] {
      assert b + rest == b;
      SplitWord(b);
    } else {
      assert b + rest == b + " " + rest[1..];
      SplitCons(b, rest[1..]);
    }
  }

  /** A line with no space in it has only one field and is rejected. */
  lemma OneFieldRejected(line: string)
    requires ' ' !in line
    ensures ParseMove(line) == None
  {
    SplitWord(line);
  }

  /** What a player types, "row col", possibly with more fields after it, parses as that move. */
  lemma ParseFormattedMove(row: int, col: int, rest: string)
    requires rest == [] || rest[0] == ' '
    ensures ParseMove(IntToString(row) + " " + IntToString(col) + rest) == Some(Move(row, col))
  {
    ParseIntToString(row);
    ParseIntToString(col);
    FieldsDecideMove(IntToString(row), IntToString(col), rest);
  }
}
