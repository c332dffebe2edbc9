/**
 * ChessPosition: a 1-indexed (row, column) pair, its algebraic decoder ("e2")
 * and its hash code.  Row 1 is white's home rank, column 1 is file 'a'.
 */
module Positions {
  import opened Basics

  datatype Position = Position(row: int, col: int)

  /** Both coordinates lie in [1, 8]. */
  predicate OnBoard(p: Position)
  {
    1 <= p.row <= 8 && 1 <= p.col <= 8
  }

  /** Row-major index of an on-board square in the 64-cell grid. */
  function Index(p: Position): (k: nat)
    requires OnBoard(p)
    ensures k < 64
  {
    (p.row - 1) * 8 + (p.col - 1)
  }

  /** The square stored at grid index k. */
  function PosOf(k: nat): (p: Position)
    requires k < 64
    ensures OnBoard(p)
  {
    Position(k / 8 + 1, k % 8 + 1)
  }

  lemma IndexPosOf(k: nat)
    requires k < 64
    ensures Index(PosOf(k)) == k
  {
  }

  lemma PosOfIndex(p: Position)
    requires OnBoard(p)
    ensures PosOf(Index(p)) == p
  {
  }

  /** Index is injective on the board, so distinct squares occupy distinct cells. */
  lemma IndexInjective(p: Position, q: Position)
    requires OnBoard(p) && OnBoard(q)
    ensures Index(p) == Index(q) <==> p == q
  {
    PosOfIndex(p);
    PosOfIndex(q);
  }

  /** The cell of row i + 1, column j + 1, as the nested loops over board[i][j] visit it. */
  lemma RowColIndex(i: nat, j: nat)
    requires i < 8 && j < 8
    ensures i * 8 + j < 64 && PosOf(i * 8 + j) == Position(i + 1, j + 1)
  {
  }

  /** Lower-casing of a character as toLowerCase(Locale.ROOT) does for ASCII letters. */
  function Lower(c: char): char
  {
    if 'A' <= c <= 'Z' then (c as int + 32) as char else c
  }

  function LowerString(s: string): (r: string)
    ensures |r| == |s| && forall i :: 0 <= i < |s| ==> r[i] == Lower(s[i])
  {
    seq(|s|, i requires 0 <= i < |s| => Lower(s[i]))
  }

  /** Column from a file letter: c - 'a' + 1, with no range check. */
  function FileOf(c: char): int
  {
    c as int - 'a' as int + 1
  }

  /** Row from a rank digit: c - '1' + 1, with no range check. */
  function RankOf(c: char): int
  {
    c as int - '1' as int + 1
  }

  /**
   * The notation constructor: lower-case the text, then demand exactly two
   * characters, file first and rank second.
   */
  function FromNotation(notation: string): (r: Result<Position>)
    ensures r.Err? <==> |notation| != 2
    ensures r.Err? ==> r.message == "Invalid notation"
  {
    var s := LowerString(notation);
    if |s| == 2 then Ok(Position(RankOf(s[1]), FileOf(s[0])))
    else Err("Invalid notation")
  }

  /** The algebraic name of an on-board square, "a1" .. "h8". */
  function Notation(p: Position): (s: string)
    requires OnBoard(p)
    ensures |s| == 2 && 'a' <= s[0] <= 'h' && '1' <= s[1] <= '8'
  {
    [('a' as int + p.col - 1) as char, ('1' as int + p.row - 1) as char]
  }

  /** Decoding inverts the naming of every on-board square. */
  lemma NotationRoundTrip(p: Position)
    requires OnBoard(p)
    ensures FromNotation(Notation(p)) == Ok(p)
  {
    var s := Notation(p);
    assert LowerString(s) == s;
  }

  /** a1..h8 decode injectively onto [1,8] x [1,8]. */
  lemma NotationSquares(s: string)
    requires |s| == 2 && 'a' <= s[0] <= 'h' && '1' <= s[1] <= '8'
    ensures FromNotation(s).Ok? && OnBoard(FromNotation(s).value)
    ensures Notation(FromNotation(s).value) == s
  {
    assert LowerString(s) == s;
    assert Notation(FromNotation(s).value) == [s[0], s[1]];
  }

  /** Upper- and lower-case spellings decode alike. */
  lemma NotationCaseInsensitive(s: string)
    ensures FromNotation(s) == FromNotation(LowerString(s))
  {
    assert LowerString(LowerString(s)) == LowerString(s);
  }

  /** Objects.hash(row, col) = 31 * (31 * 1 + row) + col (no 32-bit wrap-around). */
  function Hash(p: Position): int
  {
    31 * (31 + p.row) + p.col
  }

  /** On the board the hash code separates squares and lies in [993, 1217]. */
  lemma HashOnBoard(p: Position, q: Position)
    requires OnBoard(p) && OnBoard(q)
    ensures 993 <= Hash(p) <= 1217
    ensures Hash(p) == Hash(q) <==> p == q
  {
  }
}
