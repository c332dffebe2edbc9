/**
 * ChessMove: (start, end, optional promotion), its 4-5 character decoder such
 * as "e2e4q", and its hash code.
 */
module Moves {
  import opened Basics
  import opened Positions
  import opened Pieces

  datatype Move = Move(start: Position, end: Position, promotion: Option<PieceType>)

  /** The promotion letter of a five-character notation. */
  function PromotionOf(c: char): Option<PieceType>
  {
    match c
    case 'q' => Some(Queen)
    case 'b' => Some(Bishop)
    case 'n' => Some(Knight)
    case 'r' => Some(Rook)
    case _ => None
  }

  /**
   * The notation constructor: lower-case the text, reject fewer than four
   * characters, decode start and end as ChessPosition does, and read a
   * promotion letter only when the text has exactly five characters.
   */
  function FromNotation(notation: string): (r: Result<Move>)
    ensures r.Err? <==> |notation| < 4
    ensures r.Err? ==> r.message == "Invalid notation"
    ensures r.Ok? ==> Positions.FromNotation(notation[0..2]) == Ok(r.value.start)
    ensures r.Ok? ==> Positions.FromNotation(notation[2..4]) == Ok(r.value.end)
    ensures r.Ok? && |notation| != 5 ==> r.value.promotion == None
    ensures r.Ok? && |notation| == 5 ==> r.value.promotion == PromotionOf(Lower(notation[4]))
  {
    var s := LowerString(notation);
    if |s| >= 4 then
      assert LowerString(notation[0..2]) == s[0..2];
      assert LowerString(notation[2..4]) == s[2..4];
      var start := Position(RankOf(s[1]), FileOf(s[0]));
      var end := Position(RankOf(s[3]), FileOf(s[2]));
      var promotion := if |s| == 5 then PromotionOf(s[4]) else None;
      Ok(Move(start, end, promotion))
    else
      Err("Invalid notation")
  }

  /** The letter that the decoder maps back to a promotion type. */
  function PromotionLetter(t: PieceType): char
    requires t in {Queen, Bishop, Knight, Rook}
  {
    match t
    case Queen => 'q'
    case Bishop => 'b'
    case Knight => 'n'
    case Rook => 'r'
  }

  /** A move whose promotion (if any) the notation can express. */
  predicate Encodable(m: Move)
  {
    OnBoard(m.start) && OnBoard(m.end) &&
    (m.promotion.Some? ==> m.promotion.value in {Queen, Bishop, Knight, Rook})
  }

  /** The long-algebraic text of an encodable move, e.g. "e7e8q". */
  function Notation(m: Move): (s: string)
    requires Encodable(m)
    ensures |s| == (if m.promotion.Some? then 5 else 4)
  {
    Positions.Notation(m.start) + Positions.Notation(m.end) +
    (if m.promotion.Some? then [PromotionLetter(m.promotion.value)] else [])
  }

  /** Decoding inverts encoding for every encodable move. */
  lemma NotationRoundTrip(m: Move)
    requires Encodable(m)
    ensures FromNotation(Notation(m)) == Ok(m)
  {
    var s := Notation(m);
    assert LowerString(s) == s;
    assert s[0..2] == Positions.Notation(m.start);
    assert s[2..4] == Positions.Notation(m.end);
    Positions.NotationRoundTrip(m.start);
    Positions.NotationRoundTrip(m.end);
  }

  /** "E2E4Q" and "e2e4q" decode to equal moves: the decoder sees only lower case. */
  lemma NotationCaseInsensitive(s: string)
    ensures FromNotation(s) == FromNotation(LowerString(s))
  {
    assert LowerString(LowerString(s)) == LowerString(s);
  }

  /** A fifth character other than q, b, n or r means no promotion. */
  lemma UnknownPromotionLetter(s: string)
    requires |s| == 5 && Lower(s[4]) !in {'q', 'b', 'n', 'r'}
    ensures FromNotation(s).Ok? && FromNotation(s).value.promotion == None
  {
  }

  /** 1000 * start.hash + end.hash + (promotion ordinal, or 9 if none); no wrap-around. */
  function Hash(m: Move): int
  {
    var code := if m.promotion.Some? then Ordinal(m.promotion.value) else 9;
    1000 * Positions.Hash(m.start) + Positions.Hash(m.end) + code
  }

  /** For on-board moves the hash code determines the start square. */
  lemma HashSeparatesStarts(m: Move, n: Move)
    requires OnBoard(m.start) && OnBoard(m.end) && OnBoard(n.start) && OnBoard(n.end)
    requires m.start != n.start
    ensures Hash(m) != Hash(n)
  {
    Positions.HashOnBoard(m.start, n.start);
    Positions.HashOnBoard(m.end, n.end);
  }
}
