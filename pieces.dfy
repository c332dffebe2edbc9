/**
 * ChessPiece's value part and ChessGame.TeamColor: a piece is a (colour, type)
 * pair compared by value, so two pieces of the same colour and type are
 * interchangeable.
 */
module Pieces {

  datatype TeamColor = White | Black

  /** The declaration order matters: it fixes the ordinals used by ChessMove's hash code. */
  datatype PieceType = King | Queen | Bishop | Knight | Rook | Pawn

  datatype Piece = Piece(color: TeamColor, kind: PieceType)

  function Other(c: TeamColor): (o: TeamColor)
    ensures o != c
  {
    if c == White then Black else White
  }

  /** Enum ordinal of a piece type. */
  function Ordinal(t: PieceType): (n: nat)
    ensures n < 6
  {
    match t
    case King => 0
    case Queen => 1
    case Bishop => 2
    case Knight => 3
    case Rook => 4
    case Pawn => 5
  }

  lemma OrdinalInjective(s: PieceType, t: PieceType)
    ensures Ordinal(s) == Ordinal(t) <==> s == t
  {
  }
}
