/**
 * ChessSquare: an occupied square, the pair of a piece and its position.
 * Its move query delegates to the piece's generator; its attack query is
 * BoardRules.SquareIsAttacked, since it delegates to the board.
 */
module Squares {
  import opened Positions
  import opened Pieces
  import opened Moves
  import opened Grids
  import MoveGen

  datatype Square = Square(piece: Piece, position: Position)

  /** ChessSquare.pieceMoves: the piece's pseudo-moves from this square. */
  function SquareMoves(sq: Square, g: Grid): seq<Move>
    requires OnBoard(sq.position)
  {
    MoveGen.PieceMoves(g, sq.piece, sq.position)
  }

  /** Every move of a square starts on it and lands on the board, never on its own side. */
  lemma SquareMovesLand(sq: Square, g: Grid, m: Move)
    requires OnBoard(sq.position) && m in SquareMoves(sq, g)
    ensures m.start == sq.position && OnBoard(m.end) && CanLand(g, m.end, sq.piece.color)
  {
    MoveGen.PieceMovesLand(g, sq.piece, sq.position, m);
  }
}
