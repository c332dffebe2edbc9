/**
 * A snapshot of ChessBoard's 8x8 grid as a value: 64 optional pieces in
 * row-major order.  The move generators and the rules are functions of it.
 */
module Grids {
  import opened Basics
  import opened Positions
  import opened Pieces

  type Grid = g: seq<Option<Piece>> | |g| == 64 witness seq(64, i => None)

  const EmptyGrid: Grid := seq(64, i => None)

  /** getPiece: the piece on an on-board square, or None. */
  function At(g: Grid, p: Position): Option<Piece>
    requires OnBoard(p)
  {
    g[Index(p)]
  }

  /** addPiece on a snapshot: writes one square and no other. */
  function Put(g: Grid, p: Position, x: Option<Piece>): (r: Grid)
    requires OnBoard(p)
    ensures At(r, p) == x
    ensures forall q :: OnBoard(q) && q != p ==> At(r, q) == At(g, q)
  {
    forall q | OnBoard(q) && q != p ensures Index(q) != Index(p) {
      IndexInjective(p, q);
    }
    g[Index(p) := x]
  }

  predicate Free(g: Grid, p: Position)
    requires OnBoard(p)
  {
    At(g, p).None?
  }

  /** The square holds a piece of the other colour than c. */
  predicate Enemy(g: Grid, p: Position, c: TeamColor)
    requires OnBoard(p)
  {
    At(g, p).Some? && At(g, p).value.color != c
  }

  /** A piece of colour c may end a move here: the square is empty or holds an enemy. */
  predicate CanLand(g: Grid, p: Position, c: TeamColor)
    requires OnBoard(p)
  {
    Free(g, p) || Enemy(g, p, c)
  }

  /** Some square holds exactly this piece. */
  ghost predicate Holds(g: Grid, x: Piece)
  {
    exists p :: OnBoard(p) && At(g, p) == Some(x)
  }

  /** Two snapshots that agree on every square are equal. */
  lemma Extensionality(g: Grid, h: Grid)
    requires forall p :: OnBoard(p) ==> At(g, p) == At(h, p)
    ensures g == h
  {
    forall k | 0 <= k < 64 ensures g[k] == h[k] {
      IndexPosOf(k);
      assert At(g, PosOf(k)) == At(h, PosOf(k));
    }
  }
}
