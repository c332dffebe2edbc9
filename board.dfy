/**
 * ChessBoard: the mutable 8x8 grid (flattened to 64 cells in row-major
 * order) and its move history.  Every method is proved against the pure
 * rules of BoardRules evaluated on the grid snapshot Grid().
 */
module Board {
  import opened Basics
  import opened Positions
  import opened Pieces
  import opened Moves
  import opened Grids
  import opened Squares
  import opened BoardRules
  import MoveGen

  class ChessBoard {
    var cells: array<Option<Piece>>
    var history: seq<Move>

    ghost predicate Valid()
      reads this
    {
      cells.Length == 64
    }

    /** The grid as a value. */
    function Grid(): Grids.Grid
      reads this, cells
      requires Valid()
    {
      cells[..]
    }

    /** An empty board with an empty history. */
    constructor ()
      ensures Valid() && fresh(cells)
      ensures Grid() == EmptyGrid && history == []
    {
      cells := new Option<Piece>[64](_ => None);
      history := [];
    }

    /** The copy constructor: the same grid in a fresh array, and an empty history. */
    constructor Copy(other: ChessBoard)
      requires other.Valid()
      ensures Valid() && fresh(cells)
      ensures Grid() == other.Grid() && history == []
    {
      var a := new Option<Piece>[64](_ => None);
      var i := 0;
      while i < 8
        invariant 0 <= i <= 8
        invariant forall k :: 0 <= k < 8 * i ==> a[k] == other.cells[k]
      {
        var j := 0;
        while j < 8
          invariant 0 <= j <= 8
          invariant forall k :: 0 <= k < 8 * i + j ==> a[k] == other.cells[k]
        {
          a[8 * i + j] := other.cells[8 * i + j];
          j := j + 1;
        }
        i := i + 1;
      }
      cells := a;
      history := [];
    }

    /** getPiece: the piece on a square, or None. */
    function GetPiece(p: Position): Option<Piece>
      reads this, cells
      requires Valid() && OnBoard(p)
    {
      cells[Index(p)]
    }

    /** addPiece: afterwards getPiece(p) is x and every other square is as before. */
    method AddPiece(p: Position, x: Option<Piece>)
      requires Valid() && OnBoard(p)
      modifies cells
      ensures Valid() && Grid() == Put(old(Grid()), p, x)
      ensures GetPiece(p) == x && forall q :: OnBoard(q) && q != p ==> GetPiece(q) == old(GetPiece(q))
    {
      cells[Index(p)] := x;
    }

    /** removePiece: empties one square and no other. */
    method RemovePiece(p: Position)
      requires Valid() && OnBoard(p)
      modifies cells
      ensures Valid() && Grid() == Put(old(Grid()), p, None)
    {
      cells[Index(p)] := None;
    }

    /**
     * resetBoard: a new array holding the starting layout; the history is
     * kept.
     */
    method ResetBoard()
      modifies this
      ensures Valid() && fresh(cells) && Grid() == StartGrid() && history == old(history)
    {
      var a := new Option<Piece>[64](_ => None);
      var i := 0;
      while i < 8
        invariant 0 <= i <= 8
        invariant forall k :: 8 <= k < 8 + i ==> a[k] == Some(Piece(White, Pawn))
        invariant forall k :: 48 <= k < 48 + i ==> a[k] == Some(Piece(Black, Pawn))
        invariant forall k :: 0 <= k < 64 && !(8 <= k < 8 + i) && !(48 <= k < 48 + i) ==> a[k] == None
        modifies a
      {
        a[48 + i] := Some(Piece(Black, Pawn));
        a[8 + i] := Some(Piece(White, Pawn));
        i := i + 1;
      }
      PlaceBackRanks(a);
      StartGridLayout(a[..]);
      cells := a;
    }

    /**
     * movePiece: the grid becomes ApplyMove's and its log is appended to
     * the history (for a castle, the rook's move first).
     */
    method MovePiece(m: Move)
      requires Valid() && CanApply(Grid(), m)
      modifies this, cells
      ensures Valid() && cells == old(cells)
      ensures Grid() == ApplyMove(old(Grid()), m).grid
      ensures history == old(history) + ApplyMove(old(Grid()), m).log
      decreases CastleDepth(m), 1
    {
      var piece := GetPiece(m.start).value;
      if m.promotion.Some? {
        piece := Piece(piece.color, m.promotion.value);
      } else if piece.kind == King && Abs(m.start.col - m.end.col) == 2 {
        CastleDepthDecreases(m);
        Castle(m);
      } else if piece.kind == Pawn && m.start.col != m.end.col && GetPiece(m.end).None? {
        EnPassant(m);
      }
      RemovePiece(m.start);
      AddPiece(m.end, Some(piece));
      history := history + [m];
    }

    /** enPassant: empties EnPassantSquare(m). */
    method EnPassant(m: Move)
      requires Valid() && OnBoard(m.start)
      modifies cells
      ensures Valid() && Grid() == Put(old(Grid()), EnPassantSquare(m), None)
    {
      RemovePiece(EnPassantSquare(m));
    }

    /** castle: makes the rook's move through movePiece. */
    method Castle(m: Move)
      requires Valid() && CanApply(Grid(), CastleRookMove(m))
      modifies this, cells
      ensures Valid() && cells == old(cells)
      ensures Grid() == ApplyMove(old(Grid()), CastleRookMove(m)).grid
      ensures history == old(history) + ApplyMove(old(Grid()), CastleRookMove(m)).log
      decreases CastleDepth(CastleRookMove(m)), 2
    {
      var row := m.end.row;
      var rookMove := Move(Position(row, 1), Position(row, 4), None);
      if m.end.col == 7 {
        rookMove := Move(Position(row, 8), Position(row, 6), None);
      }
      MovePiece(rookMove);
    }

    /** chessSquareCollection: the occupied squares, row by row, column by column. */
    method ChessSquareCollection() returns (squares: seq<Square>)
      requires Valid()
      ensures squares == Collection(Grid())
    {
      squares := [];
      var i := 0;
      while i < 8
        invariant 0 <= i <= 8
        invariant squares == SquaresUpTo(Grid(), 8 * i)
      {
        var j := 0;
        while j < 8
          invariant 0 <= j <= 8
          invariant squares == SquaresUpTo(Grid(), 8 * i + j)
        {
          RowColIndex(i, j);
          if cells[8 * i + j].Some? {
            squares := squares + [Square(cells[8 * i + j].value, Position(i + 1, j + 1))];
          }
          j := j + 1;
        }
        i := i + 1;
      }
    }

    /** getSquare: the first square of the collection holding a piece of this colour and type. */
    method GetSquare(c: TeamColor, t: PieceType) returns (sq: Option<Square>)
      requires Valid()
      ensures sq == FindSquare(Grid(), c, t)
    {
      var squares := ChessSquareCollection();
      var k := 0;
      while k < |squares|
        invariant 0 <= k <= |squares|
        invariant FirstSquare(squares, c, t) == FirstSquare(squares[k..], c, t)
      {
        if squares[k].piece.color == c && squares[k].piece.kind == t {
          return Some(squares[k]);
        }
        assert squares[k..][1..] == squares[k + 1..];
        k := k + 1;
      }
      return None;
    }

    /**
     * getAttackingPieces: for each square not of colour c, walk its moves
     * and record its position at the first one ending on pos.
     */
    method GetAttackingPieces(pos: Position, c: TeamColor) returns (attackers: seq<Position>)
      requires Valid()
      ensures attackers == Attackers(Grid(), pos, c)
    {
      var squares := ChessSquareCollection();
      CollectionOnBoard(Grid());
      attackers := [];
      var k := 0;
      while k < |squares|
        invariant 0 <= k <= |squares|
        invariant attackers == AttackersIn(Grid(), squares[..k], pos, c)
      {
        var sq := squares[k];
        assert squares[..k + 1][..k] == squares[..k];
        if sq.piece.color != c {
          var hit := MoveEndsAt(sq, pos);
          if hit {
            attackers := attackers + [sq.position];
          }
        }
        k := k + 1;
      }
      assert squares[..k] == squares;
    }

    /** The inner loop of getAttackingPieces: stop at the first move of sq ending on pos. */
    method MoveEndsAt(sq: Square, pos: Position) returns (hit: bool)
      requires Valid() && OnBoard(sq.position)
      ensures hit == EndsAt(SquareMoves(sq, Grid()), pos)
    {
      var moves := MoveGen.PieceMovesOf(Grid(), sq.piece, sq.position);
      hit := ScanEnds(moves, pos);
    }

    /** isAttacked: getAttackingPieces is non-empty. */
    method IsAttacked(pos: Position, c: TeamColor) returns (attacked: bool)
      requires Valid()
      ensures attacked == BoardRules.IsAttacked(Grid(), pos, c)
    {
      var attackers := GetAttackingPieces(pos, c);
      attacked := |attackers| > 0;
    }

    /** isValidCastling, with positionNotAttacked written inline. */
    method IsValidCastling(piece: Piece, m: Move) returns (valid: bool)
      requires Valid()
      ensures valid == ValidCastling(Grid(), piece, m)
    {
      if piece.kind != King {
        return false;
      }
      var c := piece.color;
      var teamRow := if c == Black then 8 else 1;
      var kingAttacked := IsAttacked(Position(teamRow, 5), c);
      if !kingAttacked {
        if m.end.col == 3 {
          var a3 := IsAttacked(Position(teamRow, 3), c);
          var a4 := IsAttacked(Position(teamRow, 4), c);
          return !a3 && !a4;
        } else {
          var a6 := IsAttacked(Position(teamRow, 6), c);
          var a7 := IsAttacked(Position(teamRow, 7), c);
          return !a6 && !a7;
        }
      }
      return false;
    }

    /**
     * isLegalMove: simulate the move on a fresh copy and test the mover's
     * first-found king there; this board is left untouched.
     */
    method IsLegalMove(m: Move) returns (legal: bool)
      requires Valid() && OnBoard(m.start) && (Simulates(Grid(), m) ==> CanApply(Grid(), m))
      ensures legal == IsLegal(Grid(), m)
    {
      var piece := GetPiece(m.start);
      if piece.None? {
        return false;
      }
      if IsCastling(piece.value, m) {
        var valid := IsValidCastling(piece.value, m);
        if !valid {
          return false;
        }
      }
      var newBoard := new ChessBoard.Copy(this);
      newBoard.MovePiece(m);
      var king := newBoard.GetSquare(piece.value.color, King);
      if king.None? {
        return true;
      }
      var attacked := newBoard.IsAttacked(king.value.position, king.value.piece.color);
      return !attacked;
    }

    /** isOriginalPosition: no move in the history starts at pos. */
    method IsOriginalPosition(pos: Position) returns (original: bool)
      ensures original <==> forall m :: m in history ==> m.start != pos
    {
      var k := 0;
      while k < |history|
        invariant 0 <= k <= |history|
        invariant forall j :: 0 <= j < k ==> history[j].start != pos
      {
        if history[k].start == pos {
          return false;
        }
        k := k + 1;
      }
      return true;
    }

    /** getLastMove: the most recent history entry (the source throws on an empty history). */
    method GetLastMove() returns (m: Move)
      requires |history| > 0
      ensures m == history[|history| - 1]
    {
      m := history[|history| - 1];
    }

    /** isSquareEmpty. */
    method IsSquareEmpty(row: int, col: int) returns (empty: bool)
      requires Valid() && OnBoard(Position(row, col))
      ensures empty <==> Free(Grid(), Position(row, col))
    {
      empty := GetPiece(Position(row, col)).None?;
    }

    /** equals: Arrays.deepEquals on the grids; the histories are ignored. */
    method Equals(other: ChessBoard) returns (same: bool)
      requires Valid() && other.Valid()
      ensures same <==> Grid() == other.Grid()
    {
      var k := 0;
      while k < 64
        invariant 0 <= k <= 64
        invariant cells[..k] == other.cells[..k]
      {
        if cells[k] != other.cells[k] {
          assert Grid()[k] != other.Grid()[k];
          return false;
        }
        assert cells[..k + 1] == cells[..k] + [cells[k]];
        assert other.cells[..k + 1] == other.cells[..k] + [other.cells[k]];
        k := k + 1;
      }
      assert cells[..] == cells[..64];
      assert other.cells[..] == other.cells[..64];
      return true;
    }
  }

  /** The sixteen back-rank writes of resetBoard, in the source's order. */
  method PlaceBackRanks(a: array<Option<Piece>>)
    requires a.Length == 64
    modifies a
    ensures forall k :: 8 <= k < 56 ==> a[k] == old(a[k])
    ensures a[0] == a[7] == Some(Piece(White, Rook)) && a[56] == a[63] == Some(Piece(Black, Rook))
    ensures a[1] == a[6] == Some(Piece(White, Knight)) && a[57] == a[62] == Some(Piece(Black, Knight))
    ensures a[2] == a[5] == Some(Piece(White, Bishop)) && a[58] == a[61] == Some(Piece(Black, Bishop))
    ensures a[3] == Some(Piece(White, Queen)) && a[59] == Some(Piece(Black, Queen))
    ensures a[4] == Some(Piece(White, King)) && a[60] == Some(Piece(Black, King))
  {
    a[0] := Some(Piece(White, Rook));
    a[7] := Some(Piece(White, Rook));
    a[56] := Some(Piece(Black, Rook));
    a[63] := Some(Piece(Black, Rook));
    a[1] := Some(Piece(White, Knight));
    a[6] := Some(Piece(White, Knight));
    a[57] := Some(Piece(Black, Knight));
    a[62] := Some(Piece(Black, Knight));
    a[2] := Some(Piece(White, Bishop));
    a[5] := Some(Piece(White, Bishop));
    a[58] := Some(Piece(Black, Bishop));
    a[61] := Some(Piece(Black, Bishop));
    a[3] := Some(Piece(White, Queen));
    a[59] := Some(Piece(Black, Queen));
    a[4] := Some(Piece(White, King));
    a[60] := Some(Piece(Black, King));
  }

  /** Walk the moves and stop at the first one ending on pos. */
  method ScanEnds(moves: seq<Move>, pos: Position) returns (hit: bool)
    ensures hit == EndsAt(moves, pos)
  {
    hit := false;
    var i := 0;
    while i < |moves|
      invariant 0 <= i <= |moves|
      invariant forall j :: 0 <= j < i ==> moves[j].end != pos
    {
      if moves[i].end == pos {
        hit := true;
        break;
      }
      i := i + 1;
    }
  }

  /** The 64 cells resetBoard writes form the starting grid. */
  lemma StartGridLayout(a: seq<Option<Piece>>)
    requires |a| == 64
    requires forall k :: 8 <= k < 16 ==> a[k] == Some(Piece(White, Pawn))
    requires forall k :: 16 <= k < 48 ==> a[k] == None
    requires forall k :: 48 <= k < 56 ==> a[k] == Some(Piece(Black, Pawn))
    requires a[0] == a[7] == Some(Piece(White, Rook)) && a[56] == a[63] == Some(Piece(Black, Rook))
    requires a[1] == a[6] == Some(Piece(White, Knight)) && a[57] == a[62] == Some(Piece(Black, Knight))
    requires a[2] == a[5] == Some(Piece(White, Bishop)) && a[58] == a[61] == Some(Piece(Black, Bishop))
    requires a[3] == Some(Piece(White, Queen)) && a[59] == Some(Piece(Black, Queen))
    requires a[4] == Some(Piece(White, King)) && a[60] == Some(Piece(Black, King))
    ensures a == StartGrid()
  {
    forall k | 0 <= k < 64 ensures a[k] == StartCell(k) {
      if k < 8 {
        assert k in {0, 1, 2, 3, 4, 5, 6, 7};
      } else if 56 <= k {
        assert k in {56, 57, 58, 59, 60, 61, 62, 63};
      }
    }
  }
}
