/**
 * ChessGame: the side to move and a ChessBoard it owns.  Each method runs
 * the board's own methods and is proved against the rules of GameRules on
 * the game's snapshot.  makeMove's InvalidMoveException is the result
 * `false` with the game left as it was.
 */
module Game {
  import opened Basics
  import opened Positions
  import opened Pieces
  import opened Moves
  import opened Grids
  import opened Squares
  import opened BoardRules
  import opened GameRules
  import opened Board
  import MoveGen

  class ChessGame {
    var teamTurn: TeamColor
    var board: ChessBoard

    ghost predicate Valid()
      reads this, board
    {
      board.Valid()
    }

    /** The game as a value: the board's grid and the side to move. */
    function Snapshot(): GameRules.Game
      reads this, board, board.cells
      requires Valid()
    {
      GameRules.Game(board.Grid(), teamTurn)
    }

    /** A new game: White to move on a reset board. */
    constructor ()
      ensures Valid() && fresh(board) && fresh(board.cells)
      ensures Snapshot() == NewGame() && board.history == []
    {
      teamTurn := White;
      board := new ChessBoard();
      new;
      board.ResetBoard();
    }

    /** getTeamTurn. */
    method GetTeamTurn() returns (team: TeamColor)
      ensures team == teamTurn
    {
      team := teamTurn;
    }

    /** setTeamTurn: only the side to move changes. */
    method SetTeamTurn(team: TeamColor)
      modifies this
      ensures teamTurn == team && board == old(board)
    {
      teamTurn := team;
    }

    /** getBoard hands out the game's own board, not a copy. */
    method GetBoard() returns (b: ChessBoard)
      ensures b == board
    {
      b := board;
    }

    /** setBoard installs a copy of the given board: later changes to either do not reach the other. */
    method SetBoard(b: ChessBoard)
      requires b.Valid()
      modifies this
      ensures Valid() && fresh(board) && fresh(board.cells)
      ensures Snapshot() == GameRules.Game(b.Grid(), old(teamTurn)) && board.history == []
    {
      board := new ChessBoard.Copy(b);
    }

    /** validMoves: the piece's pseudo-moves that isLegalMove accepts, in generation order. */
    method ValidMoves(p: Position) returns (moves: seq<Move>)
      requires Valid() && OnBoard(p)
      ensures moves == GameRules.ValidMoves(board.Grid(), p)
    {
      moves := [];
      var piece := board.GetPiece(p);
      if piece.Some? {
        ghost var g := board.Grid();
        var possible := MoveGen.PieceMovesOf(board.Grid(), piece.value, p);
        PseudoMovesApplicable(g, p);
        var i := 0;
        while i < |possible|
          invariant 0 <= i <= |possible|
          invariant moves == LegalAmong(g, possible[..i])
        {
          var m := possible[i];
          PseudoMoveLegality(g, p, m);
          var legal := board.IsLegalMove(m);
          assert possible[..i + 1][..i] == possible[..i];
          if legal {
            moves := moves + [m];
          }
          i := i + 1;
        }
        assert possible[..i] == possible;
      }
    }

    /**
     * makeMove: succeeds exactly when the four checks of CanMove hold; then
     * the board is the grid after movePiece and the turn passes to the
     * other side, and the move is the history's new last entry.  A refused
     * move (the exception) changes nothing.
     */
    method MakeMove(m: Move) returns (ok: bool)
      requires Valid() && OnBoard(m.start)
      modifies this, board, board.cells
      ensures Valid() && board == old(board) && board.cells == old(board.cells)
      ensures ok == CanMove(old(Snapshot()), m)
      ensures ok ==> Snapshot() == AfterMove(old(Snapshot()), m) && board.history == old(board.history) + [m]
      ensures !ok ==> Snapshot() == old(Snapshot()) && board.history == old(board.history)
    {
      ghost var game := Snapshot();
      ghost var g := game.board;
      CanMoveIsLegal(game, m);
      var piece := board.GetPiece(m.start);
      if piece.Some? && piece.value.color == teamTurn {
        var possible := MoveGen.PieceMovesOf(board.Grid(), piece.value, m.start);
        if m in possible {
          PseudoMoveLegality(g, m.start, m);
          var legal := board.IsLegalMove(m);
          if legal {
            board.MovePiece(m);
            teamTurn := Other(teamTurn);
            PseudoMoveIsSimple(g, m.start, m);
            return true;
          }
        }
      }
      return false;
    }

    /** isInCheck: the first-found king of colour c exists and is attacked. */
    method IsInCheck(c: TeamColor) returns (check: bool)
      requires Valid()
      ensures check == InCheck(board.Grid(), c)
    {
      var king := board.GetSquare(c, King);
      if king.None? {
        return false;
      }
      check := board.IsAttacked(king.value.position, king.value.piece.color);
    }

    /**
     * isInCheckmate: in check, and every pseudo-move of every piece of
     * colour c, simulated on a fresh copy of the board, leaves c's king
     * attacked.
     */
    method IsInCheckmate(c: TeamColor) returns (mate: bool)
      requires Valid()
      ensures mate == InCheckmate(board.Grid(), c)
    {
      var king := board.GetSquare(c, King);
      if king.None? {
        return false;
      }
      var attacked := board.IsAttacked(king.value.position, king.value.piece.color);
      if !attacked {
        return false;
      }
      mate := EverySquareTrapped(c);
    }

    /** The outer loop of isInCheckmate, over chessSquareCollection. */
    method EverySquareTrapped(c: TeamColor) returns (all: bool)
      requires Valid() && FindSquare(board.Grid(), c, King).Some?
      ensures Listed(board.Grid(), Collection(board.Grid())) && all == AllTrapped(board.Grid(), c, Collection(board.Grid()))
    {
      ghost var g := board.Grid();
      var squares := board.ChessSquareCollection();
      CollectionHolds(g);
      var i := 0;
      while i < |squares|
        invariant 0 <= i <= |squares|
        invariant Listed(g, squares[..i]) && AllTrapped(g, c, squares[..i])
      {
        var ok := NextTrapped(c, squares, i);
        if !ok {
          return false;
        }
        i := i + 1;
      }
      assert squares[..i] == squares;
      return true;
    }

    /**
     * One pass of that outer loop: the i-th listed square, when it holds a
     * piece of colour c, goes through the inner loop.
     */
    method NextTrapped(c: TeamColor, squares: seq<Square>, i: nat) returns (ok: bool)
      requires Valid() && FindSquare(board.Grid(), c, King).Some?
      requires Listed(board.Grid(), squares) && i < |squares|
      ensures Listed(board.Grid(), squares[..i]) && Listed(board.Grid(), squares[..i + 1])
      ensures AllTrapped(board.Grid(), c, squares[..i]) ==> (ok <==> AllTrapped(board.Grid(), c, squares[..i + 1]))
      ensures !ok ==> !AllTrapped(board.Grid(), c, squares)
    {
      var sq := squares[i];
      AllTrappedStep(board.Grid(), c, squares, i);
      ok := true;
      if sq.piece.color == c {
        ok := SquareTrapped(sq, c);
        if !ok {
          AllTrappedStops(board.Grid(), c, squares, i);
        }
      }
    }

    /** The inner loop of isInCheckmate, for one square of colour c. */
    method SquareTrapped(sq: Square, c: TeamColor) returns (trapped: bool)
      requires Valid() && OnBoard(sq.position) && At(board.Grid(), sq.position) == Some(sq.piece)
      requires sq.piece.color == c && FindSquare(board.Grid(), c, King).Some?
      ensures trapped == Trapped(board.Grid(), sq)
    {
      ghost var g := board.Grid();
      var moves := MoveGen.PieceMovesOf(board.Grid(), sq.piece, sq.position);
      PseudoMovesApplicable(g, sq.position);
      var j := 0;
      while j < |moves|
        invariant 0 <= j <= |moves|
        invariant NoEscape(g, c, moves[..j])
      {
        var stillAttacked := KingAttackedAfter(sq.position, moves[j]);
        if !stillAttacked {
          NoEscapeExact(g, c, moves);
          return false;
        }
        assert moves[..j + 1][..j] == moves[..j];
        j := j + 1;
      }
      assert moves[..j] == moves;
      return true;
    }

    /**
     * One step of isInCheckmate: move m on a fresh copy of the board and
     * test the mover's king there.  The king is still on the copy
     * (KingSurvivesOwnMove), so the Java code never dereferences null here.
     */
    method KingAttackedAfter(p: Position, m: Move) returns (attacked: bool)
      requires Valid() && OnBoard(p) && At(board.Grid(), p).Some?
      requires m in MoveGen.PieceMoves(board.Grid(), At(board.Grid(), p).value, p)
      requires FindSquare(board.Grid(), At(board.Grid(), p).value.color, King).Some?
      ensures CanApply(board.Grid(), m)
      ensures attacked == !KingSafe(ApplyMove(board.Grid(), m).grid, At(board.Grid(), p).value.color)
    {
      ghost var g := board.Grid();
      var c := board.GetPiece(p).value.color;
      KingSurvivesOwnMove(g, c, p, m);
      var newBoard := new ChessBoard.Copy(board);
      newBoard.MovePiece(m);
      var newKing := newBoard.GetSquare(c, King);
      attacked := newBoard.IsAttacked(newKing.value.position, newKing.value.piece.color);
    }

    /**
     * isInStalemate: c has a king, it is not attacked, and validMoves is
     * empty for every piece of colour c.
     */
    method IsInStalemate(c: TeamColor) returns (stale: bool)
      requires Valid()
      ensures stale == InStalemate(board.Grid(), c)
    {
      var king := board.GetSquare(c, King);
      if king.None? {
        return false;
      }
      var attacked := board.IsAttacked(king.value.position, king.value.piece.color);
      if attacked {
        return false;
      }
      stale := EverySquareStuck(c);
    }

    /** The loop of isInStalemate, over chessSquareCollection. */
    method EverySquareStuck(c: TeamColor) returns (all: bool)
      requires Valid()
      ensures Listed(board.Grid(), Collection(board.Grid())) && all == AllStuck(board.Grid(), c, Collection(board.Grid()))
    {
      ghost var g := board.Grid();
      var squares := board.ChessSquareCollection();
      CollectionHolds(g);
      var i := 0;
      while i < |squares|
        invariant 0 <= i <= |squares|
        invariant Listed(g, squares[..i]) && AllStuck(g, c, squares[..i])
      {
        var sq := squares[i];
        AllStuckStep(g, c, squares, i);
        if sq.piece.color == c {
          var valid := ValidMoves(sq.position);
          if valid != [] {
            AllStuckExact(g, c, squares);
            return false;
          }
        }
        i := i + 1;
      }
      assert squares[..i] == squares;
      return true;
    }

    /** equals: the same grid and the same side to move (the boards' histories are not compared). */
    method Equals(other: ChessGame) returns (same: bool)
      requires Valid() && other.Valid()
      ensures same <==> Snapshot() == other.Snapshot()
    {
      if this == other {
        return true;
      }
      same := board.Equals(other.board);
      same := same && teamTurn == other.teamTurn;
    }
  }
}
