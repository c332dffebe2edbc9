/**
 * ChessGame's rules as functions of a game value (grid and side to move):
 * validMoves, makeMove, isInCheck, isInCheckmate and isInStalemate.  The
 * class Game.ChessGame runs them on its board and is proved against them.
 */
module GameRules {
  import opened Basics
  import opened Positions
  import opened Pieces
  import opened Moves
  import opened Grids
  import opened Squares
  import opened BoardRules
  import MoveGen

  /** The observable state of a ChessGame: its board's grid and whose turn it is. */
  datatype Game = Game(board: Grid, turn: TeamColor)

  /** The ChessGame constructor: White to move on the starting layout. */
  function NewGame(): (game: Game)
    ensures game.turn == White
    ensures forall p :: OnBoard(p) ==> At(game.board, p) == StartPiece(p)
  {
    Game(StartGrid(), White)
  }

  /** Moves whose start is on the board and which movePiece can apply. */
  predicate Applicable(g: Grid, moves: seq<Move>)
  {
    forall m :: m in moves ==> OnBoard(m.start) && CanApply(g, m)
  }

  lemma PseudoMovesApplicable(g: Grid, p: Position)
    requires OnBoard(p) && At(g, p).Some?
    ensures Applicable(g, MoveGen.PieceMoves(g, At(g, p).value, p))
  {
    forall m | m in MoveGen.PieceMoves(g, At(g, p).value, p) ensures OnBoard(m.start) && CanApply(g, m) {
      PseudoMoveIsSimple(g, p, m);
    }
  }

  /** The moves, in order, that isLegalMove accepts. */
  function LegalAmong(g: Grid, moves: seq<Move>): seq<Move>
    requires Applicable(g, moves)
  {
    if moves == [] then []
    else
      var rest := LegalAmong(g, moves[..|moves| - 1]);
      var m := moves[|moves| - 1];
      if IsLegal(g, m) then rest + [m] else rest
  }

  /** validMoves: no moves for an empty square, else the legal ones among the piece's pseudo-moves. */
  function ValidMoves(g: Grid, p: Position): seq<Move>
    requires OnBoard(p)
  {
    if At(g, p).None? then []
    else
      PseudoMovesApplicable(g, p);
      LegalAmong(g, MoveGen.PieceMoves(g, At(g, p).value, p))
  }

  lemma {:induction false} LegalAmongExact(g: Grid, moves: seq<Move>, m: Move)
    requires Applicable(g, moves)
    ensures m in LegalAmong(g, moves) <==> m in moves && IsLegal(g, m)
  {
    if moves != [] {
      var front := moves[..|moves| - 1];
      assert moves == front + [moves[|moves| - 1]];
      LegalAmongExact(g, front, m);
    }
  }

  /**
   * For a pseudo-move of the piece on its square, isLegalMove reduces to
   * the king test on the board after the plain move: such a move is never
   * a castle, so the castling check never rejects it.
   */
  lemma PseudoMoveLegality(g: Grid, p: Position, m: Move)
    requires OnBoard(p) && At(g, p).Some? && m in MoveGen.PieceMoves(g, At(g, p).value, p)
    ensures CanApply(g, m) && Simulates(g, m)
    ensures IsLegal(g, m) <==> KingSafe(ApplyMove(g, m).grid, At(g, p).value.color)
  {
    var x := At(g, p).value;
    PseudoMoveIsSimple(g, p, m);
    MoveGen.PieceMovesLand(g, x, p, m);
    if x.kind == King {
      MoveGen.KingNeverShiftsTwoColumns(g, p, x.color, m);
    }
  }

  /** After the pseudo-move m of the piece on p, that piece's side has a safe king. */
  predicate LeavesKingSafe(g: Grid, p: Position, m: Move)
    requires OnBoard(p) && At(g, p).Some? && m in MoveGen.PieceMoves(g, At(g, p).value, p)
  {
    PseudoMoveIsSimple(g, p, m);
    KingSafe(ApplyMove(g, m).grid, At(g, p).value.color)
  }

  /**
   * validMoves(p) is empty on an empty square; otherwise it holds exactly
   * the piece's pseudo-moves after which the mover's king is safe, so it is
   * a subset of pieceMoves.
   */
  lemma ValidMovesExact(g: Grid, p: Position, m: Move)
    requires OnBoard(p)
    ensures At(g, p).None? ==> ValidMoves(g, p) == []
    ensures m in ValidMoves(g, p) <==>
      At(g, p).Some? && m in MoveGen.PieceMoves(g, At(g, p).value, p) && LeavesKingSafe(g, p, m)
  {
    if At(g, p).Some? {
      var pm := MoveGen.PieceMoves(g, At(g, p).value, p);
      PseudoMovesApplicable(g, p);
      assert ValidMoves(g, p) == LegalAmong(g, pm);
      LegalAmongExact(g, pm, m);
      if m in pm {
        PseudoMoveLegality(g, p, m);
      }
    }
  }

  // ---------------------------------------------------------------------
  // makeMove

  /**
   * makeMove's four checks: a piece at the start, of the colour to move,
   * the move among its pseudo-moves, and isLegalMove, which for a
   * pseudo-move is the king test of LeavesKingSafe (CanMoveIsLegal).
   */
  predicate CanMove(game: Game, m: Move)
    requires OnBoard(m.start)
  {
    var g := game.board;
    At(g, m.start).Some? && At(g, m.start).value.color == game.turn &&
    m in MoveGen.PieceMoves(g, At(g, m.start).value, m.start) &&
    LeavesKingSafe(g, m.start, m)
  }

  /** The four checks of makeMove, with the fourth stated as isLegalMove itself. */
  lemma CanMoveIsLegal(game: Game, m: Move)
    requires OnBoard(m.start)
    ensures CanMove(game, m) <==>
      At(game.board, m.start).Some? && At(game.board, m.start).value.color == game.turn &&
      m in MoveGen.PieceMoves(game.board, At(game.board, m.start).value, m.start) &&
      CanApply(game.board, m) && IsLegal(game.board, m)
  {
    var g := game.board;
    if At(g, m.start).Some? && m in MoveGen.PieceMoves(g, At(g, m.start).value, m.start) {
      PseudoMoveLegality(g, m.start, m);
    }
  }

  /** A successful makeMove: movePiece on the board, then the other side's turn. */
  function AfterMove(game: Game, m: Move): (next: Game)
    requires OnBoard(m.start) && CanMove(game, m)
    ensures next.turn == Other(game.turn)
  {
    PseudoMoveIsSimple(game.board, m.start, m);
    Game(ApplyMove(game.board, m).grid, Other(game.turn))
  }

  /** makeMove succeeds exactly on the valid moves of a piece of the side to move. */
  lemma CanMoveIffValid(game: Game, m: Move)
    requires OnBoard(m.start)
    ensures CanMove(game, m) <==>
      At(game.board, m.start).Some? && At(game.board, m.start).value.color == game.turn &&
      m in ValidMoves(game.board, m.start)
  {
    ValidMovesExact(game.board, m.start, m);
    if At(game.board, m.start).Some? && m in MoveGen.PieceMoves(game.board, At(game.board, m.start).value, m.start) {
      PseudoMoveLegality(game.board, m.start, m);
    }
  }

  /**
   * A pseudo-move puts the piece (or its promotion) on the end square,
   * empties the start square and changes no other square.
   */
  lemma PseudoMoveBoard(g: Grid, p: Position, m: Move)
    requires OnBoard(p) && At(g, p).Some? && m in MoveGen.PieceMoves(g, At(g, p).value, p)
    ensures CanApply(g, m)
    ensures var x := At(g, p).value;
      var next := ApplyMove(g, m).grid;
      OnBoard(m.end) && At(next, m.end) == Some(if m.promotion.Some? then Piece(x.color, m.promotion.value) else x) &&
      At(next, p) == None &&
      forall q :: OnBoard(q) && q != p && q != m.end ==> At(next, q) == At(g, q)
  {
    var x := At(g, p).value;
    MoveGen.PieceMovesLand(g, x, p, m);
    assert m.end != p by {
      assert CanLand(g, m.end, x.color);
    }
    PseudoMoveIsSimple(g, p, m);
  }

  /** The same for a successful makeMove, whose board is the grid after movePiece. */
  lemma AfterMoveBoard(game: Game, m: Move)
    requires OnBoard(m.start) && CanMove(game, m)
    ensures var x := At(game.board, m.start).value;
      var next := AfterMove(game, m).board;
      OnBoard(m.end) && At(next, m.end) == Some(if m.promotion.Some? then Piece(x.color, m.promotion.value) else x) &&
      At(next, m.start) == None &&
      forall q :: OnBoard(q) && q != m.start && q != m.end ==> At(next, q) == At(game.board, q)
  {
    PseudoMoveBoard(game.board, m.start, m);
  }

  /** A successful move never leaves the mover's own king attacked. */
  lemma AfterMoveKingSafe(game: Game, m: Move)
    requires OnBoard(m.start) && CanMove(game, m)
    ensures KingSafe(AfterMove(game, m).board, game.turn)
  {
    PseudoMoveIsSimple(game.board, m.start, m);
  }

  /** Two successful moves in a row give the turn back to the side that moved first. */
  lemma TwoMovesRestoreTurn(game: Game, m1: Move, m2: Move)
    requires OnBoard(m1.start) && CanMove(game, m1)
    requires OnBoard(m2.start) && CanMove(AfterMove(game, m1), m2)
    ensures AfterMove(AfterMove(game, m1), m2).turn == game.turn
    ensures At(game.board, m1.start).value.color != At(AfterMove(game, m1).board, m2.start).value.color
  {
  }

  // ---------------------------------------------------------------------
  // isInCheck, isInCheckmate, isInStalemate

  /** isInCheck: the first-found king of colour c exists and is attacked. */
  predicate InCheck(g: Grid, c: TeamColor)
  {
    var king := FindSquare(g, c, King);
    king.Some? && SquareIsAttacked(king.value, g)
  }

  /** isInCheckmate's inner loop over a prefix of the moves: each one leaves c's king attacked. */
  predicate NoEscape(g: Grid, c: TeamColor, moves: seq<Move>)
    requires Applicable(g, moves)
  {
    if moves == [] then true
    else NoEscape(g, c, moves[..|moves| - 1]) && !KingSafe(ApplyMove(g, moves[|moves| - 1]).grid, c)
  }

  lemma {:induction false} NoEscapeExact(g: Grid, c: TeamColor, moves: seq<Move>)
    requires Applicable(g, moves)
    ensures NoEscape(g, c, moves) <==> forall m :: m in moves ==> !KingSafe(ApplyMove(g, m).grid, c)
  {
    if moves != [] {
      var front := moves[..|moves| - 1];
      var last := moves[|moves| - 1];
      assert moves == front + [last];
      NoEscapeExact(g, c, front);
      if NoEscape(g, c, moves) {
        forall m | m in moves ensures !KingSafe(ApplyMove(g, m).grid, c) {
          if m != last {
            assert m in front;
          }
        }
      } else if NoEscape(g, c, front) {
        assert KingSafe(ApplyMove(g, last).grid, c);
      } else {
        var m :| m in front && KingSafe(ApplyMove(g, m).grid, c);
        assert m in moves;
      }
    }
  }

  /** Every pseudo-move of the piece on the square leaves its own side's king attacked. */
  predicate Trapped(g: Grid, sq: Square)
    requires OnBoard(sq.position) && At(g, sq.position) == Some(sq.piece)
  {
    PseudoMovesApplicable(g, sq.position);
    NoEscape(g, sq.piece.color, SquareMoves(sq, g))
  }

  /** A square is trapped exactly when none of its piece's pseudo-moves leaves that side's king safe. */
  lemma TrappedExact(g: Grid, sq: Square)
    requires OnBoard(sq.position) && At(g, sq.position) == Some(sq.piece)
    ensures Trapped(g, sq) <==> forall m :: m in SquareMoves(sq, g) ==> !LeavesKingSafe(g, sq.position, m)
  {
    PseudoMovesApplicable(g, sq.position);
    NoEscapeExact(g, sq.piece.color, SquareMoves(sq, g));
    forall m | m in SquareMoves(sq, g) ensures LeavesKingSafe(g, sq.position, m) <==> KingSafe(ApplyMove(g, m).grid, sq.piece.color) {
      PseudoMoveIsSimple(g, sq.position, m);
    }
  }

  /** Every square of the list is on the board and holds its piece. */
  predicate Listed(g: Grid, squares: seq<Square>)
  {
    forall sq :: sq in squares ==> OnBoard(sq.position) && At(g, sq.position) == Some(sq.piece)
  }

  /** isInCheckmate's loop over a prefix of the square list: every c square so far is trapped. */
  predicate AllTrapped(g: Grid, c: TeamColor, squares: seq<Square>)
    requires Listed(g, squares)
  {
    if squares == [] then true
    else
      var last := squares[|squares| - 1];
      AllTrapped(g, c, squares[..|squares| - 1]) && (last.piece.color == c ==> Trapped(g, last))
  }

  /** isInStalemate's loop over a prefix of the square list: no c square so far has a valid move. */
  predicate AllStuck(g: Grid, c: TeamColor, squares: seq<Square>)
    requires Listed(g, squares)
  {
    if squares == [] then true
    else
      var last := squares[|squares| - 1];
      AllStuck(g, c, squares[..|squares| - 1]) && (last.piece.color == c ==> ValidMoves(g, last.position) == [])
  }

  /** isInCheckmate's loop, one square further: the next square of colour c must be trapped too. */
  lemma AllTrappedStep(g: Grid, c: TeamColor, squares: seq<Square>, i: nat)
    requires Listed(g, squares) && i < |squares|
    ensures Listed(g, squares[..i]) && Listed(g, squares[..i + 1])
    ensures AllTrapped(g, c, squares[..i + 1]) <==>
      AllTrapped(g, c, squares[..i]) && (squares[i].piece.color == c ==> Trapped(g, squares[i]))
  {
    assert squares[..i + 1][..i] == squares[..i];
  }

  /** One square of colour c that is not trapped makes the whole list fail. */
  lemma AllTrappedStops(g: Grid, c: TeamColor, squares: seq<Square>, i: nat)
    requires Listed(g, squares) && i < |squares| && squares[i].piece.color == c && !Trapped(g, squares[i])
    ensures !AllTrapped(g, c, squares)
  {
    AllTrappedExact(g, c, squares);
  }

  /** isInStalemate's loop, one square further: the next square of colour c must have no valid move. */
  lemma AllStuckStep(g: Grid, c: TeamColor, squares: seq<Square>, i: nat)
    requires Listed(g, squares) && i < |squares|
    ensures Listed(g, squares[..i]) && Listed(g, squares[..i + 1])
    ensures AllStuck(g, c, squares[..i + 1]) <==>
      AllStuck(g, c, squares[..i]) && (squares[i].piece.color == c ==> ValidMoves(g, squares[i].position) == [])
  {
    assert squares[..i + 1][..i] == squares[..i];
  }

  /** isInCheckmate: c is in check and no pseudo-move of any c piece gets its king out of attack. */
  predicate InCheckmate(g: Grid, c: TeamColor)
  {
    InCheck(g, c) && (CollectionHolds(g); AllTrapped(g, c, Collection(g)))
  }

  /** isInStalemate: c has a king, it is not attacked, and no c piece has a valid move. */
  predicate InStalemate(g: Grid, c: TeamColor)
  {
    var king := FindSquare(g, c, King);
    king.Some? && !SquareIsAttacked(king.value, g) && (CollectionHolds(g); AllStuck(g, c, Collection(g)))
  }

  lemma {:induction false} AllTrappedExact(g: Grid, c: TeamColor, squares: seq<Square>)
    requires Listed(g, squares)
    ensures AllTrapped(g, c, squares) <==> forall sq :: sq in squares && sq.piece.color == c ==> Trapped(g, sq)
  {
    if squares != [] {
      var front := squares[..|squares| - 1];
      assert squares == front + [squares[|squares| - 1]];
      AllTrappedExact(g, c, front);
    }
  }

  lemma {:induction false} AllStuckExact(g: Grid, c: TeamColor, squares: seq<Square>)
    requires Listed(g, squares)
    ensures AllStuck(g, c, squares) <==> forall sq :: sq in squares && sq.piece.color == c ==> ValidMoves(g, sq.position) == []
  {
    if squares != [] {
      var front := squares[..|squares| - 1];
      assert squares == front + [squares[|squares| - 1]];
      AllStuckExact(g, c, front);
    }
  }

  /** Every listed square is on the board and holds its piece. */
  lemma CollectionHolds(g: Grid)
    ensures Listed(g, Collection(g))
  {
    forall sq | sq in Collection(g) ensures OnBoard(sq.position) && At(g, sq.position) == Some(sq.piece) {
      CollectionExact(g, sq);
    }
  }

  /** isInCheck is false without a c king; otherwise it holds iff that king's square is attacked. */
  lemma InCheckExact(g: Grid, c: TeamColor)
    ensures InCheck(g, c) <==> exists p :: FirstKing(g, c, p) && IsAttacked(g, p, c)
  {
    FindSquareExact(g, c, King);
    var king := FindSquare(g, c, King);
    if InCheck(g, c) {
      assert FirstKing(g, c, king.value.position);
    }
    if exists p :: FirstKing(g, c, p) && IsAttacked(g, p, c) {
      var p :| FirstKing(g, c, p) && IsAttacked(g, p, c);
      assert king.Some?;
      FirstKingUnique(g, c, p, king.value.position);
    }
  }

  /** The side to move can never be both checkmated and stalemated. */
  lemma NotBothMateAndStalemate(g: Grid, c: TeamColor)
    ensures !(InCheckmate(g, c) && InStalemate(g, c))
  {
  }

  /**
   * Stalemate is: c has a king, is not in check, and validMoves is empty
   * for every piece of colour c.
   */
  lemma StalemateIffNoValidMoves(g: Grid, c: TeamColor)
    ensures InStalemate(g, c) <==>
      FindSquare(g, c, King).Some? && !InCheck(g, c) &&
      forall p :: OnBoard(p) && At(g, p).Some? && At(g, p).value.color == c ==> ValidMoves(g, p) == []
  {
    CollectionHolds(g);
    AllStuckExact(g, c, Collection(g));
    forall p | OnBoard(p) && At(g, p).Some? && At(g, p).value.color == c
      ensures Square(At(g, p).value, p) in Collection(g)
    {
      CollectionExact(g, Square(At(g, p).value, p));
    }
  }

  /**
   * A move of one of c's own pieces never removes c's king from the board:
   * it lands only on an empty or enemy square, and a moving king stays a king.
   */
  lemma KingSurvivesOwnMove(g: Grid, c: TeamColor, p: Position, m: Move)
    requires OnBoard(p) && At(g, p).Some? && At(g, p).value.color == c
    requires m in MoveGen.PieceMoves(g, At(g, p).value, p)
    requires FindSquare(g, c, King).Some?
    ensures CanApply(g, m) && FindSquare(ApplyMove(g, m).grid, c, King).Some?
  {
    var x := At(g, p).value;
    PseudoMoveIsSimple(g, p, m);
    MoveGen.PieceMovesLand(g, x, p, m);
    FindSquareExact(g, c, King);
    var k := FindSquare(g, c, King).value.position;
    var after := ApplyMove(g, m).grid;
    if k == m.start {
      if x.kind == King {
        MoveGen.KingMovesExact(g, p, c, m);
      }
      assert At(after, m.end) == Some(Piece(c, King));
    } else {
      assert At(after, k) == Some(Piece(c, King));
    }
    FindSquareExact(after, c, King);
  }

  /**
   * Checkmate is check with no valid move anywhere: for the side in check,
   * "every pseudo-move leaves the king attacked" is the same as "validMoves
   * is empty for every piece".
   */
  lemma CheckmateIffNoValidMoves(g: Grid, c: TeamColor)
    ensures InCheckmate(g, c) <==>
      InCheck(g, c) &&
      forall p :: OnBoard(p) && At(g, p).Some? && At(g, p).value.color == c ==> ValidMoves(g, p) == []
  {
    CollectionHolds(g);
    AllTrappedExact(g, c, Collection(g));
    if InCheck(g, c) {
      if InCheckmate(g, c) {
        forall p | OnBoard(p) && At(g, p).Some? && At(g, p).value.color == c
          ensures ValidMoves(g, p) == []
        {
          var sq := Square(At(g, p).value, p);
          CollectionExact(g, sq);
          TrappedExact(g, sq);
          if ValidMoves(g, p) != [] {
            var m := ValidMoves(g, p)[0];
            ValidMovesExact(g, p, m);
            assert false;
          }
        }
      }
      if forall p :: OnBoard(p) && At(g, p).Some? && At(g, p).value.color == c ==> ValidMoves(g, p) == [] {
        forall sq | sq in Collection(g) && sq.piece.color == c ensures Trapped(g, sq) {
          TrappedExact(g, sq);
          forall m | m in SquareMoves(sq, g) ensures !LeavesKingSafe(g, sq.position, m) {
            ValidMovesExact(g, sq.position, m);
          }
        }
      }
    }
  }
}
