/**
 * ChessBoard's rules as functions of a grid snapshot: applying a move (with
 * the promotion, castling and en-passant side effects the source infers from
 * geometry), the square collection, attack queries and move legality.  The
 * class Board.ChessBoard runs these on its array and is proved against them.
 */
module BoardRules {
  import opened Basics
  import opened Positions
  import opened Pieces
  import opened Moves
  import opened Grids
  import opened Squares
  import MoveGen

  function Abs(x: int): nat
  {
    if x < 0 then -x else x
  }

  // ---------------------------------------------------------------------
  // The starting layout

  /** The back rank, column by column: R N B Q K B N R. */
  function BackRank(col: int): PieceType
    requires 1 <= col <= 8
  {
    if col == 1 || col == 8 then Rook
    else if col == 2 || col == 7 then Knight
    else if col == 3 || col == 6 then Bishop
    else if col == 4 then Queen
    else King
  }

  /** What resetBoard puts on a square. */
  function StartPiece(p: Position): Option<Piece>
    requires OnBoard(p)
  {
    if p.row == 1 then Some(Piece(White, BackRank(p.col)))
    else if p.row == 2 then Some(Piece(White, Pawn))
    else if p.row == 7 then Some(Piece(Black, Pawn))
    else if p.row == 8 then Some(Piece(Black, BackRank(p.col)))
    else None
  }

  /** Cell k of the starting grid, in row-major order. */
  function StartCell(k: int): Option<Piece>
    requires 0 <= k < 64
  {
    if k < 8 then Some(Piece(White, BackRank(k + 1)))
    else if k < 16 then Some(Piece(White, Pawn))
    else if k < 48 then None
    else if k < 56 then Some(Piece(Black, Pawn))
    else Some(Piece(Black, BackRank(k - 55)))
  }

  /** The layout resetBoard builds: back ranks on rows 1 and 8, pawns on rows 2 and 7, rows 3-6 empty. */
  function StartGrid(): (g: Grid)
    ensures forall p :: OnBoard(p) ==> At(g, p) == StartPiece(p)
  {
    seq(64, k requires 0 <= k < 64 => StartCell(k))
  }

  // ---------------------------------------------------------------------
  // movePiece, castle and enPassant

  /** The rook move castle() makes for a two-column king move. */
  function CastleRookMove(m: Move): Move
  {
    var row := m.end.row;
    if m.end.col == 7 then Move(Position(row, 8), Position(row, 6), None)
    else Move(Position(row, 1), Position(row, 4), None)
  }

  /** The square enPassant() clears: row 5 if the pawn starts on row 6, else row 4; the start column. */
  function EnPassantSquare(m: Move): Position
  {
    Position(if m.start.row == 6 then 5 else 4, m.start.col)
  }

  /** How deep movePiece can recurse through castle() for this move. */
  function CastleDepth(m: Move): nat
  {
    if m.promotion.None? && Abs(m.start.col - m.end.col) == 2 then
      (if m.end.col == 7 then 2 else 1)
    else 0
  }

  lemma CastleDepthDecreases(m: Move)
    requires CastleDepth(m) > 0
    ensures CastleDepth(CastleRookMove(m)) < CastleDepth(m)
  {
  }

  /** movePiece takes its castle branch: no promotion, a king, two columns. */
  predicate CastleBranch(g: Grid, m: Move)
    requires OnBoard(m.start) && At(g, m.start).Some?
  {
    m.promotion.None? && At(g, m.start).value.kind == King && Abs(m.start.col - m.end.col) == 2
  }

  /** movePiece takes its en-passant branch: no promotion, a pawn, a column change onto an empty square. */
  predicate EnPassantBranch(g: Grid, m: Move)
    requires OnBoard(m.start) && OnBoard(m.end) && At(g, m.start).Some?
  {
    m.promotion.None? && At(g, m.start).value.kind == Pawn &&
    m.start.col != m.end.col && At(g, m.end).None?
  }

  /**
   * movePiece runs without an exception: both squares are on the board,
   * the start holds a piece, and a castle's rook move can run as well.
   */
  predicate CanApply(g: Grid, m: Move)
    decreases CastleDepth(m)
  {
    OnBoard(m.start) && OnBoard(m.end) && At(g, m.start).Some? &&
    (CastleBranch(g, m) ==> CanApply(g, CastleRookMove(m)))
  }

  /** The grid after a move and the moves appended to history, in order. */
  datatype Applied = Applied(grid: Grid, log: seq<Move>)

  /** Clear the start square, then put x on the end square. */
  function Relocate(g: Grid, m: Move, x: Piece): Grid
    requires OnBoard(m.start) && OnBoard(m.end)
  {
    Put(Put(g, m.start, None), m.end, Some(x))
  }

  /**
   * movePiece: a promotion replaces the piece by one of the promotion type;
   * a castle first moves the rook (recursively, through movePiece); an en
   * passant first clears EnPassantSquare.  Then the start square is cleared,
   * the piece placed on the end square and the move logged.
   */
  function ApplyMove(g: Grid, m: Move): (r: Applied)
    requires CanApply(g, m)
    decreases CastleDepth(m)
  {
    var piece := At(g, m.start).value;
    if m.promotion.Some? then
      Applied(Relocate(g, m, Piece(piece.color, m.promotion.value)), [m])
    else if CastleBranch(g, m) then
      var rook := ApplyMove(g, CastleRookMove(m));
      Applied(Relocate(rook.grid, m, piece), rook.log + [m])
    else if EnPassantBranch(g, m) then
      Applied(Relocate(Put(g, EnPassantSquare(m), None), m, piece), [m])
    else
      Applied(Relocate(g, m, piece), [m])
  }

  /** Every move clears its start square, fills its end square and is logged last. */
  lemma {:induction false} ApplyMoveEffect(g: Grid, m: Move)
    requires CanApply(g, m)
    ensures var r := ApplyMove(g, m);
      var piece := At(g, m.start).value;
      At(r.grid, m.end) ==
        Some(if m.promotion.Some? then Piece(piece.color, m.promotion.value) else piece) &&
      (m.start != m.end ==> At(r.grid, m.start) == None) &&
      |r.log| >= 1 && r.log[|r.log| - 1] == m
  {
  }

  /** A move with none of the three side effects touches only its two squares. */
  lemma SimpleMoveFrame(g: Grid, m: Move)
    requires CanApply(g, m) && !CastleBranch(g, m) && !EnPassantBranch(g, m)
    ensures var r := ApplyMove(g, m);
      r.log == [m] &&
      forall q :: OnBoard(q) && q != m.start && q != m.end ==> At(r.grid, q) == At(g, q)
  {
  }

  /**
   * A two-column king move also moves the corner piece: (row,8) to (row,6)
   * when the end column is 7, else (row,1) to (row,4); that move is logged
   * before the king's.  castle() does not look at the corner piece's type
   * or colour; any piece that is neither a king nor a pawn (which would take
   * movePiece's castle or en-passant branch again) is simply relocated.
   */
  lemma CastleMovesRook(g: Grid, m: Move)
    requires CanApply(g, m) && CastleBranch(g, m)
    requires m.end.col == 7 || m.end.col == 3
    requires m.start.row == m.end.row && m.start.col == 5
    requires At(g, CastleRookMove(m).start).Some?
    requires At(g, CastleRookMove(m).start).value.kind != King && At(g, CastleRookMove(m).start).value.kind != Pawn
    ensures var r := ApplyMove(g, m);
      var row := m.end.row;
      var rookFrom := Position(row, if m.end.col == 7 then 8 else 1);
      var rookTo := Position(row, if m.end.col == 7 then 6 else 4);
      r.log == [Move(rookFrom, rookTo, None), m] &&
      At(r.grid, rookTo) == At(g, rookFrom) && At(r.grid, rookFrom) == None &&
      At(r.grid, m.end) == At(g, m.start) && At(r.grid, m.start) == None
  {
    var rm := CastleRookMove(m);
    assert !CastleBranch(g, rm);
  }

  /** A pawn's diagonal step onto an empty square also clears EnPassantSquare (the start column). */
  lemma EnPassantClears(g: Grid, m: Move)
    requires CanApply(g, m) && EnPassantBranch(g, m)
    ensures var r := ApplyMove(g, m);
      var q := EnPassantSquare(m);
      r.log == [m] && At(r.grid, m.end) == At(g, m.start) &&
      (q != m.end ==> At(r.grid, q) == None)
  {
  }

  // ---------------------------------------------------------------------
  // chessSquareCollection and getSquare

  /** The occupied squares among the first k cells, in row-major order. */
  function SquaresUpTo(g: Grid, k: int): seq<Square>
    requires 0 <= k <= 64
  {
    if k == 0 then []
    else
      var rest := SquaresUpTo(g, k - 1);
      if g[k - 1].Some? then rest + [Square(g[k - 1].value, PosOf(k - 1))] else rest
  }

  /** chessSquareCollection: every occupied square, in row-major order. */
  function Collection(g: Grid): seq<Square>
  {
    SquaresUpTo(g, 64)
  }

  /** The squares' row-major indices strictly increase along the list. */
  ghost predicate Ascending(sqs: seq<Square>)
  {
    forall i, j :: 0 <= i < j < |sqs| ==>
      OnBoard(sqs[i].position) && OnBoard(sqs[j].position) &&
      Index(sqs[i].position) < Index(sqs[j].position)
  }

  /** The first k cells' squares are exactly the occupied cells of index below k. */
  lemma {:induction false} SquaresUpToMembers(g: Grid, k: int)
    requires 0 <= k <= 64
    ensures forall s :: s in SquaresUpTo(g, k) <==>
      OnBoard(s.position) && Index(s.position) < k && At(g, s.position) == Some(s.piece)
  {
    if k > 0 {
      SquaresUpToMembers(g, k - 1);
      IndexPosOf(k - 1);
      forall s: Square | OnBoard(s.position) && Index(s.position) == k - 1
        ensures s.position == PosOf(k - 1)
      {
        PosOfIndex(s.position);
      }
    }
  }

  /** ... and they come in ascending row-major order. */
  lemma {:induction false} SquaresUpToAscending(g: Grid, k: int)
    requires 0 <= k <= 64
    ensures Ascending(SquaresUpTo(g, k))
  {
    if k > 0 {
      SquaresUpToAscending(g, k - 1);
      SquaresUpToMembers(g, k - 1);
      IndexPosOf(k - 1);
      var rest := SquaresUpTo(g, k - 1);
      if g[k - 1].Some? {
        var all := rest + [Square(g[k - 1].value, PosOf(k - 1))];
        assert SquaresUpTo(g, k) == all;
        forall i, j | 0 <= i < j < |all|
          ensures OnBoard(all[i].position) && OnBoard(all[j].position) &&
            Index(all[i].position) < Index(all[j].position)
        {
          assert all[i] == rest[i];
          assert rest[i] in rest;
          if j < |all| - 1 {
            assert all[j] == rest[j];
          }
        }
      }
    }
  }

  lemma SquaresUpToExact(g: Grid, k: int)
    requires 0 <= k <= 64
    ensures forall s :: s in SquaresUpTo(g, k) <==>
      OnBoard(s.position) && Index(s.position) < k && At(g, s.position) == Some(s.piece)
    ensures Ascending(SquaresUpTo(g, k))
  {
    SquaresUpToMembers(g, k);
    SquaresUpToAscending(g, k);
  }

  lemma CollectionExact(g: Grid, s: Square)
    ensures s in Collection(g) <==> OnBoard(s.position) && At(g, s.position) == Some(s.piece)
  {
    SquaresUpToExact(g, 64);
  }

  /** The first square in the list holding a piece of this colour and type. */
  function FirstSquare(sqs: seq<Square>, c: TeamColor, t: PieceType): Option<Square>
  {
    if sqs == [] then None
    else if sqs[0].piece == Piece(c, t) then Some(sqs[0])
    else FirstSquare(sqs[1..], c, t)
  }

  /** getSquare: the first square, in row-major order, holding this piece. */
  function FindSquare(g: Grid, c: TeamColor, t: PieceType): Option<Square>
  {
    FirstSquare(Collection(g), c, t)
  }

  lemma {:induction false} FirstSquareExact(sqs: seq<Square>, c: TeamColor, t: PieceType)
    ensures FirstSquare(sqs, c, t).None? <==> forall s :: s in sqs ==> s.piece != Piece(c, t)
    ensures FirstSquare(sqs, c, t).Some? ==>
      exists i :: 0 <= i < |sqs| && sqs[i] == FirstSquare(sqs, c, t).value &&
        sqs[i].piece == Piece(c, t) && forall j :: 0 <= j < i ==> sqs[j].piece != Piece(c, t)
  {
    if sqs != [] && sqs[0].piece != Piece(c, t) {
      FirstSquareExact(sqs[1..], c, t);
      assert sqs == [sqs[0]] + sqs[1..];
      if FirstSquare(sqs[1..], c, t).Some? {
        var i :| 0 <= i < |sqs[1..]| && sqs[1..][i] == FirstSquare(sqs[1..], c, t).value &&
          sqs[1..][i].piece == Piece(c, t) && forall j :: 0 <= j < i ==> sqs[1..][j].piece != Piece(c, t);
        assert sqs[i + 1] == sqs[1..][i];
      }
    } else if sqs != [] {
      assert sqs[0] == FirstSquare(sqs, c, t).value;
    }
  }

  /** getSquare finds nothing exactly when no square holds the piece. */
  lemma FindSquareNone(g: Grid, c: TeamColor, t: PieceType)
    ensures FindSquare(g, c, t).None? <==> forall p :: OnBoard(p) ==> At(g, p) != Some(Piece(c, t))
  {
    var sqs := Collection(g);
    FirstSquareExact(sqs, c, t);
    if FindSquare(g, c, t).None? {
      forall p | OnBoard(p) ensures At(g, p) != Some(Piece(c, t)) {
        CollectionExact(g, Square(Piece(c, t), p));
      }
    } else {
      CollectionExact(g, FindSquare(g, c, t).value);
    }
  }

  /** Otherwise it finds the square holding the piece with the least row-major index. */
  lemma FindSquareFirst(g: Grid, c: TeamColor, t: PieceType)
    requires FindSquare(g, c, t).Some?
    ensures var s := FindSquare(g, c, t).value;
      s.piece == Piece(c, t) && OnBoard(s.position) && At(g, s.position) == Some(s.piece) &&
      forall p :: OnBoard(p) && Index(p) < Index(s.position) ==> At(g, p) != Some(Piece(c, t))
  {
    var sqs := Collection(g);
    SquaresUpToExact(g, 64);
    FirstSquareExact(sqs, c, t);
    var s := FindSquare(g, c, t).value;
    var i :| 0 <= i < |sqs| && sqs[i] == s && sqs[i].piece == Piece(c, t) &&
      forall j :: 0 <= j < i ==> sqs[j].piece != Piece(c, t);
    forall p | OnBoard(p) && Index(p) < Index(s.position) ensures At(g, p) != Some(Piece(c, t)) {
      var e := Square(Piece(c, t), p);
      if e in sqs {
        assert false;
      }
    }
  }

  lemma FindSquareExact(g: Grid, c: TeamColor, t: PieceType)
    ensures FindSquare(g, c, t).None? <==> forall p :: OnBoard(p) ==> At(g, p) != Some(Piece(c, t))
    ensures FindSquare(g, c, t).Some? ==>
      var s := FindSquare(g, c, t).value;
      s.piece == Piece(c, t) && OnBoard(s.position) && At(g, s.position) == Some(s.piece) &&
      forall p :: OnBoard(p) && Index(p) < Index(s.position) ==> At(g, p) != Some(Piece(c, t))
  {
    FindSquareNone(g, c, t);
    if FindSquare(g, c, t).Some? {
      FindSquareFirst(g, c, t);
    }
  }

  // ---------------------------------------------------------------------
  // getAttackingPieces and isAttacked

  /** Some move in the list ends on pos. */
  predicate EndsAt(moves: seq<Move>, pos: Position)
  {
    exists m :: m in moves && m.end == pos
  }

  /** The positions, in list order, of the squares not of colour c with a move ending on pos. */
  function AttackersIn(g: Grid, sqs: seq<Square>, pos: Position, c: TeamColor): seq<Position>
    requires forall s :: s in sqs ==> OnBoard(s.position)
  {
    if sqs == [] then []
    else
      var s := sqs[|sqs| - 1];
      var rest := AttackersIn(g, sqs[..|sqs| - 1], pos, c);
      if s.piece.color != c && EndsAt(SquareMoves(s, g), pos) then rest + [s.position] else rest
  }

  /** getAttackingPieces(pos, c). */
  function Attackers(g: Grid, pos: Position, c: TeamColor): seq<Position>
  {
    CollectionOnBoard(g);
    AttackersIn(g, Collection(g), pos, c)
  }

  lemma CollectionOnBoard(g: Grid)
    ensures forall s :: s in Collection(g) ==> OnBoard(s.position)
  {
    SquaresUpToExact(g, 64);
  }

  /** isAttacked(pos, c): some piece not of colour c has a pseudo-move ending on pos. */
  predicate IsAttacked(g: Grid, pos: Position, c: TeamColor)
  {
    |Attackers(g, pos, c)| > 0
  }

  /** ChessSquare.isAttacked: the square's position, attacked against its own piece's colour. */
  predicate SquareIsAttacked(sq: Square, g: Grid)
  {
    IsAttacked(g, sq.position, sq.piece.color)
  }

  /** q attacks pos on behalf of the side opposing c. */
  ghost predicate Attacks(g: Grid, q: Position, pos: Position, c: TeamColor)
  {
    OnBoard(q) && At(g, q).Some? && At(g, q).value.color != c &&
    exists m :: m in MoveGen.PieceMoves(g, At(g, q).value, q) && m.end == pos
  }

  lemma {:induction false} AttackersInExact(g: Grid, sqs: seq<Square>, pos: Position, c: TeamColor, q: Position)
    requires forall s :: s in sqs ==> OnBoard(s.position)
    ensures q in AttackersIn(g, sqs, pos, c) <==>
      exists s :: s in sqs && s.position == q && s.piece.color != c && EndsAt(SquareMoves(s, g), pos)
  {
    if sqs != [] {
      var front := sqs[..|sqs| - 1];
      assert sqs == front + [sqs[|sqs| - 1]];
      AttackersInExact(g, front, pos, c, q);
    }
  }

  /** getAttackingPieces returns exactly the positions of the pieces attacking pos. */
  lemma AttackersExact(g: Grid, pos: Position, c: TeamColor, q: Position)
    ensures q in Attackers(g, pos, c) <==> Attacks(g, q, pos, c)
  {
    CollectionOnBoard(g);
    AttackersInExact(g, Collection(g), pos, c, q);
    if Attacks(g, q, pos, c) {
      CollectionExact(g, Square(At(g, q).value, q));
    }
    if q in Attackers(g, pos, c) {
      var s :| s in Collection(g) && s.position == q && s.piece.color != c && EndsAt(SquareMoves(s, g), pos);
      CollectionExact(g, s);
    }
  }

  /** isAttacked holds iff some opposing piece has a pseudo-move ending on pos. */
  lemma IsAttackedExact(g: Grid, pos: Position, c: TeamColor)
    ensures IsAttacked(g, pos, c) <==> exists q :: Attacks(g, q, pos, c)
  {
    if IsAttacked(g, pos, c) {
      AttackersExact(g, pos, c, Attackers(g, pos, c)[0]);
    }
    if exists q :: Attacks(g, q, pos, c) {
      var q :| Attacks(g, q, pos, c);
      AttackersExact(g, pos, c, q);
    }
  }

  /** ChessSquare.isAttacked: a piece of the other colour has a pseudo-move ending on the square. */
  lemma SquareIsAttackedExact(sq: Square, g: Grid)
    ensures SquareIsAttacked(sq, g) <==>
      exists q :: Attacks(g, q, sq.position, sq.piece.color) && At(g, q).value.color == Other(sq.piece.color)
  {
    IsAttackedExact(g, sq.position, sq.piece.color);
  }

  /**
   * "Attacked" counts every pseudo-move, so a pawn's straight push onto an
   * empty square attacks that square.
   */
  lemma PawnPushAttacks(g: Grid, q: Position, c: TeamColor)
    requires OnBoard(q) && At(g, q) == Some(Piece(c, Pawn))
    requires OnBoard(Position(q.row + MoveGen.Forward(c), q.col))
    requires Free(g, Position(q.row + MoveGen.Forward(c), q.col))
    ensures IsAttacked(g, Position(q.row + MoveGen.Forward(c), q.col), Other(c))
  {
    var ahead := Position(q.row + MoveGen.Forward(c), q.col);
    var m := Move(q, ahead, if ahead.row == MoveGen.FarRank(c) then Some(Queen) else None);
    MoveGen.PawnMovesExact(g, q, c, m);
    assert Attacks(g, q, ahead, Other(c));
    IsAttackedExact(g, ahead, Other(c));
  }

  // ---------------------------------------------------------------------
  // isCastling, isValidCastling and isLegalMove

  predicate IsCastling(piece: Piece, m: Move)
  {
    piece.kind == King && Abs(m.start.col - m.end.col) == 2
  }

  /**
   * isValidCastling: the piece is a king, (teamRow, 5) is not attacked, and
   * neither are the two squares toward the destination (columns 3 and 4 when
   * the end column is 3, else 6 and 7).
   */
  predicate ValidCastling(g: Grid, piece: Piece, m: Move)
  {
    var row := if piece.color == Black then 8 else 1;
    var c := piece.color;
    piece.kind == King &&
    !IsAttacked(g, Position(row, 5), c) &&
    if m.end.col == 3 then !IsAttacked(g, Position(row, 3), c) && !IsAttacked(g, Position(row, 4), c)
    else !IsAttacked(g, Position(row, 6), c) && !IsAttacked(g, Position(row, 7), c)
  }

  /** isLegalMove gets past its two early returns and simulates the move. */
  predicate Simulates(g: Grid, m: Move)
    requires OnBoard(m.start)
  {
    At(g, m.start).Some? &&
    !(IsCastling(At(g, m.start).value, m) && !ValidCastling(g, At(g, m.start).value, m))
  }

  /** The king check isLegalMove ends with: the first-found king of colour c is absent or unattacked. */
  predicate KingSafe(g: Grid, c: TeamColor)
  {
    var king := FindSquare(g, c, King);
    king.None? || !SquareIsAttacked(king.value, g)
  }

  /**
   * isLegalMove: false on an empty start square or an invalid castle;
   * otherwise the mover's king is safe once the move is simulated.
   */
  predicate IsLegal(g: Grid, m: Move)
    requires OnBoard(m.start) && (Simulates(g, m) ==> CanApply(g, m))
  {
    Simulates(g, m) && KingSafe(ApplyMove(g, m).grid, At(g, m.start).value.color)
  }

  /** The king of colour c on p comes first in row-major order. */
  ghost predicate FirstKing(g: Grid, c: TeamColor, p: Position)
  {
    OnBoard(p) && At(g, p) == Some(Piece(c, King)) &&
    forall q :: OnBoard(q) && Index(q) < Index(p) ==> At(g, q) != Some(Piece(c, King))
  }

  /** There is at most one first king of a colour. */
  lemma FirstKingUnique(g: Grid, c: TeamColor, p: Position, q: Position)
    requires FirstKing(g, c, p) && FirstKing(g, c, q)
    ensures p == q
  {
    if Index(p) == Index(q) {
      IndexInjective(p, q);
    }
  }

  /** KingSafe: c has no king, or its first king in row-major order is not attacked. */
  lemma KingSafeExact(g: Grid, c: TeamColor)
    ensures KingSafe(g, c) <==>
      (forall p :: OnBoard(p) ==> At(g, p) != Some(Piece(c, King))) ||
      (exists p :: FirstKing(g, c, p) && !IsAttacked(g, p, c))
  {
    FindSquareExact(g, c, King);
    if exists p :: FirstKing(g, c, p) && !IsAttacked(g, p, c) {
      var p :| FirstKing(g, c, p) && !IsAttacked(g, p, c);
      var s := FindSquare(g, c, King).value;
      if s.position != p {
        if Index(s.position) < Index(p) {
          assert false;
        } else {
          IndexInjective(s.position, p);
          assert false;
        }
      }
    }
    if FindSquare(g, c, King).Some? {
      assert FirstKing(g, c, FindSquare(g, c, King).value.position);
    }
  }

  // ---------------------------------------------------------------------
  // Pseudo-moves never reach the castle and en-passant branches

  /**
   * A generated move of the piece on its square always applies without an
   * exception, and never takes the castle or en-passant branch: kings never
   * shift two columns and pawns move diagonally only onto enemy pieces.
   * It therefore only moves (or promotes) the piece and logs itself.
   */
  lemma PseudoMoveIsSimple(g: Grid, p: Position, m: Move)
    requires OnBoard(p) && At(g, p).Some? && m in MoveGen.PieceMoves(g, At(g, p).value, p)
    ensures CanApply(g, m) && !CastleBranch(g, m) && !EnPassantBranch(g, m)
    ensures ApplyMove(g, m) ==
      Applied(Relocate(g, m, if m.promotion.Some? then Piece(At(g, p).value.color, m.promotion.value)
                             else At(g, p).value), [m])
  {
    var x := At(g, p).value;
    MoveGen.PieceMovesLand(g, x, p, m);
    if x.kind == King {
      MoveGen.KingNeverShiftsTwoColumns(g, p, x.color, m);
    }
    if x.kind == Pawn {
      MoveGen.PawnMovesExact(g, p, x.color, m);
    }
  }
}
