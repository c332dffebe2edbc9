/**
 * ChessPiece.pieceMoves and its six generators as functions of a board
 * snapshot.  The lists keep the source's order.  No check filtering happens
 * here.  The ray walks, which are `for` loops with `break` in the source,
 * also exist as the method WalkRay proved equal to Ray.
 */
module MoveGen {
  import opened Basics
  import opened Positions
  import opened Pieces
  import opened Moves
  import opened Grids

  function Plain(p: Position, q: Position): Move
  {
    Move(p, q, None)
  }

  /** One fixed-offset destination: taken when on the board and empty or enemy-held. */
  function Hop(g: Grid, p: Position, c: TeamColor, dr: int, dc: int): seq<Move>
  {
    var q := Position(p.row + dr, p.col + dc);
    if OnBoard(q) && CanLand(g, q, c) then [Plain(p, q)] else []
  }

  /** kingMoves: up, down, left, right, up-left, up-right, down-left, down-right. */
  function KingMoves(g: Grid, p: Position, c: TeamColor): seq<Move>
  {
    Hop(g, p, c, 1, 0) + Hop(g, p, c, -1, 0) + Hop(g, p, c, 0, -1) + Hop(g, p, c, 0, 1) +
    Hop(g, p, c, 1, -1) + Hop(g, p, c, 1, 1) + Hop(g, p, c, -1, -1) + Hop(g, p, c, -1, 1)
  }

  /** knightMoves, in the source's order of the eight L-offsets. */
  function KnightMoves(g: Grid, p: Position, c: TeamColor): seq<Move>
  {
    Hop(g, p, c, 1, -2) + Hop(g, p, c, 1, 2) + Hop(g, p, c, -1, -2) + Hop(g, p, c, -1, 2) +
    Hop(g, p, c, 2, -1) + Hop(g, p, c, -2, -1) + Hop(g, p, c, 2, 1) + Hop(g, p, c, -2, 1)
  }

  /** k steps of a unit direction d in {-1, 0, 1}. */
  function Scale(d: int, k: int): int
  {
    if d > 0 then k else if d < 0 then -k else 0
  }

  predicate Direction(dr: int, dc: int)
  {
    -1 <= dr <= 1 && -1 <= dc <= 1 && (dr != 0 || dc != 0)
  }

  /** The square k steps from p in direction (dr, dc). */
  function Along(p: Position, dr: int, dc: int, k: int): Position
  {
    Position(p.row + Scale(dr, k), p.col + Scale(dc, k))
  }

  /**
   * The rest of one ray walk, from its k-th square on: empty squares are
   * taken, an enemy square is taken and ends the walk, an own piece or the
   * edge ends it.
   */
  function Ray(g: Grid, p: Position, c: TeamColor, dr: int, dc: int, k: int): seq<Move>
    requires OnBoard(p) && Direction(dr, dc) && k >= 1
    decreases 8 - k
  {
    var q := Along(p, dr, dc, k);
    if !OnBoard(q) then []
    else if Free(g, q) then [Plain(p, q)] + Ray(g, p, c, dr, dc, k + 1)
    else if Enemy(g, q, c) then [Plain(p, q)]
    else []
  }

  /** rookMoves: up, down, left, right. */
  function RookMoves(g: Grid, p: Position, c: TeamColor): seq<Move>
    requires OnBoard(p)
  {
    Ray(g, p, c, 1, 0, 1) + Ray(g, p, c, -1, 0, 1) + Ray(g, p, c, 0, -1, 1) + Ray(g, p, c, 0, 1, 1)
  }

  /** bishopMoves: up-left, up-right, down-left, down-right. */
  function BishopMoves(g: Grid, p: Position, c: TeamColor): seq<Move>
    requires OnBoard(p)
  {
    Ray(g, p, c, 1, -1, 1) + Ray(g, p, c, 1, 1, 1) + Ray(g, p, c, -1, -1, 1) + Ray(g, p, c, -1, 1, 1)
  }

  /** queenMoves walks the rook's four rays and then the bishop's four. */
  function QueenMoves(g: Grid, p: Position, c: TeamColor): seq<Move>
    requires OnBoard(p)
  {
    RookMoves(g, p, c) + BishopMoves(g, p, c)
  }

  /** The row direction a pawn of colour c moves in. */
  function Forward(c: TeamColor): int
  {
    if c == White then 1 else -1
  }

  /** The row a pawn of colour c starts on and may double-push from. */
  function HomeRank(c: TeamColor): int
  {
    if c == White then 2 else 7
  }

  /** The row a pawn of colour c promotes on. */
  function FarRank(c: TeamColor): int
  {
    if c == White then 8 else 1
  }

  /**
   * A pawn step from p to q: four promoting moves in the given order when
   * the pawn starts on the row before its far rank, else one plain move.
   */
  function Arrive(p: Position, q: Position, c: TeamColor, order: seq<PieceType>): seq<Move>
  {
    if p.row == FarRank(c) - Forward(c) then
      seq(|order|, i requires 0 <= i < |order| => Move(p, q, Some(order[i])))
    else
      [Plain(p, q)]
  }

  const QRNB: seq<PieceType> := [Queen, Rook, Knight, Bishop]
  const RQNB: seq<PieceType> := [Rook, Queen, Knight, Bishop]
  const QNRB: seq<PieceType> := [Queen, Knight, Rook, Bishop]

  function DoublePush(g: Grid, p: Position, c: TeamColor): seq<Move>
    requires OnBoard(p)
  {
    var f := Forward(c);
    var mid := Position(p.row + f, p.col);
    var dest := Position(p.row + 2 * f, p.col);
    if p.row == HomeRank(c) && Free(g, mid) && Free(g, dest) then [Plain(p, dest)] else []
  }

  /** A diagonal pawn step, generated only onto an enemy piece. */
  function Capture(g: Grid, p: Position, c: TeamColor, dc: int, order: seq<PieceType>): seq<Move>
  {
    var q := Position(p.row + Forward(c), p.col + dc);
    if OnBoard(q) && Enemy(g, q, c) then Arrive(p, q, c, order) else []
  }

  /** A straight pawn step, generated only onto an empty square. */
  function Push(g: Grid, p: Position, c: TeamColor, order: seq<PieceType>): seq<Move>
  {
    var q := Position(p.row + Forward(c), p.col);
    if OnBoard(q) && Free(g, q) then Arrive(p, q, c, order) else []
  }

  /**
   * pawnMoves: double push, left capture, right capture, single push.  The
   * promotion orders differ by branch exactly as in the source.
   */
  function PawnMoves(g: Grid, p: Position, c: TeamColor): seq<Move>
    requires OnBoard(p)
  {
    DoublePush(g, p, c) +
    Capture(g, p, c, -1, if c == White then QRNB else RQNB) +
    Capture(g, p, c, 1, QRNB) +
    Push(g, p, c, if c == White then QRNB else QNRB)
  }

  /** pieceMoves: dispatch on the piece type; the colour is the piece's own. */
  function PieceMoves(g: Grid, x: Piece, p: Position): seq<Move>
    requires OnBoard(p)
  {
    match x.kind
    case King => KingMoves(g, p, x.color)
    case Queen => QueenMoves(g, p, x.color)
    case Bishop => BishopMoves(g, p, x.color)
    case Knight => KnightMoves(g, p, x.color)
    case Rook => RookMoves(g, p, x.color)
    case Pawn => PawnMoves(g, p, x.color)
  }

  // ---------------------------------------------------------------------
  // Declarative descriptions of each generator

  /** The king rule: one of the eight neighbours, on the board, not own-held. */
  ghost predicate KingRule(g: Grid, p: Position, c: TeamColor, m: Move)
  {
    m.start == p && m.promotion == None && OnBoard(m.end) && CanLand(g, m.end, c) &&
    m.end != p && -1 <= m.end.row - p.row <= 1 && -1 <= m.end.col - p.col <= 1
  }

  /** The knight rule: an L-shaped jump, on the board, not own-held. */
  ghost predicate KnightRule(g: Grid, p: Position, c: TeamColor, m: Move)
  {
    var dr := m.end.row - p.row;
    var dc := m.end.col - p.col;
    m.start == p && m.promotion == None && OnBoard(m.end) && CanLand(g, m.end, c) &&
    ((dr in {1, -1} && dc in {2, -2}) || (dr in {2, -2} && dc in {1, -1}))
  }

  /**
   * The ray rule: the k-th square along the direction, with every square
   * before it on the board and empty, and itself empty or enemy-held.
   */
  ghost predicate RayRule(g: Grid, p: Position, c: TeamColor, dr: int, dc: int, from: int, k: int, m: Move)
  {
    from <= k && m == Plain(p, Along(p, dr, dc, k)) &&
    OnBoard(Along(p, dr, dc, k)) && CanLand(g, Along(p, dr, dc, k), c) &&
    forall j :: from <= j < k ==> OnBoard(Along(p, dr, dc, j)) && Free(g, Along(p, dr, dc, j))
  }

  /**
   * The pawn rule: a step forward onto an empty square, a diagonal step
   * forward onto an enemy, or a double push from the home rank over two
   * empty squares.  A step onto the far rank carries one of the four
   * promotions; every other move carries none.
   */
  ghost predicate PawnRule(g: Grid, p: Position, c: TeamColor, m: Move)
    requires OnBoard(p)
  {
    var f := Forward(c);
    m.start == p &&
    ((m.end.row == p.row + f && OnBoard(m.end) &&
      ((m.end.col == p.col && Free(g, m.end)) ||
       ((m.end.col == p.col - 1 || m.end.col == p.col + 1) && Enemy(g, m.end, c))) &&
      (if m.end.row == FarRank(c)
       then m.promotion.Some? && m.promotion.value in {Queen, Rook, Knight, Bishop}
       else m.promotion == None))
     ||
     (p.row == HomeRank(c) && m.end == Position(p.row + 2 * f, p.col) && m.promotion == None &&
      Free(g, Position(p.row + f, p.col)) && Free(g, m.end)))
  }

  // ---------------------------------------------------------------------
  // Each generator yields exactly what its rule allows

  /** One hop yields its target exactly when that is on the board and not own-held. */
  lemma HopExact(g: Grid, p: Position, c: TeamColor, dr: int, dc: int, m: Move)
    ensures m in Hop(g, p, c, dr, dc) <==>
      m == Plain(p, Position(p.row + dr, p.col + dc)) && OnBoard(m.end) && CanLand(g, m.end, c)
  {
  }

  lemma KingMovesExact(g: Grid, p: Position, c: TeamColor, m: Move)
    requires OnBoard(p)
    ensures m in KingMoves(g, p, c) <==> KingRule(g, p, c, m)
  {
    var parts := [Hop(g, p, c, 1, 0), Hop(g, p, c, -1, 0), Hop(g, p, c, 0, -1), Hop(g, p, c, 0, 1),
                  Hop(g, p, c, 1, -1), Hop(g, p, c, 1, 1), Hop(g, p, c, -1, -1), Hop(g, p, c, -1, 1)];
    assert KingMoves(g, p, c) == parts[0] + parts[1] + parts[2] + parts[3] + parts[4] + parts[5] + parts[6] + parts[7];
    if m in KingMoves(g, p, c) {
      HopExact(g, p, c, 1, 0, m);
      HopExact(g, p, c, -1, 0, m);
      HopExact(g, p, c, 0, -1, m);
      HopExact(g, p, c, 0, 1, m);
      HopExact(g, p, c, 1, -1, m);
      HopExact(g, p, c, 1, 1, m);
      HopExact(g, p, c, -1, -1, m);
      HopExact(g, p, c, -1, 1, m);
    }
    if KingRule(g, p, c, m) {
      var dr, dc := m.end.row - p.row, m.end.col - p.col;
      HopExact(g, p, c, dr, dc, m);
      assert m in Hop(g, p, c, dr, dc);
    }
  }

  /** So a king's pseudo-move never shifts two columns: castling is never generated. */
  lemma KingNeverShiftsTwoColumns(g: Grid, p: Position, c: TeamColor, m: Move)
    requires OnBoard(p) && m in KingMoves(g, p, c)
    ensures -1 <= m.end.col - p.col <= 1
  {
    KingMovesExact(g, p, c, m);
  }

  lemma KnightMovesExact(g: Grid, p: Position, c: TeamColor, m: Move)
    requires OnBoard(p)
    ensures m in KnightMoves(g, p, c) <==> KnightRule(g, p, c, m)
  {
    if m in KnightMoves(g, p, c) {
      HopExact(g, p, c, 1, -2, m);
      HopExact(g, p, c, 1, 2, m);
      HopExact(g, p, c, -1, -2, m);
      HopExact(g, p, c, -1, 2, m);
      HopExact(g, p, c, 2, -1, m);
      HopExact(g, p, c, -2, -1, m);
      HopExact(g, p, c, 2, 1, m);
      HopExact(g, p, c, -2, 1, m);
    }
    if KnightRule(g, p, c, m) {
      var dr, dc := m.end.row - p.row, m.end.col - p.col;
      HopExact(g, p, c, dr, dc, m);
      assert m in Hop(g, p, c, dr, dc);
    }
  }

  /** A ray rule reaching past the k-th square passes over it: it is empty and the rule holds from k + 1. */
  lemma RayRuleStep(g: Grid, p: Position, c: TeamColor, dr: int, dc: int, k: int, n: int, m: Move)
    requires RayRule(g, p, c, dr, dc, k, n, m) && n > k
    ensures OnBoard(Along(p, dr, dc, k)) && Free(g, Along(p, dr, dc, k))
    ensures RayRule(g, p, c, dr, dc, k + 1, n, m)
  {
  }

  /** Conversely a rule from k + 1 over an empty k-th square is a rule from k. */
  lemma RayRuleExtend(g: Grid, p: Position, c: TeamColor, dr: int, dc: int, k: int, n: int, m: Move)
    requires RayRule(g, p, c, dr, dc, k + 1, n, m)
    requires OnBoard(Along(p, dr, dc, k)) && Free(g, Along(p, dr, dc, k))
    ensures RayRule(g, p, c, dr, dc, k, n, m)
  {
  }

  /** Every move the ray rule allows from the k-th square on is on the ray. */
  lemma {:induction false} RaySound(g: Grid, p: Position, c: TeamColor, dr: int, dc: int, k: int, n: int, m: Move)
    requires OnBoard(p) && Direction(dr, dc) && k >= 1 && RayRule(g, p, c, dr, dc, k, n, m)
    ensures m in Ray(g, p, c, dr, dc, k)
    decreases 8 - k
  {
    var q := Along(p, dr, dc, k);
    if n > k {
      RayRuleStep(g, p, c, dr, dc, k, n, m);
      RaySound(g, p, c, dr, dc, k + 1, n, m);
      assert Ray(g, p, c, dr, dc, k) == [Plain(p, q)] + Ray(g, p, c, dr, dc, k + 1);
    } else {
      assert OnBoard(q) && CanLand(g, q, c) && m == Plain(p, q);
      assert m == Ray(g, p, c, dr, dc, k)[0];
    }
  }

  /** Every move on the ray from its k-th square on is allowed by the ray rule. */
  lemma {:induction false} RayComplete(g: Grid, p: Position, c: TeamColor, dr: int, dc: int, k: int, m: Move)
    requires OnBoard(p) && Direction(dr, dc) && k >= 1 && m in Ray(g, p, c, dr, dc, k)
    ensures exists n :: RayRule(g, p, c, dr, dc, k, n, m)
    decreases 8 - k
  {
    var q := Along(p, dr, dc, k);
    if m == Plain(p, q) {
      assert RayRule(g, p, c, dr, dc, k, k, m);
    } else {
      assert OnBoard(q) && Free(g, q);
      assert m in Ray(g, p, c, dr, dc, k + 1);
      RayComplete(g, p, c, dr, dc, k + 1, m);
      var n :| RayRule(g, p, c, dr, dc, k + 1, n, m);
      RayRuleExtend(g, p, c, dr, dc, k, n, m);
    }
  }

  /** A ray from its k-th square on yields exactly the moves the ray rule allows. */
  lemma RayExact(g: Grid, p: Position, c: TeamColor, dr: int, dc: int, k: int, m: Move)
    requires OnBoard(p) && Direction(dr, dc) && k >= 1
    ensures m in Ray(g, p, c, dr, dc, k) <==> exists n :: RayRule(g, p, c, dr, dc, k, n, m)
  {
    if exists n :: RayRule(g, p, c, dr, dc, k, n, m) {
      var n :| RayRule(g, p, c, dr, dc, k, n, m);
      RaySound(g, p, c, dr, dc, k, n, m);
    }
    if m in Ray(g, p, c, dr, dc, k) {
      RayComplete(g, p, c, dr, dc, k, m);
    }
  }

  /** A pawn's arrival yields one move per listed promotion on the last step, else one plain move. */
  lemma ArriveExact(p: Position, q: Position, c: TeamColor, order: seq<PieceType>, m: Move)
    ensures m in Arrive(p, q, c, order) <==>
      m.start == p && m.end == q &&
      (if p.row == FarRank(c) - Forward(c) then m.promotion.Some? && m.promotion.value in order
       else m.promotion == None)
  {
    var all := Arrive(p, q, c, order);
    if p.row == FarRank(c) - Forward(c) {
      if m in all {
        var i :| 0 <= i < |all| && all[i] == m;
        assert m.promotion == Some(order[i]);
      }
      if m.start == p && m.end == q && m.promotion.Some? && m.promotion.value in order {
        var i :| 0 <= i < |order| && order[i] == m.promotion.value;
        assert all[i] == m;
      }
    }
  }

  lemma DoublePushExact(g: Grid, p: Position, c: TeamColor, m: Move)
    requires OnBoard(p)
    ensures m in DoublePush(g, p, c) <==>
      p.row == HomeRank(c) && m == Plain(p, Position(p.row + 2 * Forward(c), p.col)) &&
      Free(g, Position(p.row + Forward(c), p.col)) && Free(g, m.end)
  {
  }

  lemma CaptureExact(g: Grid, p: Position, c: TeamColor, dc: int, order: seq<PieceType>, m: Move)
    ensures m in Capture(g, p, c, dc, order) <==>
      m.end == Position(p.row + Forward(c), p.col + dc) && OnBoard(m.end) && Enemy(g, m.end, c) &&
      m in Arrive(p, m.end, c, order)
  {
  }

  lemma PushExact(g: Grid, p: Position, c: TeamColor, order: seq<PieceType>, m: Move)
    ensures m in Push(g, p, c, order) <==>
      m.end == Position(p.row + Forward(c), p.col) && OnBoard(m.end) && Free(g, m.end) &&
      m in Arrive(p, m.end, c, order)
  {
  }

  lemma PawnMovesExact(g: Grid, p: Position, c: TeamColor, m: Move)
    requires OnBoard(p)
    ensures m in PawnMoves(g, p, c) <==> PawnRule(g, p, c, m)
  {
    var left := if c == White then QRNB else RQNB;
    var straight := if c == White then QRNB else QNRB;
    assert forall t :: t in left <==> t in {Queen, Rook, Knight, Bishop};
    assert forall t :: t in straight <==> t in {Queen, Rook, Knight, Bishop};
    assert forall t :: t in QRNB <==> t in {Queen, Rook, Knight, Bishop};
    DoublePushExact(g, p, c, m);
    CaptureExact(g, p, c, -1, left, m);
    CaptureExact(g, p, c, 1, QRNB, m);
    PushExact(g, p, c, straight, m);
    ArriveExact(p, m.end, c, left, m);
    ArriveExact(p, m.end, c, QRNB, m);
    ArriveExact(p, m.end, c, straight, m);
  }

  /** Every ray move starts at p and lands on the board on an empty or enemy square. */
  lemma RayLands(g: Grid, p: Position, c: TeamColor, dr: int, dc: int, m: Move)
    requires OnBoard(p) && Direction(dr, dc) && m in Ray(g, p, c, dr, dc, 1)
    ensures m.start == p && m.promotion == None && OnBoard(m.end) && CanLand(g, m.end, c)
  {
    RayExact(g, p, c, dr, dc, 1, m);
  }

  /**
   * Every generated move starts at the piece's square, ends on the board and
   * never on a piece of the mover's own colour.
   */
  lemma PieceMovesLand(g: Grid, x: Piece, p: Position, m: Move)
    requires OnBoard(p) && m in PieceMoves(g, x, p)
    ensures m.start == p && OnBoard(m.end) && CanLand(g, m.end, x.color)
  {
    var c := x.color;
    match x.kind
    case King => KingMovesExact(g, p, c, m);
    case Knight => KnightMovesExact(g, p, c, m);
    case Pawn => PawnMovesExact(g, p, c, m);
    case _ =>
      if m in Ray(g, p, c, 1, 0, 1) { RayLands(g, p, c, 1, 0, m); }
      if m in Ray(g, p, c, -1, 0, 1) { RayLands(g, p, c, -1, 0, m); }
      if m in Ray(g, p, c, 0, -1, 1) { RayLands(g, p, c, 0, -1, m); }
      if m in Ray(g, p, c, 0, 1, 1) { RayLands(g, p, c, 0, 1, m); }
      if m in Ray(g, p, c, 1, -1, 1) { RayLands(g, p, c, 1, -1, m); }
      if m in Ray(g, p, c, 1, 1, 1) { RayLands(g, p, c, 1, 1, m); }
      if m in Ray(g, p, c, -1, -1, 1) { RayLands(g, p, c, -1, -1, m); }
      if m in Ray(g, p, c, -1, 1, 1) { RayLands(g, p, c, -1, 1, m); }
  }

  // ---------------------------------------------------------------------
  // The generators as the source runs them

  /**
   * One ray walk as the source's `for` loop with `break`: collect empty
   * squares, take an enemy square and stop, stop at an own piece or the edge.
   */
  method WalkRay(g: Grid, p: Position, c: TeamColor, dr: int, dc: int) returns (moves: seq<Move>)
    requires OnBoard(p) && Direction(dr, dc)
    ensures moves == Ray(g, p, c, dr, dc, 1)
  {
    moves := [];
    var k := 1;
    while OnBoard(Along(p, dr, dc, k))
      invariant k >= 1
      invariant moves + Ray(g, p, c, dr, dc, k) == Ray(g, p, c, dr, dc, 1)
      decreases 8 - k
    {
      var q := Along(p, dr, dc, k);
      ghost var rest := Ray(g, p, c, dr, dc, k);
      if At(g, q).None? {
        assert rest == [Plain(p, q)] + Ray(g, p, c, dr, dc, k + 1);
        Regroup(moves, [Plain(p, q)], Ray(g, p, c, dr, dc, k + 1));
        moves := moves + [Plain(p, q)];
      } else if At(g, q).value.color != c {
        assert rest == [Plain(p, q)];
        moves := moves + [Plain(p, q)];
        break;
      } else {
        assert rest == [];
        break;
      }
      k := k + 1;
    }
  }

  /** pieceMoves as the source runs it: the sliding pieces walk their rays one after another. */
  method PieceMovesOf(g: Grid, x: Piece, p: Position) returns (moves: seq<Move>)
    requires OnBoard(p)
    ensures moves == PieceMoves(g, x, p)
  {
    var c := x.color;
    match x.kind {
      case King => moves := KingMoves(g, p, c);
      case Knight => moves := KnightMoves(g, p, c);
      case Pawn => moves := PawnMoves(g, p, c);
      case Rook => moves := RookWalk(g, p, c);
      case Bishop => moves := BishopWalk(g, p, c);
      case Queen =>
        var straight := RookWalk(g, p, c);
        var diagonal := BishopWalk(g, p, c);
        moves := straight + diagonal;
    }
  }

  method RookWalk(g: Grid, p: Position, c: TeamColor) returns (moves: seq<Move>)
    requires OnBoard(p)
    ensures moves == RookMoves(g, p, c)
  {
    var up := WalkRay(g, p, c, 1, 0);
    var down := WalkRay(g, p, c, -1, 0);
    var left := WalkRay(g, p, c, 0, -1);
    var right := WalkRay(g, p, c, 0, 1);
    moves := up + down + left + right;
  }

  method BishopWalk(g: Grid, p: Position, c: TeamColor) returns (moves: seq<Move>)
    requires OnBoard(p)
    ensures moves == BishopMoves(g, p, c)
  {
    var upLeft := WalkRay(g, p, c, 1, -1);
    var upRight := WalkRay(g, p, c, 1, 1);
    var downLeft := WalkRay(g, p, c, -1, -1);
    var downRight := WalkRay(g, p, c, -1, 1);
    moves := upLeft + upRight + downLeft + downRight;
  }
}
