/**
 * GenerateLegalMoves and GetGameResult of movegen.cpp: castling candidates,
 * pseudo-legal targets per piece, capture and promotion expansion, the
 * legality filter that makes and unmakes every candidate on the board it was
 * given, and the final sort.
 *
 * Two tests in this path are questionable: the en-passant ranks of the pawn
 * generator and the en-passant test of UnmakeMove. Rules selects the source's
 * versions (AsWritten) or the corrected ones (Corrected).
 */
module MoveGen {
  import opened Squares
  import opened Pieces
  import opened Zobrist
  import opened Position
  import opened Tables
  import opened Attacks
  import opened MakeUnmake
  import opened MoveOrder

  datatype Rules = AsWritten | Corrected

  // ---------------------------------------------------------------------------
  // Candidates

  /** The side to move's pieces and the opponent's. */
  function Own(b: Board): set<Square> {
    if b.whiteToMove then WhitePieces(b) else BlackPieces(b)
  }

  function Opp(b: Board): set<Square> {
    if b.whiteToMove then BlackPieces(b) else WhitePieces(b)
  }

  /**
   * Castling candidates, kingside first: the right's bit is held and the
   * squares between king and rook are empty. Nothing else is checked.
   */
  function CastlingMoves(b: Board): seq<Move> {
    var occ := AllPieces(b);
    if b.whiteToMove then
      (if HasRight(b.castling, 0) && F1 !in occ && G1 !in occ then [Move(E1, G1, King)] else [])
      + (if HasRight(b.castling, 1) && B1 !in occ && C1 !in occ && D1 !in occ then [Move(E1, C1, King)] else [])
    else
      (if HasRight(b.castling, 2) && F8 !in occ && G8 !in occ then [Move(E8, G8, King)] else [])
      + (if HasRight(b.castling, 3) && B8 !in occ && C8 !in occ && D8 !in occ then [Move(E8, C8, King)] else [])
  }

  /**
   * Whether the pawn on sq gets the en-passant target as an extra target:
   * an adjacent file, and the ranks below. As written white needs the pawn on
   * rank index 3 and the target on 4, black the pawn on 4 and the target on
   * 2; corrected, white needs 4 and 5, black 3 and 2.
   */
  predicate EpAdded(rules: Rules, sq: Square, wtm: bool, ep: Square) {
    var sr, er := Rank(sq), Rank(ep);
    FileDiff(sq, ep) == 1 &&
    match rules
    case AsWritten => (wtm && sr == 3 && er == 4) || (!wtm && sr == 4 && er == 2)
    case Corrected => (wtm && sr == 4 && er == 5) || (!wtm && sr == 3 && er == 2)
  }

  /** The extra en-passant target of a pawn, if any. */
  function EpTargets(b: Board, rules: Rules, sq: Square): set<Square> {
    if b.epTarget >= 0 && EpAdded(rules, sq, b.whiteToMove, b.epTarget) then {b.epTarget} else {}
  }

  /** A pawn's targets: pushes onto empty squares, captures onto opponent pieces, and the en-passant target if added. */
  function PawnTargets(b: Board, rules: Rules, sq: Square): set<Square> {
    (PawnMoves(sq, b.whiteToMove) - AllPieces(b)) + (PawnCaptures(sq, b.whiteToMove) * Opp(b)) + EpTargets(b, rules, sq)
  }

  /** The table entry of a non-pawn piece, sliders blocked by the full occupancy; nothing for other codes. */
  function Reach(b: Board, sq: Square, pt: Piece): set<Square> {
    var all := AllPieces(b);
    if pt == Knight then KnightMoves(sq)
    else if pt == Bishop then BishopMoves(sq, all)
    else if pt == Rook then RookMoves(sq, all)
    else if pt == Queen then QueenMoves(sq, all)
    else if pt == King then KingMoves(sq)
    else {}
  }

  /**
   * The targets of a piece of type pt on sq, by the switch in
   * GenerateLegalMoves; every non-pawn case masks its table with the
   * complement of the side's own pieces.
   */
  function Targets(b: Board, rules: Rules, sq: Square, pt: Piece): set<Square> {
    if pt == Pawn then PawnTargets(b, rules, sq) else Reach(b, sq, pt) - Own(b)
  }

  /** `cp`: a pawn reaching the en-passant target captures a pawn; otherwise the opponent's piece on the target, if any. */
  function CapturedOn(b: Board, pt: Piece, to: Square): Piece {
    if pt == Pawn && b.epTarget >= 0 && to == b.epTarget then Pawn
    else if to in Opp(b) then GetPieceAt(b, to)
    else NoPiece
  }

  /** `promote`: a pawn reaching the last rank of its side. */
  predicate Promotes(b: Board, pt: Piece, to: Square) {
    pt == Pawn && ((b.whiteToMove && to >= 56) || (!b.whiteToMove && to < 8))
  }

  /** The moves pushed for one target: four promotions in the order queen, rook, bishop, knight, or one plain move. */
  function MovesTo(b: Board, sq: Square, pt: Piece, to: Square): seq<Move> {
    var cp := CapturedOn(b, pt, to);
    if Promotes(b, pt, to) then
      [Move(sq, to, Pawn, cp, Queen), Move(sq, to, Pawn, cp, Rook), Move(sq, to, Pawn, cp, Bishop), Move(sq, to, Pawn, cp, Knight)]
    else
      [Move(sq, to, pt, cp)]
  }

  /** The inner loop over destinations `to`..63. */
  function ScanTargets(b: Board, sq: Square, pt: Piece, ts: set<Square>, to: int): seq<Move>
    requires 0 <= to <= 64
    decreases 64 - to
  {
    if to == 64 then []
    else (if to in ts then MovesTo(b, sq, pt, to) else []) + ScanTargets(b, sq, pt, ts, to + 1)
  }

  /** The moves of the piece on sq, when it belongs to the side to move. */
  function SquareMoves(b: Board, rules: Rules, sq: Square): seq<Move> {
    if sq !in Own(b) then []
    else
      var pt := GetPieceAt(b, sq);
      ScanTargets(b, sq, pt, Targets(b, rules, sq, pt), 0)
  }

  /** The outer loop over origins `sq`..63. */
  function ScanSquares(b: Board, rules: Rules, sq: int): seq<Move>
    requires 0 <= sq <= 64
    decreases 64 - sq
  {
    if sq == 64 then [] else SquareMoves(b, rules, sq) + ScanSquares(b, rules, sq + 1)
  }

  /** `pseudoLegal`: the castling candidates, then every piece's moves by origin and destination. */
  function PseudoLegal(b: Board, rules: Rules): seq<Move> {
    CastlingMoves(b) + ScanSquares(b, rules, 0)
  }

  // ---------------------------------------------------------------------------
  // What the candidate list holds

  /** The moves MovesTo pushes for a piece of type pt on m.from moving to m.to. */
  predicate Shaped(b: Board, pt: Piece, m: Move) {
    && m.captured == CapturedOn(b, pt, m.to)
    && if Promotes(b, pt, m.to) then
         m.pieceType == Pawn && (m.promotion == Queen || m.promotion == Rook || m.promotion == Bishop || m.promotion == Knight)
       else
         m.pieceType == pt && m.promotion == NoPiece
  }

  lemma MovesToMembers(b: Board, sq: Square, pt: Piece, to: Square, m: Move)
    ensures m in MovesTo(b, sq, pt, to) <==> m.from == sq && m.to == to && Shaped(b, pt, m)
  {
  }

  lemma {:induction false} ScanTargetsMembers(b: Board, sq: Square, pt: Piece, ts: set<Square>, to: int, m: Move)
    requires 0 <= to <= 64
    ensures m in ScanTargets(b, sq, pt, ts, to) <==> m.from == sq && to <= m.to && m.to in ts && Shaped(b, pt, m)
    decreases 64 - to
  {
    if to < 64 {
      ScanTargetsMembers(b, sq, pt, ts, to + 1, m);
      MovesToMembers(b, sq, pt, to, m);
    }
  }

  /** A move of the square scan: a piece of the side to move, one of its targets, and the shape MovesTo gives it. */
  predicate ScanMove(b: Board, rules: Rules, m: Move) {
    var pt := GetPieceAt(b, m.from);
    m.from in Own(b) && m.to in Targets(b, rules, m.from, pt) && Shaped(b, pt, m)
  }

  lemma {:induction false} ScanSquaresMembers(b: Board, rules: Rules, sq: int, m: Move)
    requires 0 <= sq <= 64
    ensures m in ScanSquares(b, rules, sq) <==> sq <= m.from && ScanMove(b, rules, m)
    decreases 64 - sq
  {
    if sq < 64 {
      ScanSquaresMembers(b, rules, sq + 1, m);
      if sq in Own(b) {
        var pt := GetPieceAt(b, sq);
        ScanTargetsMembers(b, sq, pt, Targets(b, rules, sq, pt), 0, m);
      }
    }
  }

  /**
   * The candidate list holds exactly the castling candidates and, for every
   * piece of the side to move, one move per target (four for a promotion),
   * carrying the piece it captures.
   */
  lemma PseudoLegalMembers(b: Board, rules: Rules, m: Move)
    ensures m in PseudoLegal(b, rules) <==> m in CastlingMoves(b) || ScanMove(b, rules, m)
  {
    ScanSquaresMembers(b, rules, 0, m);
  }

  /** Castling candidates: exactly the rights whose squares between king and rook are empty, whatever attacks the king. */
  lemma CastlingMovesExact(b: Board, m: Move)
    ensures m in CastlingMoves(b) <==>
      var occ := AllPieces(b);
      if b.whiteToMove then
        || (m == Move(E1, G1, King) && HasRight(b.castling, 0) && F1 !in occ && G1 !in occ)
        || (m == Move(E1, C1, King) && HasRight(b.castling, 1) && B1 !in occ && C1 !in occ && D1 !in occ)
      else
        || (m == Move(E8, G8, King) && HasRight(b.castling, 2) && F8 !in occ && G8 !in occ)
        || (m == Move(E8, C8, King) && HasRight(b.castling, 3) && B8 !in occ && C8 !in occ && D8 !in occ)
  {
  }

  /**
   * A promotion comes as four candidates, queen, rook, bishop and knight,
   * with the same origin, destination and captured piece; every other
   * candidate carries no promotion piece.
   */
  lemma PromotionsComeInFours(b: Board, rules: Rules, m: Move)
    requires m in PseudoLegal(b, rules) && m.promotion != NoPiece
    ensures m.pieceType == Pawn && Promotes(b, Pawn, m.to)
    ensures forall p :: p == Queen || p == Rook || p == Bishop || p == Knight ==> m.(promotion := p) in PseudoLegal(b, rules)
  {
    PseudoLegalMembers(b, rules, m);
    forall p | p == Queen || p == Rook || p == Bishop || p == Knight
      ensures m.(promotion := p) in PseudoLegal(b, rules)
    {
      PseudoLegalMembers(b, rules, m.(promotion := p));
    }
  }

  /** The landing square of a double push from sq: two ranks forward for the side to move. */
  function DoublePushTo(sq: Square, wtm: bool): int {
    if wtm then sq + 16 else sq - 16
  }

  /** The square a double push from sq passes over. */
  function SkippedSquare(sq: Square, wtm: bool): int {
    if wtm then sq + 8 else sq - 8
  }

  /**
   * A pawn on its start rank (rank index 1 for white, 6 for black) may push
   * two squares whenever the landing square is empty, whatever stands on the
   * square it passes.
   */
  lemma DoublePushIgnoresSkippedSquare(b: Board, rules: Rules, sq: Square)
    requires Rank(sq) == (if b.whiteToMove then 1 else 6)
    ensures 0 <= SkippedSquare(sq, b.whiteToMove) < 64 && 0 <= DoublePushTo(sq, b.whiteToMove) < 64
    ensures DoublePushTo(sq, b.whiteToMove) !in AllPieces(b) ==> DoublePushTo(sq, b.whiteToMove) in Targets(b, rules, sq, Pawn)
  {
  }

  // ---------------------------------------------------------------------------
  // Distinct keys

  lemma MovesToDistinct(b: Board, sq: Square, pt: Piece, to: Square)
    ensures DistinctKeys(MovesTo(b, sq, pt, to))
  {
  }

  /** One square's scan pushes no two moves with the same destination and promotion. */
  lemma {:induction false} ScanTargetsDistinct(b: Board, sq: Square, pt: Piece, ts: set<Square>, to: int)
    requires 0 <= to <= 64
    ensures DistinctKeys(ScanTargets(b, sq, pt, ts, to))
    decreases 64 - to
  {
    if to < 64 {
      var head := if to in ts then MovesTo(b, sq, pt, to) else [];
      var tail := ScanTargets(b, sq, pt, ts, to + 1);
      ScanTargetsDistinct(b, sq, pt, ts, to + 1);
      MovesToDistinct(b, sq, pt, to);
      forall x <- head, y <- tail
        ensures !SameKey(x, y)
      {
        MovesToMembers(b, sq, pt, to, x);
        ScanTargetsMembers(b, sq, pt, ts, to + 1, y);
      }
      DistinctKeysConcat(head, tail);
    }
  }

  lemma {:induction false} ScanSquaresDistinct(b: Board, rules: Rules, sq: int)
    requires 0 <= sq <= 64
    ensures DistinctKeys(ScanSquares(b, rules, sq))
    decreases 64 - sq
  {
    if sq < 64 {
      ScanSquaresDistinct(b, rules, sq + 1);
      SquareMovesDistinct(b, rules, sq);
      SquareMovesFrom(b, rules, sq);
      ScanSquaresFrom(b, rules, sq + 1);
    }
  }

  lemma SquareMovesDistinct(b: Board, rules: Rules, sq: Square)
    ensures DistinctKeys(SquareMoves(b, rules, sq))
  {
    if sq in Own(b) {
      var pt := GetPieceAt(b, sq);
      ScanTargetsDistinct(b, sq, pt, Targets(b, rules, sq, pt), 0);
    }
  }

  lemma SquareMovesFrom(b: Board, rules: Rules, sq: Square)
    ensures forall x <- SquareMoves(b, rules, sq) :: x.from == sq
  {
    forall x <- SquareMoves(b, rules, sq) ensures x.from == sq {
      var pt := GetPieceAt(b, sq);
      ScanTargetsMembers(b, sq, pt, Targets(b, rules, sq, pt), 0, x);
    }
  }

  lemma ScanSquaresFrom(b: Board, rules: Rules, sq: int)
    requires 0 < sq <= 64
    ensures forall y <- ScanSquares(b, rules, sq) :: sq - 1 < y.from
  {
    forall y <- ScanSquares(b, rules, sq) ensures sq - 1 < y.from {
      ScanSquaresMembers(b, rules, sq, y);
    }
  }

  /** A king standing where castling starts reports King to GetPieceAt and never reaches the castling destination by a step. */
  lemma HomeKingSteps(b: Board, rules: Rules, y: Move, white: bool)
    requires WellFormed(b.bits) && Has(b, King, white, y.from) && ScanMove(b, rules, y)
    ensures y.to in KingMoves(y.from)
  {
    OccupantOfWellFormed(b.bits, PlaneOf(King, white), y.from);
  }

  /**
   * No castling candidate shares its key with a scanned move when every held
   * right has its king at home: the king's table reaches only neighbouring
   * squares and castling moves it two files.
   */
  lemma CastlingScanDistinct(b: Board, rules: Rules, x: Move, y: Move)
    requires WellFormed(b.bits) && RightsAtHome(b)
    requires x in CastlingMoves(b) && y in ScanSquares(b, rules, 0)
    ensures !SameKey(x, y)
  {
    CastlingMovesExact(b, x);
    ScanSquaresMembers(b, rules, 0, y);
    if SameKey(x, y) {
      HomeKingSteps(b, rules, y, b.whiteToMove);
      KingTableExact(y.from, y.to);
      assert false;
    }
  }

  lemma CastlingDistinct(b: Board)
    ensures DistinctKeys(CastlingMoves(b))
  {
  }

  lemma CastlingApart(b: Board, rules: Rules)
    requires WellFormed(b.bits) && RightsAtHome(b)
    ensures forall x <- CastlingMoves(b), y <- ScanSquares(b, rules, 0) :: !SameKey(x, y)
  {
    forall x <- CastlingMoves(b), y <- ScanSquares(b, rules, 0)
      ensures !SameKey(x, y)
    {
      CastlingScanDistinct(b, rules, x, y);
    }
  }

  /** Under the same condition no two candidates share a key. */
  lemma PseudoLegalDistinctKeys(b: Board, rules: Rules)
    requires WellFormed(b.bits) && RightsAtHome(b)
    ensures DistinctKeys(PseudoLegal(b, rules))
  {
    ScanSquaresDistinct(b, rules, 0);
    CastlingDistinct(b);
    CastlingApart(b, rules);
    DistinctKeysConcat(CastlingMoves(b), ScanSquares(b, rules, 0));
  }

  // ---------------------------------------------------------------------------
  // The legality filter

  /**
   * What every candidate satisfies whatever the board: a real moving piece,
   * and a pawn destination off its own back rank, so that an en-passant
   * capture square one rank behind it is on the board.
   */
  predicate Generated(m: Move, wtm: bool) {
    m.pieceType != NoPiece && (m.pieceType == Pawn ==> if wtm then Rank(m.to) >= 1 else Rank(m.to) <= 6)
  }

  lemma GeneratedDefined(b: Board, m: Move)
    requires Generated(m, b.whiteToMove)
    ensures MakeDefined(b, m)
  {
  }

  lemma ScanMoveGenerated(b: Board, rules: Rules, m: Move)
    requires ScanMove(b, rules, m)
    ensures Generated(m, b.whiteToMove)
  {
    var pt := GetPieceAt(b, m.from);
    assert m.to in Targets(b, rules, m.from, pt);
    assert m.pieceType == Pawn ==> pt == Pawn;
    if m.pieceType == Pawn {
      PawnTargetRank(b, rules, m.from, m.to);
    }
  }

  lemma PseudoLegalGenerated(b: Board, rules: Rules)
    ensures forall m :: m in PseudoLegal(b, rules) ==> Generated(m, b.whiteToMove)
  {
    forall m | m in PseudoLegal(b, rules)
      ensures Generated(m, b.whiteToMove)
    {
      PseudoLegalMembers(b, rules, m);
      if m !in CastlingMoves(b) {
        ScanMoveGenerated(b, rules, m);
      } else {
        CastlingMovesExact(b, m);
      }
    }
  }

  lemma PawnTargetRank(b: Board, rules: Rules, sq: Square, to: Square)
    requires to in PawnTargets(b, rules, sq)
    ensures if b.whiteToMove then Rank(to) >= 1 else Rank(to) <= 6
  {
    PawnTablesExact(sq, to, b.whiteToMove);
  }

  /** A generated move can be unmade with either en-passant reading. */
  lemma GeneratedUnmakeDefined(b: Board, m: Move, ep: bool)
    requires |b.undo| > 0 && Generated(m, !b.whiteToMove) && (ep ==> m.pieceType == Pawn)
    ensures UnmakeDefined(b, m, ep)
  {
  }

  /** UnmakeMove as written, or the corrected one. */
  function Unmake(k: KeyTable, b: Board, m: Move, rules: Rules): (r: Board)
    requires |b.undo| > 0 && Generated(m, !b.whiteToMove)
    ensures r.whiteToMove == !b.whiteToMove
    ensures r.undo == b.undo[..|b.undo| - 1]
  {
    match rules
    case AsWritten => UnmakeMove(k, b, m)
    case Corrected =>
      GeneratedUnmakeDefined(b, m, EpOnUnmakeFixed(b, m));
      UnmakeMoveFixed(k, b, m)
  }

  /** The mover's king is not in check once the move is made on b. */
  predicate Safe(k: KeyTable, b: Board, m: Move)
    requires Generated(m, b.whiteToMove)
  {
    GeneratedDefined(b, m);
    !IsInCheck(MakeMove(k, b, m), b.whiteToMove)
  }

  /**
   * One candidate of the loop: whether the mover's king is safe after it, and
   * the board after it is unmade again.
   */
  function Try(k: KeyTable, b: Board, m: Move, rules: Rules): (r: (bool, Board))
    requires Generated(m, b.whiteToMove)
    ensures r.1.whiteToMove == b.whiteToMove && r.1.undo == b.undo
  {
    GeneratedDefined(b, m);
    var made := MakeMove(k, b, m);
    (Safe(k, b, m), Unmake(k, made, m, rules))
  }

  /**
   * The loop over the candidates: make the move on the board, keep it if the
   * mover's king is not then in check, unmake it on that same board. The
   * board the loop ends with is returned too.
   */
  function LegalFilter(k: KeyTable, b: Board, ms: seq<Move>, rules: Rules): (r: (seq<Move>, Board))
    requires forall m <- ms :: Generated(m, b.whiteToMove)
    ensures r.1.whiteToMove == b.whiteToMove && r.1.undo == b.undo
    decreases |ms|
  {
    if |ms| == 0 then ([], b)
    else
      var t := Try(k, b, ms[0], rules);
      var rest := LegalFilter(k, t.1, ms[1..], rules);
      (if t.0 then [ms[0]] + rest.0 else rest.0, rest.1)
  }

  lemma InTail(m: Move, x: Move, s: seq<Move>)
    requires m in [x] + s && m != x
    ensures m in s
  {
  }

  /** The filter keeps only candidates, whichever board each is tried on. */
  lemma {:induction false} LegalFilterSubset(k: KeyTable, b: Board, ms: seq<Move>, rules: Rules, m: Move)
    requires forall m <- ms :: Generated(m, b.whiteToMove)
    requires m in LegalFilter(k, b, ms, rules).0
    ensures m in ms
    decreases |ms|
  {
    assert |ms| > 0;
    var t := Try(k, b, ms[0], rules);
    var rest := LegalFilter(k, t.1, ms[1..], rules);
    assert LegalFilter(k, b, ms, rules).0 == if t.0 then [ms[0]] + rest.0 else rest.0;
    if m != ms[0] {
      if t.0 {
        InTail(m, ms[0], rest.0);
      }
      LegalFilterSubset(k, t.1, ms[1..], rules, m);
    }
  }

  /** The filter keeps some of the candidates, each at most as often as the candidate list holds it. */
  lemma {:induction false} LegalFilterSubMultiset(k: KeyTable, b: Board, ms: seq<Move>, rules: Rules)
    requires forall m <- ms :: Generated(m, b.whiteToMove)
    ensures multiset(LegalFilter(k, b, ms, rules).0) <= multiset(ms)
    decreases |ms|
  {
    if |ms| > 0 {
      var t := Try(k, b, ms[0], rules);
      var rest := LegalFilter(k, t.1, ms[1..], rules);
      LegalFilterSubMultiset(k, t.1, ms[1..], rules);
      KeepOrDrop(ms, t.0, rest.0, LegalFilter(k, b, ms, rules).0);
    }
  }

  lemma KeepOrDrop(ms: seq<Move>, keep: bool, rest: seq<Move>, r: seq<Move>)
    requires |ms| > 0 && multiset(rest) <= multiset(ms[1..])
    requires r == if keep then [ms[0]] + rest else rest
    ensures multiset(r) <= multiset(ms)
  {
    assert ms == [ms[0]] + ms[1..];
  }

  /** So distinct keys among the candidates stay distinct in what the filter keeps. */
  lemma LegalFilterDistinct(k: KeyTable, b: Board, ms: seq<Move>, rules: Rules)
    requires forall m <- ms :: Generated(m, b.whiteToMove)
    requires DistinctKeys(ms)
    ensures DistinctKeys(LegalFilter(k, b, ms, rules).0)
  {
    LegalFilterSubMultiset(k, b, ms, rules);
    DistinctKeysSubMultiset(ms, LegalFilter(k, b, ms, rules).0);
  }

  /** The candidates after which the mover's king is not in check, each tried on b itself. */
  function SafeMoves(k: KeyTable, b: Board, ms: seq<Move>): (r: seq<Move>)
    requires forall m <- ms :: Generated(m, b.whiteToMove)
    decreases |ms|
  {
    if |ms| == 0 then []
    else
      (if Safe(k, b, ms[0]) then [ms[0]] else []) + SafeMoves(k, b, ms[1..])
  }

  lemma {:induction false} SafeMovesMembers(k: KeyTable, b: Board, ms: seq<Move>, m: Move)
    requires forall m <- ms :: Generated(m, b.whiteToMove)
    ensures m in SafeMoves(k, b, ms) <==> m in ms && Safe(k, b, m)
    decreases |ms|
  {
    if |ms| > 0 {
      SafeMovesMembers(k, b, ms[1..], m);
    }
  }

  // ---------------------------------------------------------------------------
  // Boards the candidates fit

  /**
   * A held castling right has its king and rook on their home squares, and an
   * en-passant target is an empty square with an opponent pawn just beyond
   * it, as MakeMove leaves them after a double push.
   */
  predicate Consistent(b: Board) {
    && WellFormed(b.bits)
    && RightsAtHome(b)
    && (b.epTarget >= 0 ==>
          && EmptyAt(b.bits, b.epTarget)
          && if b.whiteToMove then b.epTarget >= 8 && Has(b, Pawn, false, b.epTarget - 8)
             else b.epTarget < 56 && Has(b, Pawn, true, b.epTarget + 8))
  }

  /** A held castling right has its king and rook on their home squares. */
  predicate RightsAtHome(b: Board) {
    && (HasRight(b.castling, 0) ==> Has(b, King, true, E1) && Has(b, Rook, true, H1))
    && (HasRight(b.castling, 1) ==> Has(b, King, true, E1) && Has(b, Rook, true, A1))
    && (HasRight(b.castling, 2) ==> Has(b, King, false, E8) && Has(b, Rook, false, H8))
    && (HasRight(b.castling, 3) ==> Has(b, King, false, E8) && Has(b, Rook, false, A8))
  }

  /** The board of the constructor is consistent. */
  lemma StartConsistent(k: KeyTable)
    ensures Consistent(StartBoard(k))
  {
    var b := StartBoard(k);
    StartPosition();
    StartHomes();
    assert HasRight(b.castling, 0) && HasRight(b.castling, 1) && HasRight(b.castling, 2) && HasRight(b.castling, 3);
  }

  /** The kings and rooks of the start position stand on their home squares. */
  lemma StartHomes()
    ensures Bit(PlaneOf(King, true), E1) in StartBits() && Bit(PlaneOf(King, false), E8) in StartBits()
    ensures Bit(PlaneOf(Rook, true), H1) in StartBits() && Bit(PlaneOf(Rook, true), A1) in StartBits()
    ensures Bit(PlaneOf(Rook, false), H8) in StartBits() && Bit(PlaneOf(Rook, false), A8) in StartBits()
  {
    StartMaskBits(PlaneOf(King, true), E1);
    StartMaskBits(PlaneOf(Rook, true), H1);
    StartMaskBits(PlaneOf(Rook, true), A1);
    StartMaskBits(PlaneOf(King, false), E8);
    StartMaskBits(PlaneOf(Rook, false), H8);
    StartMaskBits(PlaneOf(Rook, false), A8);
  }

  /**
   * Consistency is not kept by every generated move: a double push over an
   * occupied square is a candidate, and MakeMove then names that occupied
   * square as the en-passant target.
   */
  lemma DoublePushOverPiece(k: KeyTable, b: Board, rules: Rules, sq: Square)
    requires Consistent(b) && b.epTarget == -1
    requires Rank(sq) == (if b.whiteToMove then 1 else 6) && Has(b, Pawn, b.whiteToMove, sq)
    requires DoublePushTo(sq, b.whiteToMove) !in AllPieces(b) && SkippedSquare(sq, b.whiteToMove) in AllPieces(b)
    ensures Move(sq, DoublePushTo(sq, b.whiteToMove), Pawn) in PseudoLegal(b, rules)
    ensures MakeDefined(b, Move(sq, DoublePushTo(sq, b.whiteToMove), Pawn))
    ensures !Consistent(MakeMove(k, b, Move(sq, DoublePushTo(sq, b.whiteToMove), Pawn)))
  {
    DoublePushCandidate(b, rules, sq);
    DoublePushLeavesTarget(k, b, sq);
  }

  lemma DoublePushCandidate(b: Board, rules: Rules, sq: Square)
    requires WellFormed(b.bits) && b.epTarget == -1
    requires Rank(sq) == (if b.whiteToMove then 1 else 6) && Has(b, Pawn, b.whiteToMove, sq)
    requires DoublePushTo(sq, b.whiteToMove) !in AllPieces(b)
    ensures 0 <= DoublePushTo(sq, b.whiteToMove) < 64
    ensures Move(sq, DoublePushTo(sq, b.whiteToMove), Pawn) in PseudoLegal(b, rules)
  {
    var wtm := b.whiteToMove;
    DoublePushIgnoresSkippedSquare(b, rules, sq);
    var m := Move(sq, DoublePushTo(sq, wtm), Pawn);
    OccupantOfWellFormed(b.bits, PlaneOf(Pawn, wtm), sq);
    assert GetPieceAt(b, sq) == Pawn;
    assert sq in Own(b);
    assert Shaped(b, Pawn, m);
    assert ScanMove(b, rules, m);
    PseudoLegalMembers(b, rules, m);
  }

  /** The double push leaves its en-passant target on the occupied square it passed. */
  lemma DoublePushLeavesTarget(k: KeyTable, b: Board, sq: Square)
    requires WellFormed(b.bits) && b.epTarget == -1
    requires Rank(sq) == (if b.whiteToMove then 1 else 6) && Has(b, Pawn, b.whiteToMove, sq)
    requires 0 <= DoublePushTo(sq, b.whiteToMove) < 64
    requires DoublePushTo(sq, b.whiteToMove) !in AllPieces(b) && SkippedSquare(sq, b.whiteToMove) in AllPieces(b)
    ensures MakeDefined(b, Move(sq, DoublePushTo(sq, b.whiteToMove), Pawn))
    ensures !Consistent(MakeMove(k, b, Move(sq, DoublePushTo(sq, b.whiteToMove), Pawn)))
  {
    var wtm := b.whiteToMove;
    var m := Move(sq, DoublePushTo(sq, wtm), Pawn);
    var mid := SkippedSquare(sq, wtm);
    NotOccupiedIsEmpty(b, m.to);
    assert Fits(b, m);
    var after := MakeMove(k, b, m);
    assert after.epTarget == mid;
    var q :| q in b.bits && q.sq == mid;
    MakeMoveSquares(k, b, m);
    assert q in after.bits;
    assert !EmptyAt(after.bits, mid);
  }

  /** A square of the side to move holds one of its pieces, of the type GetPieceAt reports. */
  lemma OwnPiece(b: Board, sq: Square)
    requires WellFormed(b.bits) && sq in Own(b)
    ensures GetPieceAt(b, sq) != NoPiece && Has(b, GetPieceAt(b, sq), b.whiteToMove, sq)
  {
    AggregatesMatchOccupant(b, sq);
    var o := Occupant(b.bits, sq);
    PlaneCorrespondence(o, Pawn, true);
  }

  /** A square of the opponent holds one of its pieces, of the type GetPieceAt reports. */
  lemma OppPiece(b: Board, sq: Square)
    requires WellFormed(b.bits) && sq in Opp(b)
    ensures GetPieceAt(b, sq) != NoPiece && Has(b, GetPieceAt(b, sq), !b.whiteToMove, sq)
  {
    AggregatesMatchOccupant(b, sq);
    var o := Occupant(b.bits, sq);
    PlaneCorrespondence(o, Pawn, true);
  }

  lemma NotOccupiedIsEmpty(b: Board, sq: Square)
    requires sq !in AllPieces(b)
    ensures EmptyAt(b.bits, sq)
  {
  }

  lemma CastlingFits(b: Board, m: Move)
    requires Consistent(b) && m in CastlingMoves(b)
    ensures Fits(b, m) && Coherent(b, m)
  {
    CastlingMovesExact(b, m);
    NotOccupiedIsEmpty(b, m.to);
    NotOccupiedIsEmpty(b, RookTo(m));
  }

  /** A king step never looks like castling: castling moves the king two files. */
  lemma KingStepIsNotCastling(m: Move)
    requires m.to in KingMoves(m.from)
    ensures !IsCastling(m)
  {
    KingTableExact(m.from, m.to);
  }

  /** A scan move that captures nothing lands on an empty square. */
  lemma ScanEmptyTarget(b: Board, rules: Rules, m: Move)
    requires ScanMove(b, rules, m) && m.captured == NoPiece
    ensures EmptyAt(b.bits, m.to)
  {
    var pt := GetPieceAt(b, m.from);
    assert m.to !in Opp(b);
    if pt != Pawn {
      assert m.to in Reach(b, m.from, pt) - Own(b);
    }
    NotOccupiedIsEmpty(b, m.to);
  }

  /** A scan move that captures finds the captured piece on MakeMove's capture square. */
  lemma ScanCaptureFits(b: Board, rules: Rules, m: Move)
    requires Consistent(b) && ScanMove(b, rules, m) && m.captured != NoPiece
    ensures Generated(m, b.whiteToMove) && MakeDefined(b, m)
    ensures Has(b, m.captured, !b.whiteToMove, MakeCapSq(b, m))
    ensures m.pieceType == Pawn && m.captured == Pawn ==> (EmptyAt(b.bits, m.to) <==> m.to == b.epTarget)
  {
    ScanMoveGenerated(b, rules, m);
    GeneratedDefined(b, m);
    var pt := GetPieceAt(b, m.from);
    if pt == Pawn && b.epTarget >= 0 && m.to == b.epTarget {
      assert EpCaptureOnMake(b, m);
    } else {
      OppPiece(b, m.to);
    }
  }

  lemma ScanFits(b: Board, rules: Rules, m: Move)
    requires Consistent(b) && ScanMove(b, rules, m)
    ensures Fits(b, m) && Coherent(b, m)
  {
    var pt := GetPieceAt(b, m.from);
    OwnPiece(b, m.from);
    ScanMoveGenerated(b, rules, m);
    GeneratedDefined(b, m);
    assert m.pieceType == pt;
    if pt == King {
      assert m.to in Reach(b, m.from, pt);
      KingStepIsNotCastling(m);
    }
    if m.captured == NoPiece {
      ScanEmptyTarget(b, rules, m);
    } else {
      ScanCaptureFits(b, rules, m);
    }
  }

  /** On a consistent board every candidate fits the board and agrees with its en-passant target. */
  lemma PseudoLegalFits(b: Board, rules: Rules, m: Move)
    requires Consistent(b) && m in PseudoLegal(b, rules)
    ensures Fits(b, m) && Coherent(b, m)
  {
    PseudoLegalMembers(b, rules, m);
    if m in CastlingMoves(b) {
      CastlingFits(b, m);
    } else {
      ScanFits(b, rules, m);
    }
  }

  // ---------------------------------------------------------------------------
  // What the filter leaves on the board

  /** With the corrected UnmakeMove a fitting, coherent candidate is tried on b and b comes back. */
  lemma TryCorrected(k: KeyTable, b: Board, m: Move)
    requires WellFormed(b.bits) && Generated(m, b.whiteToMove) && Fits(b, m) && Coherent(b, m)
    ensures Try(k, b, m, Corrected).1 == b
  {
    FixedRoundTrip(k, b, m);
  }

  /** UnmakeMove as written restores b exactly when its rank test agrees with MakeMove's en-passant test. */
  lemma TryAsWritten(k: KeyTable, b: Board, m: Move)
    requires WellFormed(b.bits) && Generated(m, b.whiteToMove) && Fits(b, m)
    ensures Try(k, b, m, AsWritten).1 == b <==> EpOnUnmakeAsWritten(m) == EpCaptureOnMake(b, m)
  {
    AsWrittenRoundTrip(k, b, m);
  }

  /** Either rule: the kept flag says whether the mover's king is safe after the move on b. */
  lemma TryKeeps(k: KeyTable, b: Board, m: Move, rules: Rules)
    requires Generated(m, b.whiteToMove)
    ensures Try(k, b, m, rules).0 == Safe(k, b, m)
  {
  }

  /** One unrolling of LegalFilter and SafeMoves when the first candidate gives b back. */
  lemma FilterStep(k: KeyTable, b: Board, ms: seq<Move>, rules: Rules)
    requires |ms| > 0 && forall m <- ms :: Generated(m, b.whiteToMove)
    requires Try(k, b, ms[0], rules).1 == b
    requires LegalFilter(k, b, ms[1..], rules) == (SafeMoves(k, b, ms[1..]), b)
    ensures LegalFilter(k, b, ms, rules) == (SafeMoves(k, b, ms), b)
  {
    TryKeeps(k, b, ms[0], rules);
    var t := Try(k, b, ms[0], rules);
    var rest := LegalFilter(k, b, ms[1..], rules);
    assert LegalFilter(k, b, ms, rules) == (if t.0 then [ms[0]] + rest.0 else rest.0, rest.1);
    assert SafeMoves(k, b, ms) == (if t.0 then [ms[0]] else []) + rest.0;
    if !t.0 {
      assert [] + rest.0 == rest.0;
    }
  }

  /**
   * With the corrected UnmakeMove, candidates that fit b and agree with its
   * en-passant target are filtered exactly by SafeMoves, and b comes back.
   */
  lemma {:induction false} CorrectedFilter(k: KeyTable, b: Board, ms: seq<Move>)
    requires WellFormed(b.bits)
    requires forall m <- ms :: Generated(m, b.whiteToMove) && Fits(b, m) && Coherent(b, m)
    ensures LegalFilter(k, b, ms, Corrected) == (SafeMoves(k, b, ms), b)
    decreases |ms|
  {
    if |ms| > 0 {
      var t := Try(k, b, ms[0], Corrected);
      TryCorrected(k, b, ms[0]);
      TryKeeps(k, b, ms[0], Corrected);
      assert forall m <- ms[1..] :: m in ms;
      CorrectedFilter(k, b, ms[1..]);
      FilterStep(k, b, ms, Corrected);
    }
  }

  /**
   * UnmakeMove as written gives the same result while every candidate's rank
   * test agrees with MakeMove's en-passant test.
   */
  lemma {:induction false} AsWrittenFilter(k: KeyTable, b: Board, ms: seq<Move>)
    requires WellFormed(b.bits)
    requires forall m <- ms :: Generated(m, b.whiteToMove) && Fits(b, m)
    requires forall m <- ms :: EpOnUnmakeAsWritten(m) == EpCaptureOnMake(b, m)
    ensures LegalFilter(k, b, ms, AsWritten) == (SafeMoves(k, b, ms), b)
    decreases |ms|
  {
    if |ms| > 0 {
      var t := Try(k, b, ms[0], AsWritten);
      TryAsWritten(k, b, ms[0]);
      TryKeeps(k, b, ms[0], AsWritten);
      assert forall m <- ms[1..] :: m in ms;
      AsWrittenFilter(k, b, ms[1..]);
      FilterStep(k, b, ms, AsWritten);
    }
  }

  /**
   * The first candidate whose rank test disagrees leaves a different board,
   * on which every later candidate is then tried.
   */
  lemma AsWrittenFilterDiverges(k: KeyTable, b: Board, ms: seq<Move>)
    requires WellFormed(b.bits) && |ms| > 0
    requires forall m <- ms :: Generated(m, b.whiteToMove)
    requires Fits(b, ms[0]) && EpOnUnmakeAsWritten(ms[0]) != EpCaptureOnMake(b, ms[0])
    ensures Try(k, b, ms[0], AsWritten).1 != b
    ensures LegalFilter(k, b, ms, AsWritten).1 == LegalFilter(k, Try(k, b, ms[0], AsWritten).1, ms[1..], AsWritten).1
  {
    TryAsWritten(k, b, ms[0]);
  }

  /** On a consistent board the corrected filter keeps exactly the safe candidates and leaves the board as it was. */
  lemma CorrectedPseudoLegalFilter(k: KeyTable, b: Board, rules: Rules)
    requires Consistent(b)
    ensures (PseudoLegalGenerated(b, rules); LegalFilter(k, b, PseudoLegal(b, rules), Corrected) == (SafeMoves(k, b, PseudoLegal(b, rules)), b))
  {
    PseudoLegalGenerated(b, rules);
    forall m <- PseudoLegal(b, rules)
      ensures Fits(b, m) && Coherent(b, m)
    {
      PseudoLegalFits(b, rules, m);
    }
    CorrectedFilter(k, b, PseudoLegal(b, rules));
  }

  // ---------------------------------------------------------------------------
  // GenerateLegalMoves and GetGameResult

  /** A candidate of the board whose move leaves the mover's king safe. */
  predicate SafeCandidate(k: KeyTable, b: Board, rules: Rules, m: Move) {
    m in PseudoLegal(b, rules) && Generated(m, b.whiteToMove) && Safe(k, b, m)
  }

  /** When every held right has its king at home, the moves the filter keeps have distinct keys. */
  lemma FilteredDistinct(k: KeyTable, b: Board, rules: Rules)
    requires WellFormed(b.bits) && RightsAtHome(b)
    ensures (PseudoLegalGenerated(b, rules); DistinctKeys(LegalFilter(k, b, PseudoLegal(b, rules), rules).0))
  {
    PseudoLegalGenerated(b, rules);
    PseudoLegalDistinctKeys(b, rules);
    LegalFilterDistinct(k, b, PseudoLegal(b, rules), rules);
  }

  /**
   * GenerateLegalMoves: the filtered candidates, sorted, and the board the
   * filter leaves behind.
   */
  function GenerateLegalMoves(k: KeyTable, b: Board, rules: Rules): (r: (seq<Move>, Board))
    ensures Sorted(r.0)
    ensures WellFormed(b.bits) && RightsAtHome(b) ==> forall i, j :: 0 <= i < j < |r.0| ==> Before(r.0[i], r.0[j])
    ensures forall m <- r.0 :: m in PseudoLegal(b, rules)
    ensures r.1.whiteToMove == b.whiteToMove && r.1.undo == b.undo
  {
    PseudoLegalGenerated(b, rules);
    var f := LegalFilter(k, b, PseudoLegal(b, rules), rules);
    var sorted := SortMoves(f.0);
    assert WellFormed(b.bits) && RightsAtHome(b) ==> forall i, j :: 0 <= i < j < |sorted| ==> Before(sorted[i], sorted[j]) by {
      if WellFormed(b.bits) && RightsAtHome(b) {
        FilteredDistinct(k, b, rules);
        DistinctKeysPermutation(f.0, sorted);
        StrictlySorted(sorted);
      }
    }
    assert forall m <- sorted :: m in PseudoLegal(b, rules) by {
      forall m <- sorted ensures m in PseudoLegal(b, rules) {
        SortMovesMembers(f.0, m);
        LegalFilterSubset(k, b, PseudoLegal(b, rules), rules, m);
      }
    }
    (sorted, f.1)
  }

  /**
   * On a consistent board, with the corrected rules, the legal moves are
   * exactly the safe candidates and the board comes back unchanged.
   */
  lemma LegalMovesExact(k: KeyTable, b: Board, m: Move)
    requires Consistent(b)
    ensures GenerateLegalMoves(k, b, Corrected).1 == b
    ensures m in GenerateLegalMoves(k, b, Corrected).0 <==> SafeCandidate(k, b, Corrected, m)
  {
    CorrectedPseudoLegalFilter(k, b, Corrected);
    PseudoLegalGenerated(b, Corrected);
    var ms := PseudoLegal(b, Corrected);
    SortMovesMembers(SafeMoves(k, b, ms), m);
    SafeMovesMembers(k, b, ms, m);
  }

  /** The side that lost when the side to move has no move and is in check. */
  function Loss(wtm: bool): GameResult {
    if wtm then BlackWin else WhiteWin
  }

  /**
   * The result read off the generator's output: Ongoing while there is a
   * legal move; otherwise the side to move has lost if it is in check on the
   * board the generator left, and the game is drawn if not.
   */
  function Outcome(moves: seq<Move>, after: Board): (r: GameResult)
    ensures r != Loss(!after.whiteToMove)
  {
    if |moves| > 0 then Ongoing
    else if IsInCheck(after, after.whiteToMove) then Loss(after.whiteToMove)
    else Draw
  }

  /** GetGameResult: the outcome of GenerateLegalMoves, and the board it leaves. */
  function GetGameResult(k: KeyTable, b: Board, rules: Rules): (r: (GameResult, Board))
    ensures r.1.whiteToMove == b.whiteToMove
    ensures r.0 != Loss(!b.whiteToMove)
  {
    var g := GenerateLegalMoves(k, b, rules);
    (Outcome(g.0, g.1), g.1)
  }

  /** No candidate leaves the mover's king safe. */
  ghost predicate Stuck(k: KeyTable, b: Board, rules: Rules) {
    forall m :: !SafeCandidate(k, b, rules, m)
  }

  /** With no legal move on a consistent board, no candidate is safe. */
  lemma NoLegalMoves(k: KeyTable, b: Board)
    requires Consistent(b)
    ensures |GenerateLegalMoves(k, b, Corrected).0| == 0 <==> Stuck(k, b, Corrected)
  {
    var g := GenerateLegalMoves(k, b, Corrected);
    if |g.0| > 0 {
      LegalMovesExact(k, b, g.0[0]);
    } else {
      forall m ensures !SafeCandidate(k, b, Corrected, m) {
        LegalMovesExact(k, b, m);
      }
    }
  }

  /** On a consistent board, with the corrected rules, GetGameResult leaves the board unchanged. */
  lemma GameResultBoard(k: KeyTable, b: Board)
    requires Consistent(b)
    ensures GetGameResult(k, b, Corrected).1 == b
  {
    LegalMovesExact(k, b, DefaultMove);
  }

  /** The game goes on exactly when some candidate is safe. */
  lemma GameResultOngoing(k: KeyTable, b: Board)
    requires Consistent(b)
    ensures GetGameResult(k, b, Corrected).0 == Ongoing <==> !Stuck(k, b, Corrected)
  {
    NoLegalMoves(k, b);
  }

  /** Without a safe candidate, the side to move has lost exactly when it is in check. */
  lemma GameResultCheckmate(k: KeyTable, b: Board)
    requires Consistent(b)
    ensures GetGameResult(k, b, Corrected).0 == Loss(b.whiteToMove) <==>
              Stuck(k, b, Corrected) && IsInCheck(b, b.whiteToMove)
  {
    GameResultBoard(k, b);
    NoLegalMoves(k, b);
  }

  /** Without a safe candidate, the game is drawn exactly when the side to move is not in check. */
  lemma GameResultStalemate(k: KeyTable, b: Board)
    requires Consistent(b)
    ensures GetGameResult(k, b, Corrected).0 == Draw <==>
              Stuck(k, b, Corrected) && !IsInCheck(b, b.whiteToMove)
  {
    GameResultBoard(k, b);
    NoLegalMoves(k, b);
  }

  // ---------------------------------------------------------------------------
  // The en-passant ranks of the pawn generator

  /**
   * As written, white is offered an en-passant target only on rank index 4,
   * but MakeMove puts black's double-push target on rank index 5, so white is
   * never offered an en-passant capture after a black double push.
   */
  lemma WhiteNeverCapturesEnPassant(m: Move, sq: Square)
    requires NextEpTarget(m) != -1 && Rank(m.from) == 6
    ensures !EpAdded(AsWritten, sq, true, NextEpTarget(m))
  {
  }

  /**
   * As written, a black pawn on rank index 4 is offered the target on rank
   * index 2: a jump of two ranks, not one of its capture squares.
   */
  lemma BlackEnPassantJumpsTwoRanks(sq: Square, ep: Square)
    requires EpAdded(AsWritten, sq, false, ep)
    ensures Rank(sq) == Rank(ep) + 2 && ep !in PawnCaptures(sq, false)
  {
    PawnTablesExact(sq, ep, false);
  }

  /** The black pawn on d5 is offered e3, the target after the white double push e2-e4. */
  lemma BlackEnPassantExample()
    ensures NextEpTarget(Move(12, 28, Pawn)) == 20
    ensures EpAdded(AsWritten, 35, false, 20)
    ensures 20 !in PawnCaptures(35, false)
  {
    BlackEnPassantJumpsTwoRanks(35, 20);
  }

  /**
   * Corrected, the target is offered exactly when it is one of the pawn's
   * capture squares on the rank a double push of the other side skips.
   */
  lemma CorrectedEnPassantIsCapture(sq: Square, wtm: bool, ep: Square)
    ensures EpAdded(Corrected, sq, wtm, ep) <==> ep in PawnCaptures(sq, wtm) && Rank(ep) == (if wtm then 5 else 2)
  {
    PawnTablesExact(sq, ep, wtm);
  }

  /** Corrected, a pawn beside a pawn that has just double-pushed is offered the skipped square. */
  lemma CorrectedEnPassantAfterDoublePush(m: Move, sq: Square)
    requires NextEpTarget(m) != -1
    requires Rank(sq) == Rank(m.to) && FileDiff(sq, m.from) == 1
    ensures EpAdded(Corrected, sq, Rank(m.from) == 6, NextEpTarget(m))
  {
  }
}
