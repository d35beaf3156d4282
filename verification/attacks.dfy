/**
 * Attack detection of board.cpp: whether a square is attacked by a colour,
 * and whether a side's king is in check.
 */
module Attacks {
  import opened Squares
  import opened Pieces
  import opened Position
  import opened Tables

  /** The colour has a piece of type pt on sq. */
  predicate Has(b: Board, pt: Piece, white: bool, sq: Square)
    requires pt != NoPiece
  {
    Bit(PlaneOf(pt, white), sq) in b.bits
  }

  /**
   * One iteration of IsSquareAttacked's loop: some piece of the colour on sq
   * reaches target through its table, the sliders with the board's full
   * occupancy.
   */
  predicate AttacksFrom(b: Board, sq: Square, target: Square, byWhite: bool) {
    var occ := AllPieces(b);
    (Has(b, Pawn, byWhite, sq) && target in PawnCaptures(sq, byWhite))
    || (Has(b, Knight, byWhite, sq) && target in KnightMoves(sq))
    || (Has(b, Bishop, byWhite, sq) && target in BishopMoves(sq, occ))
    || (Has(b, Rook, byWhite, sq) && target in RookMoves(sq, occ))
    || (Has(b, Queen, byWhite, sq) && target in QueenMoves(sq, occ))
    || (Has(b, King, byWhite, sq) && target in KingMoves(sq))
  }

  /**
   * IsSquareAttacked: the loop over the 64 squares returns true at the first
   * attacker, so the table-driven test holds exactly when some piece of the
   * colour attacks the target in board geometry.
   */
  predicate IsSquareAttacked(b: Board, target: Square, byWhite: bool)
    ensures IsSquareAttacked(b, target, byWhite) <==> exists sq: Square :: GeometricAttack(b, sq, target, byWhite)
  {
    AttackedExact(b, target, byWhite);
    exists sq: Square :: AttacksFrom(b, sq, target, byWhite)
  }

  /**
   * The attack relation in board geometry: a pawn attacks the two squares
   * diagonally in front of it, a knight its (2, 1) jumps, a king its
   * neighbours, and a slider the squares along its lines up to and including
   * the first occupied one.
   */
  predicate GeometricAttack(b: Board, sq: Square, target: Square, byWhite: bool) {
    var occ := AllPieces(b);
    (Has(b, Pawn, byWhite, sq) && FileDiff(target, sq) == 1 && Rank(target) == Rank(sq) + Forward(byWhite))
    || (Has(b, Knight, byWhite, sq) && KnightStep(RankDiff(target, sq), FileDiff(target, sq)))
    || (Has(b, Bishop, byWhite, sq) && exists off :: off in BishopDirections && Reaches(sq, off, target, occ))
    || (Has(b, Rook, byWhite, sq) && exists off :: off in RookDirections && Reaches(sq, off, target, occ))
    || (Has(b, Queen, byWhite, sq) && exists off :: off in QueenDirections && Reaches(sq, off, target, occ))
    || (Has(b, King, byWhite, sq) && target != sq && RankDiff(target, sq) <= 1 && FileDiff(target, sq) <= 1)
  }

  lemma AttacksFromExact(b: Board, sq: Square, target: Square, byWhite: bool)
    ensures AttacksFrom(b, sq, target, byWhite) <==> GeometricAttack(b, sq, target, byWhite)
  {
    PawnTablesExact(sq, target, byWhite);
    KnightTableExact(sq, target);
    KingTableExact(sq, target);
    SlidingExact(sq, AllPieces(b), target);
  }

  /** The table-driven test agrees with the geometric attack relation on every square. */
  lemma AttackedExact(b: Board, target: Square, byWhite: bool)
    ensures (exists sq: Square :: AttacksFrom(b, sq, target, byWhite)) <==> exists sq: Square :: GeometricAttack(b, sq, target, byWhite)
  {
    forall sq: Square
      ensures AttacksFrom(b, sq, target, byWhite) <==> GeometricAttack(b, sq, target, byWhite)
    {
      AttacksFromExact(b, sq, target, byWhite);
    }
  }

  // ---------------------------------------------------------------------------
  // Check

  /** Every non-empty set of squares has a least element. */
  lemma {:induction false} Least(s: set<Square>) returns (m: Square)
    requires s != {}
    ensures m in s && forall x :: x in s ==> m <= x
    decreases |s|
  {
    var y :| y in s;
    var rest := s - {y};
    if rest == {} {
      m := y;
      assert s == {y};
    } else {
      var m' := Least(rest);
      m := if y < m' then y else m';
      assert s == rest + {y};
    }
  }

  lemma LeastExists(s: set<Square>)
    requires s != {}
    ensures exists m :: m in s && forall x :: x in s ==> m <= x
  {
    var m := Least(s);
  }

  /** GetLSB: the lowest square of a bitboard, -1 when it is empty. */
  function Lowest(s: set<Square>): (r: int)
    ensures s == {} <==> r == -1
    ensures r != -1 ==> r in s && forall x :: x in s ==> r <= x
  {
    if s == {} then -1
    else
      LeastExists(s);
      var m :| m in s && forall x :: x in s ==> m <= x;
      m
  }

  /** The squares of one bitboard. */
  function PieceSquares(b: Board, pt: Piece, white: bool): (s: set<Square>)
    requires pt != NoPiece
    ensures forall sq: Square :: sq in s <==> Has(b, pt, white, sq)
  {
    set sq: Square | 0 <= sq < 64 && Has(b, pt, white, sq)
  }

  /**
   * IsInCheck: false without a king; otherwise whether the lowest king square
   * is attacked by the other colour. A side in check has an attacked king, and
   * a side with no king is never in check.
   */
  predicate IsInCheck(b: Board, white: bool)
    ensures IsInCheck(b, white) ==> exists k: Square :: Has(b, King, white, k) && IsSquareAttacked(b, k, !white)
    ensures (forall sq: Square :: !Has(b, King, white, sq)) ==> !IsInCheck(b, white)
  {
    var ks := PieceSquares(b, King, white);
    assert (forall sq: Square :: !Has(b, King, white, sq)) ==> ks == {};
    var k := Lowest(ks);
    k >= 0 && IsSquareAttacked(b, k, !white)
  }

  /** With a single king, being in check is exactly that king's square being attacked. */
  lemma SingleKingCheck(b: Board, white: bool, k: Square)
    requires Has(b, King, white, k)
    requires forall sq: Square :: Has(b, King, white, sq) ==> sq == k
    ensures IsInCheck(b, white) <==> IsSquareAttacked(b, k, !white)
  {
    assert PieceSquares(b, King, white) == {k};
  }

  /** With several kings only the lowest counts: a check on a higher one is not seen. */
  lemma LowestKingDecides(b: Board, white: bool, k: Square, k': Square)
    requires Has(b, King, white, k) && forall sq: Square :: Has(b, King, white, sq) ==> k <= sq
    requires Has(b, King, white, k') && IsSquareAttacked(b, k', !white)
    requires !IsSquareAttacked(b, k, !white)
    ensures !IsInCheck(b, white)
  {
    assert Lowest(PieceSquares(b, King, white)) == k;
  }
}
