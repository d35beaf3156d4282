/**
 * The precomputed move tables of movegen.cpp and the ray casting behind the
 * sliding pieces. A U64 bitboard of targets is the set of squares whose bit
 * is set.
 */
module Tables {
  import opened Squares

  /** `abs` on int. */
  function Abs(x: int): nat {
    if x < 0 then -x else x
  }

  function RankDiff(a: Square, b: Square): nat {
    Abs(Rank(a) - Rank(b))
  }

  function FileDiff(a: Square, b: Square): nat {
    Abs(File(a) - File(b))
  }

  // ---------------------------------------------------------------------------
  // Jumping pieces

  /**
   * GenerateMoves: the squares square + offsets[i] that lie on the board and
   * whose rank and file distances from square pass the validity test.
   */
  function GenerateMoves(sq: Square, offsets: seq<int>, valid: (nat, nat) -> bool): (s: set<Square>)
    ensures forall t: Square :: t in s <==> (t - sq) in offsets && valid(RankDiff(t, sq), FileDiff(t, sq))
  {
    set t: Square | 0 <= t < 64 && (t - sq) in offsets && valid(RankDiff(t, sq), FileDiff(t, sq))
  }

  const KingOffsets: seq<int> := [1, 9, 8, 7, -1, -9, -8, -7]
  const KnightOffsets: seq<int> := [17, 15, 10, 6, -6, -10, -15, -17]

  predicate KingStep(rankDiff: nat, fileDiff: nat) {
    rankDiff <= 1 && fileDiff <= 1
  }

  predicate KnightStep(rankDiff: nat, fileDiff: nat) {
    (rankDiff == 2 && fileDiff == 1) || (rankDiff == 1 && fileDiff == 2)
  }

  /** `kingMoves[square]` as InitKingMoves fills it: only neighbouring squares, never sq itself. */
  function KingMoves(sq: Square): (s: set<Square>)
    ensures forall t :: t in s ==> t != sq && RankDiff(t, sq) <= 1 && FileDiff(t, sq) <= 1
  {
    GenerateMoves(sq, KingOffsets, KingStep)
  }

  /** `knightMoves[square]` as InitKnightMoves fills it: only squares a (2, 1) jump away. */
  function KnightMoves(sq: Square): (s: set<Square>)
    ensures forall t :: t in s ==> KnightStep(RankDiff(t, sq), FileDiff(t, sq))
  {
    GenerateMoves(sq, KnightOffsets, KnightStep)
  }

  /** A square's index is eight times its rank plus its file, so index differences split into rank and file parts. */
  lemma IndexDifference(t: Square, sq: Square)
    ensures t - sq == 8 * (Rank(t) - Rank(sq)) + (File(t) - File(sq))
  {
    SquareIsRankFile(t);
    SquareIsRankFile(sq);
  }

  /** The king table holds exactly the other squares at Chebyshev distance 1: no target wraps across an edge. */
  lemma KingTableExact(sq: Square, t: Square)
    ensures t in KingMoves(sq) <==> t != sq && RankDiff(t, sq) <= 1 && FileDiff(t, sq) <= 1
  {
    IndexDifference(t, sq);
    var dr, df := Rank(t) - Rank(sq), File(t) - File(sq);
    if t != sq && RankDiff(t, sq) <= 1 && FileDiff(t, sq) <= 1 {
      assert -1 <= dr <= 1 && -1 <= df <= 1;
      assert t - sq == 8 * dr + df;
      assert t - sq in KingOffsets by {
        if dr == 1 {
          assert KingOffsets[2 - df] == t - sq;
        } else if dr == 0 {
          assert KingOffsets[if df == 1 then 0 else 4] == t - sq;
        } else {
          assert KingOffsets[6 + df] == t - sq;
        }
      }
    }
  }

  /** The knight table holds exactly the squares at rank and file distance (2, 1) or (1, 2). */
  lemma KnightTableExact(sq: Square, t: Square)
    ensures t in KnightMoves(sq) <==> KnightStep(RankDiff(t, sq), FileDiff(t, sq))
  {
    IndexDifference(t, sq);
  }

  // ---------------------------------------------------------------------------
  // Pawns

  /** The square dr ranks and df files from sq, when it is on the board, has that rank and file. */
  lemma Shift(sq: Square, dr: int, df: int)
    requires 0 <= Rank(sq) + dr < 8 && 0 <= File(sq) + df < 8
    ensures 0 <= sq + 8 * dr + df < 64
    ensures Rank(sq + 8 * dr + df) == Rank(sq) + dr && File(sq + 8 * dr + df) == File(sq) + df
  {
    SquareIsRankFile(sq);
    RankFileOf(sq + 8 * dr + df, Rank(sq) + dr, File(sq) + df);
  }

  /** `whitePawnMoves` / `blackPawnMoves`: one step forward off the last rank, two from the pawn's start rank. */
  function PawnMoves(sq: Square, white: bool): (s: set<Square>)
    ensures forall t :: t in s ==>
              File(t) == File(sq) && (Rank(t) == Rank(sq) + Forward(white) || Rank(t) == Rank(sq) + 2 * Forward(white))
  {
    if white then
      if Rank(sq) < 7 then
        Shift(sq, 1, 0);
        {sq + 8} + (if Rank(sq) == 1 then Shift(sq, 2, 0); {sq + 16} else {})
      else {}
    else
      if Rank(sq) > 0 then
        Shift(sq, -1, 0);
        {sq - 8} + (if Rank(sq) == 6 then Shift(sq, -2, 0); {sq - 16} else {})
      else {}
  }

  /** `whitePawnCaptures` / `blackPawnCaptures`: the forward diagonals, guarded at the a- and h-files. */
  function PawnCaptures(sq: Square, white: bool): (s: set<Square>)
    ensures forall t :: t in s ==> FileDiff(t, sq) == 1 && Rank(t) == Rank(sq) + Forward(white)
  {
    if white then
      if Rank(sq) < 7 then
        (if File(sq) < 7 then Shift(sq, 1, 1); {sq + 9} else {})
        + (if File(sq) > 0 then Shift(sq, 1, -1); {sq + 7} else {})
      else {}
    else
      if Rank(sq) > 0 then
        (if File(sq) < 7 then Shift(sq, -1, 1); {sq - 7} else {})
        + (if File(sq) > 0 then Shift(sq, -1, -1); {sq - 9} else {})
      else {}
  }

  /** The rank a pawn of the colour advances towards. */
  function Forward(white: bool): int {
    if white then 1 else -1
  }

  /**
   * A pawn pushes one rank forward on its file, and two only from its start
   * rank (index 1 for white, 6 for black); it captures one rank forward on an
   * adjacent file.
   */
  lemma PawnTablesExact(sq: Square, t: Square, white: bool)
    ensures t in PawnMoves(sq, white) <==>
              File(t) == File(sq) && (Rank(t) == Rank(sq) + Forward(white)
                || (Rank(sq) == (if white then 1 else 6) && Rank(t) == Rank(sq) + 2 * Forward(white)))
    ensures t in PawnCaptures(sq, white) <==> FileDiff(t, sq) == 1 && Rank(t) == Rank(sq) + Forward(white)
  {
    IndexDifference(t, sq);
  }

  /** The square seen from the other side of the board: same file, rank 8 - rank. */
  function Mirror(sq: Square): Square {
    At(7 - Rank(sq), File(sq))
  }

  /** The black tables are the white ones with the board turned round. */
  lemma PawnTablesMirror(sq: Square, t: Square)
    ensures t in PawnMoves(sq, false) <==> Mirror(t) in PawnMoves(Mirror(sq), true)
    ensures t in PawnCaptures(sq, false) <==> Mirror(t) in PawnCaptures(Mirror(sq), true)
  {
    PawnTablesExact(sq, t, false);
    PawnTablesExact(Mirror(sq), Mirror(t), true);
  }

  // ---------------------------------------------------------------------------
  // Sliding pieces

  const RookDirections: seq<int> := [1, -1, 8, -8]
  const BishopDirections: seq<int> := [9, -9, 7, -7]
  const QueenDirections: seq<int> := [1, -1, 8, -8, 9, -9, 7, -7]

  /**
   * The loops' edge test for the target `distance` steps along `offset`:
   * along a rank it must stay on the rank, along a file on the file, and
   * along a diagonal it must move `distance` ranks and files.
   */
  predicate StepOk(sq: Square, offset: int, distance: int, t: Square) {
    var rd, fd := RankDiff(t, sq), FileDiff(t, sq);
    if offset == 1 || offset == -1 then rd == 0 && fd == distance
    else if offset == 8 || offset == -8 then fd == 0 && rd == distance
    else rd == distance && fd == distance
  }

  /**
   * One direction of GenerateSlidingMovesBlocked from `distance` on: stop at
   * distance 8, off the board or at a failed edge test; otherwise take the
   * target and stop after it when it is occupied.
   */
  function RayFrom(sq: Square, offset: int, distance: int, occ: set<Square>): set<Square>
    requires distance >= 1
    decreases 8 - distance
  {
    if distance >= 8 then {}
    else
      var t := sq + offset * distance;
      if t < 0 || t >= 64 then {}
      else if !StepOk(sq, offset, distance, t) then {}
      else {t} + (if t in occ then {} else RayFrom(sq, offset, distance + 1, occ))
  }

  /** One direction of GenerateSlidingMoves, which has no occupancy test. */
  function FreeRayFrom(sq: Square, offset: int, distance: int): set<Square>
    requires distance >= 1
    decreases 8 - distance
  {
    if distance >= 8 then {}
    else
      var t := sq + offset * distance;
      if t < 0 || t >= 64 then {}
      else if !StepOk(sq, offset, distance, t) then {}
      else {t} + FreeRayFrom(sq, offset, distance + 1)
  }

  /** GenerateSlidingMovesBlocked: the union of the rays in the given directions. */
  function SlideBlocked(sq: Square, dirs: seq<int>, occ: set<Square>): set<Square>
    decreases |dirs|
  {
    if |dirs| == 0 then {} else RayFrom(sq, dirs[0], 1, occ) + SlideBlocked(sq, dirs[1..], occ)
  }

  /**
   * GenerateSlidingMoves, which fills the rook, bishop and queen tables: the
   * same squares as blocked generation on an empty board.
   */
  function SlideFree(sq: Square, dirs: seq<int>): (s: set<Square>)
    ensures s == SlideBlocked(sq, dirs, {})
    decreases |dirs|
  {
    if |dirs| == 0 then {}
    else
      FreeRayIsEmptyBoardRay(sq, dirs[0], 1);
      FreeRayFrom(sq, dirs[0], 1) + SlideFree(sq, dirs[1..])
  }

  /**
   * GetRookMoves: the table when the occupancy is empty, blocked generation
   * otherwise; the shortcut agrees with blocked generation.
   */
  function RookMoves(sq: Square, occ: set<Square>): (s: set<Square>)
    ensures s == SlideBlocked(sq, RookDirections, occ)
  {
    if occ == {} then SlideFree(sq, RookDirections) else SlideBlocked(sq, RookDirections, occ)
  }

  /** GetBishopMoves, the same shortcut over the diagonal directions. */
  function BishopMoves(sq: Square, occ: set<Square>): (s: set<Square>)
    ensures s == SlideBlocked(sq, BishopDirections, occ)
  {
    if occ == {} then SlideFree(sq, BishopDirections) else SlideBlocked(sq, BishopDirections, occ)
  }

  /** GetQueenMoves, the same shortcut over all eight directions. */
  function QueenMoves(sq: Square, occ: set<Square>): (s: set<Square>)
    ensures s == SlideBlocked(sq, QueenDirections, occ)
  {
    if occ == {} then SlideFree(sq, QueenDirections) else SlideBlocked(sq, QueenDirections, occ)
  }

  /** One direction of the precomputed table is the blocked ray of an empty board. */
  lemma {:induction false} FreeRayIsEmptyBoardRay(sq: Square, offset: int, distance: int)
    requires distance >= 1
    ensures FreeRayFrom(sq, offset, distance) == RayFrom(sq, offset, distance, {})
    decreases 8 - distance
  {
    if distance < 8 {
      FreeRayIsEmptyBoardRay(sq, offset, distance + 1);
    }
  }

  // ---------------------------------------------------------------------------
  // Ray geometry

  predicate IsDirection(offset: int) {
    offset in QueenDirections
  }

  /** The rank step of a direction: +1 towards rank 8, -1 towards rank 1. */
  function RankStep(offset: int): int {
    if offset == 8 || offset == 9 || offset == 7 then 1
    else if offset == -8 || offset == -9 || offset == -7 then -1
    else 0
  }

  /** The file step of a direction: +1 towards the h-file, -1 towards the a-file. */
  function FileStep(offset: int): int {
    if offset == 1 || offset == 9 || offset == -7 then 1
    else if offset == -1 || offset == -9 || offset == 7 then -1
    else 0
  }

  /** x moved j units in the direction of step. */
  function Along(x: int, step: int, j: int): int {
    if step > 0 then x + j else if step < 0 then x - j else x
  }

  /** t lies j steps from sq along the direction. */
  predicate OnRay(sq: Square, offset: int, j: int, t: Square) {
    Rank(t) == Along(Rank(sq), RankStep(offset), j) && File(t) == Along(File(sq), FileStep(offset), j)
  }

  /** The square j steps from sq along the direction exists. */
  predicate InBoard(sq: Square, offset: int, j: int) {
    0 <= Along(Rank(sq), RankStep(offset), j) < 8 && 0 <= Along(File(sq), FileStep(offset), j) < 8
  }

  /** No square strictly before step j (from step `from` on) is occupied. */
  predicate Clear(sq: Square, offset: int, from: int, j: int, occ: set<Square>) {
    forall i, s: Square :: from <= i < j && OnRay(sq, offset, i, s) ==> s !in occ
  }

  /** t is reached from step `from` on: it lies on the ray and nothing before it blocks. */
  predicate ReachedFrom(sq: Square, offset: int, from: int, t: Square, occ: set<Square>) {
    exists j :: from <= j < 8 && OnRay(sq, offset, j, t) && Clear(sq, offset, from, j, occ)
  }

  /** A slider on sq attacks t along the direction: t is 1 to 7 steps away and no square in between is occupied. */
  predicate Reaches(sq: Square, offset: int, t: Square, occ: set<Square>) {
    ReachedFrom(sq, offset, 1, t, occ)
  }

  lemma RankFileOf(t: Square, q: int, r: int)
    requires t == 8 * q + r && 0 <= r < 8
    ensures Rank(t) == q && File(t) == r
  {
  }

  lemma OffsetSplit(offset: int, d: int)
    requires IsDirection(offset)
    ensures offset * d == 8 * Along(0, RankStep(offset), d) + Along(0, FileStep(offset), d)
  {
  }

  /**
   * The loops' range and edge tests pass exactly when the square `distance`
   * steps along the direction exists, and then the computed index is that
   * square: the tests rule out every wrap across the a- or h-file.
   */
  lemma StepExact(sq: Square, offset: int, d: int)
    requires IsDirection(offset) && 1 <= d < 8
    ensures (0 <= sq + offset * d < 64 && StepOk(sq, offset, d, sq + offset * d)) <==> InBoard(sq, offset, d)
    ensures InBoard(sq, offset, d) ==> OnRay(sq, offset, d, sq + offset * d)
  {
    var r, f := Rank(sq), File(sq);
    SquareIsRankFile(sq);
    OffsetSplit(offset, d);
    var rr, ff := Along(r, RankStep(offset), d), Along(f, FileStep(offset), d);
    var t := sq + offset * d;
    assert t == 8 * rr + ff;
    if 0 <= t < 64 {
      if 0 <= ff < 8 {
        RankFileOf(t, rr, ff);
      } else if ff >= 8 {
        RankFileOf(t, rr + 1, ff - 8);
      } else {
        RankFileOf(t, rr - 1, ff + 8);
      }
    }
  }

  /** A square on the ray at step j has every earlier step on the board too. */
  lemma Convex(sq: Square, offset: int, d: int, j: int, t: Square)
    requires 0 <= d <= j && OnRay(sq, offset, j, t)
    ensures InBoard(sq, offset, d)
  {
  }

  /** The square at a given step is unique. */
  lemma OnRayUnique(sq: Square, offset: int, j: int, t: Square, u: Square)
    requires OnRay(sq, offset, j, t) && OnRay(sq, offset, j, u)
    ensures t == u
  {
    SquareIsRankFile(t);
    SquareIsRankFile(u);
  }

  /**
   * Blocked ray casting from step d on takes exactly the squares on the ray
   * that nothing before them blocks: it includes the first occupied square
   * and nothing beyond it.
   */
  lemma {:induction false} RayFromExact(sq: Square, offset: int, d: int, occ: set<Square>, t: Square)
    requires IsDirection(offset) && 1 <= d
    ensures t in RayFrom(sq, offset, d, occ) <==> ReachedFrom(sq, offset, d, t, occ)
    decreases 8 - d
  {
    if d < 8 {
      var t0 := sq + offset * d;
      StepExact(sq, offset, d);
      if !InBoard(sq, offset, d) {
        if ReachedFrom(sq, offset, d, t, occ) {
          var j :| d <= j < 8 && OnRay(sq, offset, j, t) && Clear(sq, offset, d, j, occ);
          Convex(sq, offset, d, j, t);
        }
      } else {
        assert OnRay(sq, offset, d, t0);
        RayFromExact(sq, offset, d + 1, occ, t);
        if t == t0 {
          assert Clear(sq, offset, d, d, occ);
        } else {
          if ReachedFrom(sq, offset, d, t, occ) {
            var j :| d <= j < 8 && OnRay(sq, offset, j, t) && Clear(sq, offset, d, j, occ);
            if j == d {
              OnRayUnique(sq, offset, d, t, t0);
            }
            assert t0 !in occ;
            assert Clear(sq, offset, d + 1, j, occ);
          }
          if t0 !in occ && ReachedFrom(sq, offset, d + 1, t, occ) {
            var j :| d + 1 <= j < 8 && OnRay(sq, offset, j, t) && Clear(sq, offset, d + 1, j, occ);
            forall i, s: Square | d <= i < j && OnRay(sq, offset, i, s)
              ensures s !in occ
            {
              if i == d {
                OnRayUnique(sq, offset, d, s, t0);
              }
            }
            assert Clear(sq, offset, d, j, occ);
          }
        }
      }
    }
  }

  /** A slide in several directions takes exactly the squares some direction reaches. */
  lemma {:induction false} SlideExact(sq: Square, dirs: seq<int>, occ: set<Square>, t: Square)
    requires forall i :: 0 <= i < |dirs| ==> IsDirection(dirs[i])
    ensures t in SlideBlocked(sq, dirs, occ) <==> exists off :: off in dirs && Reaches(sq, off, t, occ)
    decreases |dirs|
  {
    if |dirs| > 0 {
      RayFromExact(sq, dirs[0], 1, occ, t);
      SlideExact(sq, dirs[1..], occ, t);
      if t in SlideBlocked(sq, dirs, occ) {
        if t in RayFrom(sq, dirs[0], 1, occ) {
          assert dirs[0] in dirs;
        } else {
          var off :| off in dirs[1..] && Reaches(sq, off, t, occ);
          assert off in dirs;
        }
      } else {
        forall off | off in dirs
          ensures !Reaches(sq, off, t, occ)
        {
          if off != dirs[0] {
            assert off in dirs[1..];
          }
        }
      }
    }
  }

  /**
   * Rook, bishop and queen targets are exactly the squares one of the
   * piece's directions reaches, whatever the occupancy.
   */
  lemma SlidingExact(sq: Square, occ: set<Square>, t: Square)
    ensures t in RookMoves(sq, occ) <==> exists off :: off in RookDirections && Reaches(sq, off, t, occ)
    ensures t in BishopMoves(sq, occ) <==> exists off :: off in BishopDirections && Reaches(sq, off, t, occ)
    ensures t in QueenMoves(sq, occ) <==> exists off :: off in QueenDirections && Reaches(sq, off, t, occ)
  {
    SlideExact(sq, RookDirections, occ, t);
    SlideExact(sq, BishopDirections, occ, t);
    SlideExact(sq, QueenDirections, occ, t);
  }

  /** A reached square is a different square on the direction's line. */
  lemma ReachesLine(sq: Square, offset: int, t: Square, occ: set<Square>)
    requires IsDirection(offset) && Reaches(sq, offset, t, occ)
    ensures t != sq
    ensures RankStep(offset) == 0 ==> Rank(t) == Rank(sq)
    ensures FileStep(offset) == 0 ==> File(t) == File(sq)
    ensures RankStep(offset) != 0 && FileStep(offset) != 0 ==> RankDiff(t, sq) == FileDiff(t, sq)
  {
  }

  /** Every square a slide reaches lies on the line of one of its directions. */
  lemma SlideLines(sq: Square, dirs: seq<int>, occ: set<Square>, t: Square)
    requires forall i :: 0 <= i < |dirs| ==> IsDirection(dirs[i])
    requires t in SlideBlocked(sq, dirs, occ)
    ensures exists off :: off in dirs && OnLine(sq, off, t)
  {
    SlideExact(sq, dirs, occ, t);
    var off :| off in dirs && Reaches(sq, off, t, occ);
    ReachesLine(sq, off, t, occ);
  }

  /** t is a different square on the line through sq in the direction. */
  predicate OnLine(sq: Square, offset: int, t: Square) {
    t != sq
    && (RankStep(offset) == 0 ==> Rank(t) == Rank(sq))
    && (FileStep(offset) == 0 ==> File(t) == File(sq))
    && (RankStep(offset) != 0 && FileStep(offset) != 0 ==> RankDiff(t, sq) == FileDiff(t, sq))
  }

  lemma RookDirectionsAxial()
    ensures forall off :: off in RookDirections ==> RankStep(off) == 0 || FileStep(off) == 0
  {
  }

  lemma BishopDirectionsDiagonal()
    ensures forall off :: off in BishopDirections ==> RankStep(off) != 0 && FileStep(off) != 0
  {
  }

  /** Rooks stay on their rank or file. */
  lemma RookLines(sq: Square, occ: set<Square>, t: Square)
    ensures t in RookMoves(sq, occ) ==> t != sq && (Rank(t) == Rank(sq) || File(t) == File(sq))
  {
    if t in RookMoves(sq, occ) {
        SlideLines(sq, RookDirections, occ, t);
      RookDirectionsAxial();
    }
  }

  /** Bishops stay on their diagonals. */
  lemma BishopLines(sq: Square, occ: set<Square>, t: Square)
    ensures t in BishopMoves(sq, occ) ==> t != sq && RankDiff(t, sq) == FileDiff(t, sq)
  {
    if t in BishopMoves(sq, occ) {
        SlideLines(sq, BishopDirections, occ, t);
      BishopDirectionsDiagonal();
    }
  }

  lemma QueenDirectionsSplit()
    ensures forall off :: off in QueenDirections <==> off in RookDirections || off in BishopDirections
  {
  }

  /** The queen moves as a rook or a bishop. */
  lemma QueenIsRookOrBishop(sq: Square, occ: set<Square>, t: Square)
    ensures t in QueenMoves(sq, occ) <==> t in RookMoves(sq, occ) || t in BishopMoves(sq, occ)
  {
    SlidingExact(sq, occ, t);
    QueenDirectionsSplit();
    if t in QueenMoves(sq, occ) {
      var off :| off in QueenDirections && Reaches(sq, off, t, occ);
    }
    if t in RookMoves(sq, occ) {
      var off :| off in RookDirections && Reaches(sq, off, t, occ);
    }
    if t in BishopMoves(sq, occ) {
      var off :| off in BishopDirections && Reaches(sq, off, t, occ);
    }
  }
}
