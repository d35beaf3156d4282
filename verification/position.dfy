/**
 * The Board of include/board.hpp and the parts of src/board.cpp that read
 * or rebuild it without playing a move: the twelve piece bitboards, the
 * aggregate boards kept by Update, GetPieceAt, Clear/SetPieceAt, the Zobrist
 * hash (ComputeZobristHash, CastlingEpHash) and the start position.
 *
 * Bitboard `p` holding bit `sq` is the element Bit(p, sq) of one set, where
 * p is the Zobrist column of the board's piece: whitePawns..whiteKings are
 * planes 0..5 and blackPawns..blackKings planes 6..11. The source's checks
 * run through the twelve bitboards in that same order, so "the first bitboard
 * holding sq" is the lowest plane.
 */
module Position {
  import opened Squares
  import opened Pieces
  import opened Zobrist

  datatype Bit = Bit(plane: Plane, sq: Square)

  /** `castlingRights_`: bit0 white kingside, bit1 white queenside, bit2 black kingside, bit3 black queenside. */
  type Rights = x: bv8 | x < 16

  /** `enPassantTarget_`: the square a capturing pawn lands on, or -1. */
  type EpTarget = x: int | -1 <= x < 64

  /** BoardUndoState: what MakeMove saves; the pieces are rebuilt from the Move. */
  datatype Undo = Undo(castling: Rights, epTarget: EpTarget, halfMove: nat)

  /** A Board value; copy and assignment of the C++ class are value copies, as here. */
  datatype Board = Board(bits: set<Bit>, whiteToMove: bool, hash: Hash, castling: Rights,
                         epTarget: EpTarget, halfMove: nat, undo: seq<Undo>)

  function PlaneOf(pt: Piece, white: bool): (p: Plane)
    requires pt != NoPiece
    ensures p == PieceIndex(pt, white)
    ensures (p < 6) == white
  {
    PieceIndex(pt, white)
  }

  function TypeOfPlane(p: Plane): (pt: Piece)
    ensures pt != NoPiece
  {
    p % 6 + 1
  }

  predicate IsWhitePlane(p: Plane) {
    p < 6
  }

  /** Planes and (piece type, colour) pairs are in one-to-one correspondence. */
  lemma PlaneCorrespondence(p: Plane, pt: Piece, white: bool)
    requires pt != NoPiece
    ensures PlaneOf(TypeOfPlane(p), IsWhitePlane(p)) == p
    ensures TypeOfPlane(PlaneOf(pt, white)) == pt && IsWhitePlane(PlaneOf(pt, white)) == white
  {
  }

  /** At most one bitboard holds each square. */
  predicate WellFormed(bits: set<Bit>) {
    forall a, c :: a in bits && c in bits && a.sq == c.sq ==> a == c
  }

  predicate EmptyAt(bits: set<Bit>, sq: Square) {
    forall q: Plane :: Bit(q, sq) !in bits
  }

  function OccupantFrom(bits: set<Bit>, sq: Square, p: nat): (r: int)
    requires p <= 12
    ensures r == -1 || (p <= r < 12 && Bit(r, sq) in bits)
    ensures r == -1 ==> forall q: Plane :: p <= q ==> Bit(q, sq) !in bits
    ensures r != -1 ==> forall q: Plane :: p <= q < r ==> Bit(q, sq) !in bits
    decreases 12 - p
  {
    if p == 12 then -1
    else if Bit(p, sq) in bits then p
    else OccupantFrom(bits, sq, p + 1)
  }

  /**
   * The plane of the first bitboard, in the order white pawns .. black kings,
   * that holds sq, or -1 when none does: the if-chains of GetPieceAt,
   * ComputeZobristHash and GetFen.
   */
  function Occupant(bits: set<Bit>, sq: Square): (r: int)
    ensures -1 <= r < 12
    ensures r == -1 <==> EmptyAt(bits, sq)
    ensures r != -1 ==> Bit(r, sq) in bits && forall q: Plane :: q < r ==> Bit(q, sq) !in bits
  {
    OccupantFrom(bits, sq, 0)
  }

  /** On a well-formed board the occupant is the one plane holding the square. */
  lemma OccupantOfWellFormed(bits: set<Bit>, p: Plane, sq: Square)
    requires WellFormed(bits) && Bit(p, sq) in bits
    ensures Occupant(bits, sq) == p
  {
    var o := Occupant(bits, sq);
    assert Bit(o, sq) in bits;
  }

  /** Occupant reads only the bits of its own square. */
  lemma OccupantLocal(a: set<Bit>, c: set<Bit>, sq: Square)
    requires forall q: Plane :: Bit(q, sq) in a <==> Bit(q, sq) in c
    ensures Occupant(a, sq) == Occupant(c, sq)
  {
    var oa, oc := Occupant(a, sq), Occupant(c, sq);
    if oa != -1 && oc != -1 {
      assert Bit(oa, sq) in c && Bit(oc, sq) in a;
    }
  }

  /** GetPieceAt: the type on sq regardless of colour, NO_PIECE when empty. */
  function GetPieceAt(b: Board, sq: Square): (pt: Piece)
    ensures pt == NoPiece <==> EmptyAt(b.bits, sq)
    ensures pt != NoPiece ==> Bit(PlaneOf(pt, true), sq) in b.bits || Bit(PlaneOf(pt, false), sq) in b.bits
    ensures pt != NoPiece ==>
              exists q: Plane :: Bit(q, sq) in b.bits && TypeOfPlane(q) == pt &&
                                 forall q': Plane :: q' < q ==> Bit(q', sq) !in b.bits
  {
    var o := Occupant(b.bits, sq);
    if o == -1 then NoPiece
    else
      var q: Plane := o;
      PlaneCorrespondence(q, 1, true);
      assert Bit(q, sq) in b.bits && forall q': Plane :: q' < q ==> Bit(q', sq) !in b.bits;
      TypeOfPlane(q)
  }

  /** The squares in bitboards lo..hi-1. */
  function SquaresOf(bits: set<Bit>, lo: int, hi: int): (s: set<Square>)
    ensures forall sq: Square :: sq in s <==> exists q: Plane :: lo <= q < hi && Bit(q, sq) in bits
  {
    set x | x in bits && lo <= x.plane < hi :: x.sq
  }

  /** Update: allWhitePieces, allBlackPieces and allPieces as unions of the piece boards. */
  function WhitePieces(b: Board): set<Square> { SquaresOf(b.bits, 0, 6) }
  function BlackPieces(b: Board): set<Square> { SquaresOf(b.bits, 6, 12) }

  function AllPieces(b: Board): (s: set<Square>)
    ensures s == WhitePieces(b) + BlackPieces(b)
  {
    SquaresOf(b.bits, 0, 12)
  }

  /** The aggregates agree with GetPieceAt: occupied squares, split by the colour of the occupant. */
  lemma AggregatesMatchOccupant(b: Board, sq: Square)
    requires WellFormed(b.bits)
    ensures sq in AllPieces(b) <==> GetPieceAt(b, sq) != NoPiece
    ensures sq in WhitePieces(b) <==> 0 <= Occupant(b.bits, sq) < 6
    ensures sq in BlackPieces(b) <==> 6 <= Occupant(b.bits, sq)
  {
    if sq in AllPieces(b) {
      var q: Plane :| Bit(q, sq) in b.bits;
      OccupantOfWellFormed(b.bits, q, sq);
    }
  }

  /** ClearPieceAt: drop sq from the piece's bitboard; NO_PIECE selects no bitboard, and no other bit changes. */
  function ClearPiece(bits: set<Bit>, sq: Square, pt: Piece, white: bool): (r: set<Bit>)
    ensures pt == NoPiece ==> r == bits
    ensures pt != NoPiece ==>
              Bit(PlaneOf(pt, white), sq) !in r && r - {Bit(PlaneOf(pt, white), sq)} == bits - {Bit(PlaneOf(pt, white), sq)}
  {
    if pt == NoPiece then bits else bits - {Bit(PlaneOf(pt, white), sq)}
  }

  /** SetPieceAt: add sq to the piece's bitboard; NO_PIECE selects no bitboard, and no other bit changes. */
  function SetPiece(bits: set<Bit>, sq: Square, pt: Piece, white: bool): (r: set<Bit>)
    ensures pt == NoPiece ==> r == bits
    ensures pt != NoPiece ==>
              Bit(PlaneOf(pt, white), sq) in r && r - {Bit(PlaneOf(pt, white), sq)} == bits - {Bit(PlaneOf(pt, white), sq)}
  {
    if pt == NoPiece then bits else bits + {Bit(PlaneOf(pt, white), sq)}
  }

  /** Each touches exactly one bit, and SetPiece then ClearPiece on a square the piece did not hold is the identity. */
  lemma ClearSetSingleBit(bits: set<Bit>, sq: Square, pt: Piece, white: bool)
    requires pt != NoPiece
    ensures Bit(PlaneOf(pt, white), sq) !in ClearPiece(bits, sq, pt, white)
    ensures Bit(PlaneOf(pt, white), sq) in SetPiece(bits, sq, pt, white)
    ensures forall x :: x != Bit(PlaneOf(pt, white), sq) ==>
              (x in ClearPiece(bits, sq, pt, white) <==> x in bits) && (x in SetPiece(bits, sq, pt, white) <==> x in bits)
    ensures Bit(PlaneOf(pt, white), sq) !in bits ==> ClearPiece(SetPiece(bits, sq, pt, white), sq, pt, white) == bits
  {
  }

  // ---------------------------------------------------------------------------
  // Zobrist hash

  /** ComputeZobristHash's contribution of one square: the key of its occupant, or nothing. */
  function SquareKey(k: KeyTable, bits: set<Bit>, sq: Square): Hash {
    var o := Occupant(bits, sq);
    if o == -1 then ZeroHash() else k.table[sq][o]
  }

  /** The 64 square keys, square a1 first. */
  function SquareKeys(k: KeyTable, bits: set<Bit>): (hs: seq<Hash>)
    ensures |hs| == 64 && forall sq: Square :: hs[sq] == SquareKey(k, bits, sq)
  {
    seq(64, sq requires 0 <= sq < 64 => SquareKey(k, bits, sq))
  }

  /** The piece part of ComputeZobristHash: the square keys XORed in square order. */
  function PiecesHash(k: KeyTable, bits: set<Bit>): Hash {
    var hs := SquareKeys(k, bits);
    XorPrefix(hs, |hs|)
  }

  /** The square key is the key GetPieceKey gives for the piece GetPieceAt reports, in the occupant's colour. */
  lemma SquareKeyIsPieceKey(k: KeyTable, b: Board, sq: Square)
    requires GetPieceAt(b, sq) != NoPiece
    ensures SquareKey(k, b.bits, sq) == PieceKey(k, sq, GetPieceAt(b, sq), IsWhitePlane(Occupant(b.bits, sq)))
  {
    PlaneCorrespondence(Occupant(b.bits, sq), Pawn, true);
  }

  /** Changing the bits of square s leaves the key of every other square alone. */
  lemma KeysElsewhere(k: KeyTable, a: set<Bit>, c: set<Bit>, s: Square, v: Hash)
    requires forall x: Bit :: x.sq != s ==> (x in a <==> x in c)
    requires SquareKey(k, c, s) == v
    ensures SquareKeys(k, c) == SquareKeys(k, a)[s := v]
  {
    forall t: Square | t != s
      ensures SquareKey(k, a, t) == SquareKey(k, c, t)
    {
      OccupantLocal(a, c, t);
    }
  }

  /** Removing a square's only piece empties it and keeps the board well formed. */
  lemma RemoveWellFormed(a: set<Bit>, p: Plane, s: Square)
    requires WellFormed(a) && Bit(p, s) in a
    ensures WellFormed(a - {Bit(p, s)}) && EmptyAt(a - {Bit(p, s)}, s)
  {
  }

  /** Adding a piece to an empty square makes it the occupant and keeps the board well formed. */
  lemma AddWellFormed(a: set<Bit>, p: Plane, s: Square)
    requires WellFormed(a) && EmptyAt(a, s)
    ensures WellFormed(a + {Bit(p, s)}) && Occupant(a + {Bit(p, s)}, s) == p
  {
    OccupantOfWellFormed(a + {Bit(p, s)}, p, s);
  }

  /** Removing a square's only piece XORs its key out of the hash. */
  lemma RemoveHash(k: KeyTable, a: set<Bit>, p: Plane, s: Square)
    requires WellFormed(a) && Bit(p, s) in a
    ensures WellFormed(a - {Bit(p, s)}) && EmptyAt(a - {Bit(p, s)}, s)
    ensures PiecesHash(k, a - {Bit(p, s)}) == Xor(PiecesHash(k, a), k.table[s][p])
  {
    var c := a - {Bit(p, s)};
    RemoveWellFormed(a, p, s);
    OccupantOfWellFormed(a, p, s);
    KeysElsewhere(k, a, c, s, ZeroHash());
    XorPrefixUpdate(SquareKeys(k, a), s, ZeroHash(), |SquareKeys(k, a)|);
    XorLaws(k.table[s][p], ZeroHash(), ZeroHash());
  }

  /** Adding a piece to an empty square XORs its key into the hash. */
  lemma AddHash(k: KeyTable, a: set<Bit>, p: Plane, s: Square)
    requires WellFormed(a) && EmptyAt(a, s)
    ensures WellFormed(a + {Bit(p, s)}) && Occupant(a + {Bit(p, s)}, s) == p
    ensures PiecesHash(k, a + {Bit(p, s)}) == Xor(PiecesHash(k, a), k.table[s][p])
  {
    var c := a + {Bit(p, s)};
    AddWellFormed(a, p, s);
    KeysElsewhere(k, a, c, s, k.table[s][p]);
    XorPrefixUpdate(SquareKeys(k, a), s, k.table[s][p], |SquareKeys(k, a)|);
    XorLaws(ZeroHash(), k.table[s][p], ZeroHash());
    XorLaws(k.table[s][p], ZeroHash(), ZeroHash());
  }

  function CastlingBit(i: int): (m: bv8)
    requires 0 <= i < 4
    ensures m == 1 || m == 2 || m == 4 || m == 8
  {
    if i == 0 then 1 else if i == 1 then 2 else if i == 2 then 4 else 8
  }

  predicate HasRight(c: Rights, i: int)
    requires 0 <= i < 4
  {
    c & CastlingBit(i) != 0
  }

  function RightKey(k: KeyTable, c: Rights, i: int): Hash
    requires 0 <= i < 4
  {
    if HasRight(c, i) then CastlingKey(k, i) else ZeroHash()
  }

  function CastlingHash(k: KeyTable, c: Rights): Hash {
    Xor(Xor(Xor(RightKey(k, c, 0), RightKey(k, c, 1)), RightKey(k, c, 2)), RightKey(k, c, 3))
  }

  /** The en-passant key slot: 0..7 for a target on rank 3, 8..15 for one on rank 6, none otherwise. */
  function EpKeyIndex(ep: int): int {
    if 16 <= ep <= 23 then ep - 16 else if 40 <= ep <= 47 then ep - 32 else -1
  }

  /** CastlingEpHash: the keys of the set castling bits and of an en-passant target on the third or sixth rank. */
  function CastlingEpHash(k: KeyTable, c: Rights, ep: int): Hash {
    var idx := if ep >= 0 then EpKeyIndex(ep) else -1;
    Xor(CastlingHash(k, c), if idx >= 0 then EnPassantKey(k, idx) else ZeroHash())
  }

  /**
   * The en-passant key depends only on the target's file and on which side
   * can capture; a target off the third and sixth ranks hashes like no target.
   */
  lemma CastlingEpHashKeys(k: KeyTable, c: Rights, ep: EpTarget)
    ensures ep >= 0 && Rank(ep) == 2 ==> CastlingEpHash(k, c, ep) == Xor(CastlingHash(k, c), k.ep[File(ep)])
    ensures ep >= 0 && Rank(ep) == 5 ==> CastlingEpHash(k, c, ep) == Xor(CastlingHash(k, c), k.ep[8 + File(ep)])
    ensures (ep < 0 || (Rank(ep) != 2 && Rank(ep) != 5)) ==> CastlingEpHash(k, c, ep) == CastlingHash(k, c)
  {
    XorLaws(CastlingHash(k, c), ZeroHash(), ZeroHash());
  }

  function SideHash(k: KeyTable, whiteToMove: bool): Hash {
    if whiteToMove then ZeroHash() else k.side
  }

  /** ComputeZobristHash: the piece keys, the side key when black is to move, and CastlingEpHash. */
  function ComputeHash(k: KeyTable, b: Board): Hash {
    Xor(Xor(PiecesHash(k, b.bits), SideHash(k, b.whiteToMove)), CastlingEpHash(k, b.castling, b.epTarget))
  }

  /** The hash ignores the undo stack and the halfmove clock, and the side key toggles the side to move. */
  lemma ComputeHashDependsOnPosition(k: KeyTable, b: Board, u: seq<Undo>, h: nat, hash: Hash)
    ensures ComputeHash(k, b.(undo := u, halfMove := h, hash := hash)) == ComputeHash(k, b)
    ensures ComputeHash(k, b.(whiteToMove := !b.whiteToMove)) == Xor(ComputeHash(k, b), k.side)
  {
    SideToggle(k, PiecesHash(k, b.bits), CastlingEpHash(k, b.castling, b.epTarget), b.whiteToMove);
  }

  lemma SideToggle(k: KeyTable, p: Hash, c: Hash, w: bool)
    ensures Xor(Xor(p, SideHash(k, !w)), c) == Xor(Xor(Xor(p, SideHash(k, w)), c), k.side)
  {
    var l, r := Xor(Xor(p, SideHash(k, !w)), c), Xor(Xor(Xor(p, SideHash(k, w)), c), k.side);
    assert forall i | 0 <= i < 64 :: l[i] == r[i];
  }

  // ---------------------------------------------------------------------------
  // Start position

  /** The twelve 64-bit masks of the constructor, white pawns .. black kings. */
  const StartMasks: seq<bv64> := [
    0x000000000000FF00, 0x0000000000000042, 0x0000000000000024,
    0x0000000000000081, 0x0000000000000008, 0x0000000000000010,
    0x00FF000000000000, 0x4200000000000000, 0x2400000000000000,
    0x8100000000000000, 0x0800000000000000, 0x1000000000000000]

  predicate MaskHas(mask: bv64, sq: Square) {
    (mask >> sq) & 1 == 1
  }

  function StartBits(): set<Bit> {
    set p: Plane, sq: Square | 0 <= p < 12 && 0 <= sq < 64 && MaskHas(StartMasks[p], sq) :: Bit(p, sq)
  }

  /** The constructor: white to move, all four castling rights, no en-passant target, clock 0, hash recomputed. */
  function StartBoard(k: KeyTable): (b: Board)
    ensures b.bits == StartBits() && b.whiteToMove && b.castling == 0x0F && b.epTarget == -1
    ensures b.halfMove == 0 && b.undo == [] && b.hash == ComputeHash(k, b)
  {
    var b := Board(StartBits(), true, ZeroHash(), 0x0F, -1, 0, []);
    b.(hash := ComputeHash(k, b))
  }

  /** The back-rank piece on file f: rook, knight, bishop, queen, king, bishop, knight, rook. */
  function BackRankPiece(f: int): Piece
    requires 0 <= f < 8
  {
    if f == 0 || f == 7 then Rook
    else if f == 1 || f == 6 then Knight
    else if f == 2 || f == 5 then Bishop
    else if f == 3 then Queen
    else King
  }

  /** The plane the standard initial position puts on sq, or -1. */
  function StartPlane(sq: Square): int {
    var r, f := Rank(sq), File(sq);
    if r == 0 then PlaneOf(BackRankPiece(f), true)
    else if r == 1 then PlaneOf(Pawn, true)
    else if r == 6 then PlaneOf(Pawn, false)
    else if r == 7 then PlaneOf(BackRankPiece(f), false)
    else -1
  }

  /** Each constructor mask holds exactly the squares of its piece in the initial position. */
  lemma StartMaskBits(p: Plane, sq: Square)
    ensures MaskHas(StartMasks[p], sq) <==> StartPlane(sq) == p
  {
    if p < 6 {
      WhiteMaskBits(p, sq);
    } else {
      BlackMaskBits(p, sq);
    }
  }

  lemma WhiteMaskBits(p: Plane, sq: Square)
    requires p < 6
    ensures MaskHas(StartMasks[p], sq) <==> StartPlane(sq) == p
  {
    if p == 0 {
      assert MaskHas(0x000000000000FF00, sq) <==> 8 <= sq < 16;
    } else if p == 1 {
      assert MaskHas(0x0000000000000042, sq) <==> sq == 1 || sq == 6;
    } else if p == 2 {
      assert MaskHas(0x0000000000000024, sq) <==> sq == 2 || sq == 5;
    } else if p == 3 {
      assert MaskHas(0x0000000000000081, sq) <==> sq == 0 || sq == 7;
    } else if p == 4 {
      assert MaskHas(0x0000000000000008, sq) <==> sq == 3;
    } else {
      assert MaskHas(0x0000000000000010, sq) <==> sq == 4;
    }
  }

  lemma BlackMaskBits(p: Plane, sq: Square)
    requires p >= 6
    ensures MaskHas(StartMasks[p], sq) <==> StartPlane(sq) == p
  {
    if p == 6 {
      assert MaskHas(0x00FF000000000000, sq) <==> 48 <= sq < 56;
    } else if p == 7 {
      assert MaskHas(0x4200000000000000, sq) <==> sq == 57 || sq == 62;
    } else if p == 8 {
      assert MaskHas(0x2400000000000000, sq) <==> sq == 58 || sq == 61;
    } else if p == 9 {
      assert MaskHas(0x8100000000000000, sq) <==> sq == 56 || sq == 63;
    } else if p == 10 {
      assert MaskHas(0x0800000000000000, sq) <==> sq == 59;
    } else {
      assert MaskHas(0x1000000000000000, sq) <==> sq == 60;
    }
  }

  lemma StartBitsMembership(p: Plane, sq: Square)
    ensures Bit(p, sq) in StartBits() <==> StartPlane(sq) == p
  {
    StartMaskBits(p, sq);
  }

  /** The constructor's masks place the standard initial position, one piece per occupied square. */
  lemma StartPosition()
    ensures WellFormed(StartBits())
    ensures forall sq: Square :: Occupant(StartBits(), sq) == StartPlane(sq)
  {
    forall sq: Square
      ensures Occupant(StartBits(), sq) == StartPlane(sq)
    {
      StartOccupant(sq);
    }
    forall a, c | a in StartBits() && c in StartBits() && a.sq == c.sq
      ensures a == c
    {
      StartBitsMembership(a.plane, a.sq);
      StartBitsMembership(c.plane, c.sq);
    }
  }

  lemma StartOccupant(sq: Square)
    ensures Occupant(StartBits(), sq) == StartPlane(sq)
  {
    var o := Occupant(StartBits(), sq);
    if o != -1 {
      StartBitsMembership(o, sq);
    } else if StartPlane(sq) != -1 {
      StartBitsMembership(StartPlane(sq), sq);
    }
  }
}
