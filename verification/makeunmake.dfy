/**
 * MakeMove and UnmakeMove of src/board.cpp: the piece steps, the incremental
 * Zobrist update, the castling-rook move, and the metadata (side to move,
 * castling mask, en-passant target, halfmove clock, undo stack).
 *
 * The source's UnmakeMove decides "was this en passant" from the destination
 * rank, while MakeMove decides it from the destination being empty. Both
 * decisions are modelled: UnmakeMove as written, and UnmakeMoveFixed, which
 * asks whether the destination was the en-passant target the undo record
 * restores. The round trip is proved for any classification exactly when it
 * agrees with MakeMove's.
 */
module MakeUnmake {
  import opened Squares
  import opened Pieces
  import opened Zobrist
  import opened Position

  /** A king leaving e1 or e8 for g1, c1, g8 or c8 (any pairing) is treated as castling. */
  predicate IsCastling(m: Move) {
    m.pieceType == King && (m.from == E1 || m.from == E8) && (m.to == G1 || m.to == C1 || m.to == G8 || m.to == C8)
  }

  /** The rook's origin: h1 for e1-g1, a1 for e1-c1, h8 for e8-g8, and a8 for every other pairing. */
  function RookFrom(m: Move): Square {
    if m.from == E1 && m.to == G1 then H1
    else if m.from == E1 && m.to == C1 then A1
    else if m.from == E8 && m.to == G8 then H8
    else A8
  }

  /** The rook's destination, paired with RookFrom: f1, d1, f8, d8. */
  function RookTo(m: Move): Square {
    if m.from == E1 && m.to == G1 then F1
    else if m.from == E1 && m.to == C1 then D1
    else if m.from == E8 && m.to == G8 then F8
    else D8
  }

  /** The rook's two squares are distinct from each other and from the king's two squares. */
  lemma CastlingSquaresDistinct(m: Move)
    requires IsCastling(m)
    ensures RookFrom(m) != RookTo(m)
    ensures RookFrom(m) != m.from && RookFrom(m) != m.to
    ensures RookTo(m) != m.from && RookTo(m) != m.to
  {
  }

  /** `pieceToPlace`: the promotion piece when there is one, otherwise the mover. */
  function PlacedPiece(m: Move): Piece {
    if m.promotion != NoPiece then m.promotion else m.pieceType
  }

  /** MakeMove's en-passant test: pawn takes pawn on a square that is empty. */
  predicate EpCaptureOnMake(b: Board, m: Move) {
    m.pieceType == Pawn && m.captured == Pawn && GetPieceAt(b, m.to) == NoPiece
  }

  /** `capSq`: the destination, or for en passant the square behind it from the mover's side. */
  function CaptureSquare(to: Square, wtm: bool, ep: bool): int {
    if !ep then to else if wtm then to - 8 else to + 8
  }

  /**
   * What MakeMove needs to stay within its tables: a real moving piece
   * (GetPieceKey with NO_PIECE would index column -1) and a capture square
   * on the board.
   */
  predicate MakeDefined(b: Board, m: Move) {
    m.pieceType != NoPiece && 0 <= CaptureSquare(m.to, b.whiteToMove, EpCaptureOnMake(b, m)) < 64
  }

  /** MakeMove's capture square. */
  function MakeCapSq(b: Board, m: Move): Square
    requires MakeDefined(b, m)
  {
    CaptureSquare(m.to, b.whiteToMove, EpCaptureOnMake(b, m))
  }

  // ---------------------------------------------------------------------------
  // Metadata

  /** The castling corner of right i: h1, a1, h8, a8. */
  function Corner(i: int): Square
    requires 0 <= i < 4
  {
    if i == 0 then H1 else if i == 1 then A1 else if i == 2 then H8 else A8
  }

  /** Right i is lost by a king move of its colour, a rook leaving its corner, or a rook captured there. */
  predicate Revoked(m: Move, wtm: bool, i: int)
    requires 0 <= i < 4
  {
    || (m.pieceType == King && wtm == (i < 2))
    || (m.pieceType == Rook && m.from == Corner(i))
    || (m.captured == Rook && m.to == Corner(i))
  }

  /** The first castling update: a king move clears both of its side's bits, a rook leaving a corner that corner's bit. */
  function MoverCastling(c: Rights, m: Move, wtm: bool): (r: Rights)
    ensures r & c == r
    ensures forall i :: 0 <= i < 4 ==>
              (HasRight(r, i) <==> HasRight(c, i) && !(m.pieceType == King && wtm == (i < 2)) && !(m.pieceType == Rook && m.from == Corner(i)))
  {
    if m.pieceType == King then (if wtm then c & 0xFC else c & 0xF3)
    else if m.pieceType == Rook then
      (if m.from == H1 then c & 0xFE
       else if m.from == A1 then c & 0xFD
       else if m.from == H8 then c & 0xFB
       else if m.from == A8 then c & 0xF7
       else c)
    else c
  }

  /** The second castling update: capturing a rook on a corner clears that corner's bit. */
  function CapturedRookCastling(c: Rights, m: Move): (r: Rights)
    ensures r & c == r
    ensures forall i :: 0 <= i < 4 ==> (HasRight(r, i) <==> HasRight(c, i) && !(m.captured == Rook && m.to == Corner(i)))
  {
    if m.captured == Rook then
      (if m.to == H1 then c & 0xFE
       else if m.to == A1 then c & 0xFD
       else if m.to == H8 then c & 0xFB
       else if m.to == A8 then c & 0xF7
       else c)
    else c
  }

  /** MakeMove's castling update: castling rights are only ever lost, exactly as Revoked says. */
  function NextCastling(c: Rights, m: Move, wtm: bool): (r: Rights)
    ensures r & c == r
    ensures forall i :: 0 <= i < 4 ==> (HasRight(r, i) <==> HasRight(c, i) && !Revoked(m, wtm, i))
  {
    var c1 := MoverCastling(c, m, wtm);
    assert c1 & c == c1;
    CapturedRookCastling(c1, m)
  }

  /**
   * MakeMove's en-passant target: the square in front of the origin after a
   * pawn moves from rank index 1 to 3 or from 6 to 4, and none otherwise. The
   * test looks at ranks only, not at the colour or the file of the pawn.
   */
  function NextEpTarget(m: Move): (r: EpTarget)
    ensures r != -1 <==> m.pieceType == Pawn && ((Rank(m.from) == 1 && Rank(m.to) == 3) || (Rank(m.from) == 6 && Rank(m.to) == 4))
    ensures r != -1 ==> File(r) == File(m.from)
    ensures r != -1 && Rank(m.from) == 1 ==> Rank(r) == 2 && r == m.from + 8
    ensures r != -1 && Rank(m.from) == 6 ==> Rank(r) == 5 && r == m.from - 8
  {
    var fromRank, toRank := m.from / 8, m.to / 8;
    if m.pieceType == Pawn && fromRank == 1 && toRank == 3 then m.from + 8
    else if m.pieceType == Pawn && fromRank == 6 && toRank == 4 then m.from - 8
    else -1
  }

  /** The clock restarts on a capture or a pawn move and otherwise counts up by one. */
  function NextHalfMove(h: nat, m: Move): (r: nat)
    ensures r == 0 <==> m.captured != NoPiece || m.pieceType == Pawn
    ensures r != 0 ==> r == h + 1
  {
    if m.captured != NoPiece || m.pieceType == Pawn then 0 else h + 1
  }

  // ---------------------------------------------------------------------------
  // Piece and key steps

  /** MakeMove's piece steps before castling: take the captured piece, lift the mover, place it (or its promotion). */
  function MovePieces(bits: set<Bit>, m: Move, wtm: bool, capSq: Square): set<Bit>
    requires m.pieceType != NoPiece
  {
    SetPiece(ClearPiece(ClearPiece(bits, capSq, m.captured, !wtm), m.from, m.pieceType, wtm), m.to, PlacedPiece(m), wtm)
  }

  /** The capture key, XORed in only when the move captures. */
  function CaptureKeys(k: KeyTable, h: Hash, m: Move, wtm: bool, capSq: Square): Hash {
    if m.captured != NoPiece then Xor(h, PieceKey(k, capSq, m.captured, !wtm)) else h
  }

  /** MakeMove's hash steps before castling: origin key, capture key if any, destination key, side key. */
  function MoveKeys(k: KeyTable, h: Hash, m: Move, wtm: bool, capSq: Square): Hash
    requires m.pieceType != NoPiece
  {
    var h2 := CaptureKeys(k, Xor(h, PieceKey(k, m.from, m.pieceType, wtm)), m, wtm, capSq);
    Xor(Xor(h2, PieceKey(k, m.to, PlacedPiece(m), wtm)), k.side)
  }

  /** The castling rook's move in MakeMove. */
  function CastleRook(bits: set<Bit>, m: Move, wtm: bool): set<Bit> {
    if IsCastling(m) then SetPiece(ClearPiece(bits, RookFrom(m), Rook, wtm), RookTo(m), Rook, wtm) else bits
  }

  function CastleRookKeys(k: KeyTable, h: Hash, m: Move, wtm: bool): Hash {
    if IsCastling(m) then Xor(Xor(h, PieceKey(k, RookFrom(m), Rook, wtm)), PieceKey(k, RookTo(m), Rook, wtm)) else h
  }

  /** UnmakeMove's rook step, done first: back from RookTo to RookFrom. */
  function UncastleRook(bits: set<Bit>, m: Move, wtm: bool): set<Bit> {
    if IsCastling(m) then SetPiece(ClearPiece(bits, RookTo(m), Rook, wtm), RookFrom(m), Rook, wtm) else bits
  }

  function UncastleRookKeys(k: KeyTable, h: Hash, m: Move, wtm: bool): Hash {
    if IsCastling(m) then Xor(Xor(h, PieceKey(k, RookTo(m), Rook, wtm)), PieceKey(k, RookFrom(m), Rook, wtm)) else h
  }

  /** UnmakeMove's piece steps: lift the placed piece, put the mover back, restore the captured piece on capSq. */
  function UnmovePieces(bits: set<Bit>, m: Move, wtm: bool, capSq: Square): set<Bit>
    requires m.pieceType != NoPiece
  {
    SetPiece(SetPiece(ClearPiece(bits, m.to, PlacedPiece(m), wtm), m.from, m.pieceType, wtm), capSq, m.captured, !wtm)
  }

  /** UnmakeMove's hash steps: side key, destination key, origin key, capture key if any. */
  function UnmoveKeys(k: KeyTable, h: Hash, m: Move, wtm: bool, capSq: Square): Hash
    requires m.pieceType != NoPiece
  {
    CaptureKeys(k, Xor(Xor(Xor(h, k.side), PieceKey(k, m.to, PlacedPiece(m), wtm)), PieceKey(k, m.from, m.pieceType, wtm)), m, wtm, capSq)
  }

  // ---------------------------------------------------------------------------
  // MakeMove and UnmakeMove

  /**
   * MakeMove: push the undo record, XOR out the old castling/en-passant keys,
   * move the pieces and their keys, move the castling rook, flip the side,
   * update the en-passant target, castling mask and clock, and XOR in the new
   * castling/en-passant keys.
   */
  function MakeMove(k: KeyTable, b: Board, m: Move): (r: Board)
    requires MakeDefined(b, m)
    ensures r.whiteToMove == !b.whiteToMove
    ensures r.undo == b.undo + [Undo(b.castling, b.epTarget, b.halfMove)]
    ensures r.epTarget == NextEpTarget(m)
    ensures r.castling == NextCastling(b.castling, m, b.whiteToMove)
    ensures r.halfMove == NextHalfMove(b.halfMove, m)
  {
    var wtm := b.whiteToMove;
    var capSq := MakeCapSq(b, m);
    var h0 := Xor(b.hash, CastlingEpHash(k, b.castling, b.epTarget));
    var h := CastleRookKeys(k, MoveKeys(k, h0, m, wtm, capSq), m, wtm);
    var bits := CastleRook(MovePieces(b.bits, m, wtm, capSq), m, wtm);
    var c, ep := NextCastling(b.castling, m, wtm), NextEpTarget(m);
    Board(bits, !wtm, Xor(h, CastlingEpHash(k, c, ep)), c, ep, NextHalfMove(b.halfMove, m),
          b.undo + [Undo(b.castling, b.epTarget, b.halfMove)])
  }

  /** What UnmakeMove needs with en-passant classification ep: an undo record, a real mover, a capture square on the board. */
  predicate UnmakeDefined(b: Board, m: Move, ep: bool) {
    |b.undo| > 0 && m.pieceType != NoPiece && 0 <= CaptureSquare(m.to, !b.whiteToMove, ep) < 64
  }

  /** UnmakeMove's capture square. */
  function UnmakeCapSq(b: Board, m: Move, ep: bool): Square
    requires UnmakeDefined(b, m, ep)
  {
    CaptureSquare(m.to, !b.whiteToMove, ep)
  }

  /**
   * UnmakeMove with the en-passant question answered by ep: XOR out the
   * current castling/en-passant keys, flip the side back, move the castling
   * rook back, undo the piece steps and their keys, pop the undo record and
   * restore its fields, and XOR in their keys.
   */
  function UnmakeWith(k: KeyTable, b: Board, m: Move, ep: bool): (r: Board)
    requires UnmakeDefined(b, m, ep)
    ensures r.whiteToMove == !b.whiteToMove
    ensures r.undo == b.undo[..|b.undo| - 1]
    ensures Undo(r.castling, r.epTarget, r.halfMove) == b.undo[|b.undo| - 1]
  {
    var wtm := !b.whiteToMove;
    var capSq := UnmakeCapSq(b, m, ep);
    var u := b.undo[|b.undo| - 1];
    var h0 := Xor(b.hash, CastlingEpHash(k, b.castling, b.epTarget));
    var h := UnmoveKeys(k, UncastleRookKeys(k, h0, m, wtm), m, wtm, capSq);
    var bits := UnmovePieces(UncastleRook(b.bits, m, wtm), m, wtm, capSq);
    Board(bits, wtm, Xor(h, CastlingEpHash(k, u.castling, u.epTarget)), u.castling, u.epTarget, u.halfMove,
          b.undo[..|b.undo| - 1])
  }

  /** The source's test: pawn takes pawn landing on rank index 2 or 5. */
  predicate EpOnUnmakeAsWritten(m: Move) {
    m.pieceType == Pawn && m.captured == Pawn && (Rank(m.to) == 2 || Rank(m.to) == 5)
  }

  /** The corrected test: pawn takes pawn landing on the en-passant target the undo record restores. */
  predicate EpOnUnmakeFixed(b: Board, m: Move)
    requires |b.undo| > 0
  {
    m.pieceType == Pawn && m.captured == Pawn && m.to == b.undo[|b.undo| - 1].epTarget
  }

  /** UnmakeMove as written; with its rank test the capture square is always on the board. */
  function UnmakeMove(k: KeyTable, b: Board, m: Move): (r: Board)
    requires |b.undo| > 0 && m.pieceType != NoPiece
    ensures UnmakeDefined(b, m, EpOnUnmakeAsWritten(m))
    ensures r.whiteToMove == !b.whiteToMove && r.undo == b.undo[..|b.undo| - 1]
  {
    UnmakeWith(k, b, m, EpOnUnmakeAsWritten(m))
  }

  /** UnmakeMove with the corrected en-passant test. */
  function UnmakeMoveFixed(k: KeyTable, b: Board, m: Move): (r: Board)
    requires |b.undo| > 0 && UnmakeDefined(b, m, EpOnUnmakeFixed(b, m))
    ensures r.whiteToMove == !b.whiteToMove && r.undo == b.undo[..|b.undo| - 1]
  {
    UnmakeWith(k, b, m, EpOnUnmakeFixed(b, m))
  }

  // ---------------------------------------------------------------------------
  // Moves that fit the board

  /**
   * The move's fields describe the board: the mover stands on its origin, the
   * captured piece (in the other colour) on the capture square, a non-capture
   * lands on an empty square, and a castling rook stands on its corner with
   * its destination empty.
   */
  predicate Fits(b: Board, m: Move) {
    && MakeDefined(b, m)
    && var wtm := b.whiteToMove;
       var capSq := MakeCapSq(b, m);
       && Bit(PlaneOf(m.pieceType, wtm), m.from) in b.bits
       && (m.captured != NoPiece ==> Bit(PlaneOf(m.captured, !wtm), capSq) in b.bits)
       && (m.captured == NoPiece ==> EmptyAt(b.bits, m.to))
       && (IsCastling(m) ==> Bit(PlaneOf(Rook, wtm), RookFrom(m)) in b.bits && EmptyAt(b.bits, RookTo(m)))
  }

  /** The board-independent part of Fits, on the piece set. */
  predicate StepsFit(bits: set<Bit>, m: Move, wtm: bool, capSq: Square) {
    && m.pieceType != NoPiece
    && Bit(PlaneOf(m.pieceType, wtm), m.from) in bits
    && (m.captured != NoPiece ==> Bit(PlaneOf(m.captured, !wtm), capSq) in bits)
    && (m.captured == NoPiece || capSq != m.to ==> EmptyAt(bits, m.to))
    && (IsCastling(m) ==> Bit(PlaneOf(Rook, wtm), RookFrom(m)) in bits && EmptyAt(bits, RookTo(m)))
  }

  lemma FitsSteps(b: Board, m: Move)
    requires Fits(b, m)
    ensures StepsFit(b.bits, m, b.whiteToMove, MakeCapSq(b, m))
  {
  }

  // ---------------------------------------------------------------------------
  // The incremental hash

  /** A removal step keeps "h is the piece hash XOR e" when it XORs the removed piece's key into h. */
  lemma RemoveStep(k: KeyTable, s: set<Bit>, p: Plane, sq: Square, h: Hash, e: Hash)
    requires WellFormed(s) && Bit(p, sq) in s && h == Xor(PiecesHash(k, s), e)
    ensures WellFormed(s - {Bit(p, sq)}) && EmptyAt(s - {Bit(p, sq)}, sq)
    ensures Xor(h, k.table[sq][p]) == Xor(PiecesHash(k, s - {Bit(p, sq)}), e)
  {
    RemoveHash(k, s, p, sq);
    XorStepOther(PiecesHash(k, s), e, k.table[sq][p]);
  }

  /** The same for placing a piece on an empty square. */
  lemma AddStep(k: KeyTable, s: set<Bit>, p: Plane, sq: Square, h: Hash, e: Hash)
    requires WellFormed(s) && EmptyAt(s, sq) && h == Xor(PiecesHash(k, s), e)
    ensures WellFormed(s + {Bit(p, sq)}) && Occupant(s + {Bit(p, sq)}, sq) == p
    ensures Xor(h, k.table[sq][p]) == Xor(PiecesHash(k, s + {Bit(p, sq)}), e)
  {
    AddHash(k, s, p, sq);
    XorStepOther(PiecesHash(k, s), e, k.table[sq][p]);
  }

  lemma EmptySubset(s: set<Bit>, t: set<Bit>, sq: Square)
    requires EmptyAt(s, sq) && t <= s
    ensures EmptyAt(t, sq)
  {
  }

  lemma XorAssoc(a: Hash, b: Hash, c: Hash)
    ensures Xor(Xor(a, b), c) == Xor(a, Xor(b, c))
  {
    XorLaws(a, b, c);
  }

  /** XORing the side key into SideHash switches the side. */
  lemma SideFlip(k: KeyTable, wtm: bool)
    ensures Xor(SideHash(k, wtm), k.side) == SideHash(k, !wtm)
  {
    XorLaws(k.side, ZeroHash(), ZeroHash());
    XorLaws(ZeroHash(), k.side, ZeroHash());
  }

  lemma Cancel(x: Hash, c: Hash)
    ensures Xor(Xor(x, c), c) == x
  {
    assert forall i | 0 <= i < 64 :: Xor(Xor(x, c), c)[i] == x[i];
  }

  /** Taking the captured piece keeps the invariant; the mover is still on its origin and the destination is now empty. */
  lemma CaptureStep(k: KeyTable, bits: set<Bit>, m: Move, wtm: bool, capSq: Square, h: Hash, e: Hash)
    requires WellFormed(bits) && StepsFit(bits, m, wtm, capSq) && h == Xor(PiecesHash(k, bits), e)
    ensures WellFormed(ClearPiece(bits, capSq, m.captured, !wtm))
    ensures Bit(PlaneOf(m.pieceType, wtm), m.from) in ClearPiece(bits, capSq, m.captured, !wtm)
    ensures EmptyAt(ClearPiece(bits, capSq, m.captured, !wtm), m.to)
    ensures CaptureKeys(k, h, m, wtm, capSq) == Xor(PiecesHash(k, ClearPiece(bits, capSq, m.captured, !wtm)), e)
  {
    CaptureSets(bits, m, wtm, capSq);
    if m.captured != NoPiece {
      RemoveStep(k, bits, PlaneOf(m.captured, !wtm), capSq, h, e);
    }
  }

  /** The set facts of CaptureStep, kept apart from the hash. */
  lemma CaptureSets(bits: set<Bit>, m: Move, wtm: bool, capSq: Square)
    requires WellFormed(bits) && StepsFit(bits, m, wtm, capSq)
    ensures m.captured == NoPiece ==> ClearPiece(bits, capSq, m.captured, !wtm) == bits
    ensures m.captured != NoPiece ==> ClearPiece(bits, capSq, m.captured, !wtm) == bits - {Bit(PlaneOf(m.captured, !wtm), capSq)}
    ensures WellFormed(ClearPiece(bits, capSq, m.captured, !wtm))
    ensures Bit(PlaneOf(m.pieceType, wtm), m.from) in ClearPiece(bits, capSq, m.captured, !wtm)
    ensures EmptyAt(ClearPiece(bits, capSq, m.captured, !wtm), m.to)
  {
    if m.captured != NoPiece {
      var capBit := Bit(PlaneOf(m.captured, !wtm), capSq);
      RemoveWellFormed(bits, capBit.plane, capSq);
      if capSq != m.to {
        EmptySubset(bits, bits - {capBit}, m.to);
      }
    }
  }

  /** Lifting the mover keeps the invariant and the destination empty. */
  lemma LiftStep(k: KeyTable, s: set<Bit>, m: Move, wtm: bool, h: Hash, e: Hash)
    requires m.pieceType != NoPiece
    requires WellFormed(s) && Bit(PlaneOf(m.pieceType, wtm), m.from) in s && EmptyAt(s, m.to)
    requires h == Xor(PiecesHash(k, s), e)
    ensures WellFormed(ClearPiece(s, m.from, m.pieceType, wtm)) && EmptyAt(ClearPiece(s, m.from, m.pieceType, wtm), m.to)
    ensures Xor(h, PieceKey(k, m.from, m.pieceType, wtm)) == Xor(PiecesHash(k, ClearPiece(s, m.from, m.pieceType, wtm)), e)
  {
    var fromBit := Bit(PlaneOf(m.pieceType, wtm), m.from);
    RemoveStep(k, s, fromBit.plane, m.from, h, e);
    EmptySubset(s, s - {fromBit}, m.to);
  }

  /** Placing the piece keeps the invariant and makes it the destination's occupant. */
  lemma PlaceStep(k: KeyTable, s: set<Bit>, m: Move, wtm: bool, h: Hash, e: Hash)
    requires m.pieceType != NoPiece
    requires WellFormed(s) && EmptyAt(s, m.to) && h == Xor(PiecesHash(k, s), e)
    ensures WellFormed(SetPiece(s, m.to, PlacedPiece(m), wtm))
    ensures Occupant(SetPiece(s, m.to, PlacedPiece(m), wtm), m.to) == PlaneOf(PlacedPiece(m), wtm)
    ensures Xor(h, PieceKey(k, m.to, PlacedPiece(m), wtm)) == Xor(PiecesHash(k, SetPiece(s, m.to, PlacedPiece(m), wtm)), e)
  {
    AddStep(k, s, PlaneOf(PlacedPiece(m), wtm), m.to, h, e);
  }

  /** The capture key can be XORed before or after the origin key. */
  lemma CaptureKeysCommute(k: KeyTable, h: Hash, a: Hash, m: Move, wtm: bool, capSq: Square)
    ensures CaptureKeys(k, Xor(h, a), m, wtm, capSq) == Xor(CaptureKeys(k, h, m, wtm, capSq), a)
  {
    if m.captured != NoPiece {
      XorStepOther(h, a, PieceKey(k, capSq, m.captured, !wtm));
    }
  }

  /** The piece steps of MakeMove keep the hash invariant, and the side key moves it to the other side. */
  lemma MoveStepsHash(k: KeyTable, bits: set<Bit>, m: Move, wtm: bool, capSq: Square, h: Hash, e: Hash)
    requires WellFormed(bits) && StepsFit(bits, m, wtm, capSq) && h == Xor(PiecesHash(k, bits), e)
    ensures WellFormed(MovePieces(bits, m, wtm, capSq))
    ensures Occupant(MovePieces(bits, m, wtm, capSq), m.to) == PlaneOf(PlacedPiece(m), wtm)
    ensures MoveKeys(k, h, m, wtm, capSq) == Xor(PiecesHash(k, MovePieces(bits, m, wtm, capSq)), Xor(e, k.side))
  {
    var t1 := ClearPiece(bits, capSq, m.captured, !wtm);
    CaptureStep(k, bits, m, wtm, capSq, h, e);
    var h1 := CaptureKeys(k, h, m, wtm, capSq);
    var t2 := ClearPiece(t1, m.from, m.pieceType, wtm);
    LiftStep(k, t1, m, wtm, h1, e);
    var a := PieceKey(k, m.from, m.pieceType, wtm);
    var t3 := SetPiece(t2, m.to, PlacedPiece(m), wtm);
    PlaceStep(k, t2, m, wtm, Xor(h1, a), e);
    CaptureKeysCommute(k, h, a, m, wtm, capSq);
    XorAssoc(PiecesHash(k, t3), e, k.side);
  }

  /** After the piece steps the castling rook is still on its corner and its destination still empty. */
  lemma RookStillThere(bits: set<Bit>, m: Move, wtm: bool, capSq: Square)
    requires StepsFit(bits, m, wtm, capSq) && IsCastling(m)
    ensures Bit(PlaneOf(Rook, wtm), RookFrom(m)) in MovePieces(bits, m, wtm, capSq)
    ensures EmptyAt(MovePieces(bits, m, wtm, capSq), RookTo(m))
  {
    CastlingSquaresDistinct(m);
  }

  /** The set facts of the rook step. */
  lemma CastleSets(s: set<Bit>, m: Move, wtm: bool)
    requires WellFormed(s) && IsCastling(m)
    requires Bit(PlaneOf(Rook, wtm), RookFrom(m)) in s && EmptyAt(s, RookTo(m))
    ensures CastleRook(s, m, wtm) == s - {Bit(PlaneOf(Rook, wtm), RookFrom(m))} + {Bit(PlaneOf(Rook, wtm), RookTo(m))}
    ensures WellFormed(s - {Bit(PlaneOf(Rook, wtm), RookFrom(m))})
    ensures EmptyAt(s - {Bit(PlaneOf(Rook, wtm), RookFrom(m))}, RookTo(m))
  {
    CastlingSquaresDistinct(m);
    var rf := Bit(PlaneOf(Rook, wtm), RookFrom(m));
    RemoveWellFormed(s, rf.plane, RookFrom(m));
    EmptySubset(s, s - {rf}, RookTo(m));
  }

  /** The rook step keeps the hash invariant. */
  lemma CastleStepsHash(k: KeyTable, s: set<Bit>, m: Move, wtm: bool, h: Hash, e: Hash)
    requires WellFormed(s) && h == Xor(PiecesHash(k, s), e)
    requires IsCastling(m) ==> Bit(PlaneOf(Rook, wtm), RookFrom(m)) in s && EmptyAt(s, RookTo(m))
    ensures WellFormed(CastleRook(s, m, wtm))
    ensures CastleRookKeys(k, h, m, wtm) == Xor(PiecesHash(k, CastleRook(s, m, wtm)), e)
  {
    if IsCastling(m) {
      CastleSets(s, m, wtm);
      var p := PlaneOf(Rook, wtm);
      RemoveStep(k, s, p, RookFrom(m), h, e);
      AddStep(k, s - {Bit(p, RookFrom(m))}, p, RookTo(m), Xor(h, PieceKey(k, RookFrom(m), Rook, wtm)), e);
    }
  }

  /** All piece and key steps of MakeMove together, from the mover's side hash to the other side's. */
  lemma AllStepsHash(k: KeyTable, bits: set<Bit>, m: Move, wtm: bool, capSq: Square, h: Hash)
    requires WellFormed(bits) && StepsFit(bits, m, wtm, capSq) && h == Xor(PiecesHash(k, bits), SideHash(k, wtm))
    ensures WellFormed(CastleRook(MovePieces(bits, m, wtm, capSq), m, wtm))
    ensures CastleRookKeys(k, MoveKeys(k, h, m, wtm, capSq), m, wtm)
            == Xor(PiecesHash(k, CastleRook(MovePieces(bits, m, wtm, capSq), m, wtm)), SideHash(k, !wtm))
  {
    MoveStepsHash(k, bits, m, wtm, capSq, h, SideHash(k, wtm));
    SideFlip(k, wtm);
    if IsCastling(m) {
      RookStillThere(bits, m, wtm, capSq);
    }
    CastleStepsHash(k, MovePieces(bits, m, wtm, capSq), m, wtm, MoveKeys(k, h, m, wtm, capSq), SideHash(k, !wtm));
  }

  /**
   * For a move that fits the board, the incrementally updated hash of MakeMove
   * is the hash ComputeZobristHash would compute from scratch, and the board
   * stays well formed.
   */
  lemma MakeHashConsistent(k: KeyTable, b: Board, m: Move)
    requires WellFormed(b.bits) && Fits(b, m) && b.hash == ComputeHash(k, b)
    ensures WellFormed(MakeMove(k, b, m).bits)
    ensures MakeMove(k, b, m).hash == ComputeHash(k, MakeMove(k, b, m))
  {
    var wtm := b.whiteToMove;
    var capSq := MakeCapSq(b, m);
    FitsSteps(b, m);
    var c0 := CastlingEpHash(k, b.castling, b.epTarget);
    Cancel(Xor(PiecesHash(k, b.bits), SideHash(k, wtm)), c0);
    AllStepsHash(k, b.bits, m, wtm, capSq, Xor(b.hash, c0));
  }

  // ---------------------------------------------------------------------------
  // Round trip

  /** Undoing the piece steps and the rook step restores the pieces. */
  lemma RoundTripBits(bits: set<Bit>, m: Move, wtm: bool, capSq: Square, unSq: Square)
    requires WellFormed(bits) && StepsFit(bits, m, wtm, capSq)
    requires m.captured == NoPiece || unSq == capSq
    ensures UnmovePieces(UncastleRook(CastleRook(MovePieces(bits, m, wtm, capSq), m, wtm), m, wtm), m, wtm, unSq) == bits
  {
    var s3 := MovePieces(bits, m, wtm, capSq);
    if IsCastling(m) {
      RookStillThere(bits, m, wtm, capSq);
      CastlingSquaresDistinct(m);
      var rf, rt := Bit(PlaneOf(Rook, wtm), RookFrom(m)), Bit(PlaneOf(Rook, wtm), RookTo(m));
      assert UncastleRook(CastleRook(s3, m, wtm), m, wtm) == s3 - {rf} + {rt} - {rt} + {rf};
    }
    assert UncastleRook(CastleRook(s3, m, wtm), m, wtm) == s3;
    var fromBit := Bit(PlaneOf(m.pieceType, wtm), m.from);
    var toBit := Bit(PlaneOf(PlacedPiece(m), wtm), m.to);
    var t1 := ClearPiece(bits, capSq, m.captured, !wtm);
    var t2 := t1 - {fromBit};
    if m.captured == NoPiece || capSq != m.to {
      EmptySubset(bits, t2, m.to);
    } else {
      RemoveWellFormed(bits, PlaneOf(m.captured, !wtm), capSq);
    }
    assert toBit !in t2;
    assert s3 == t2 + {toBit};
    assert s3 - {toBit} == t2;
    assert t2 + {fromBit} == t1;
  }

  lemma CancelRook(x: Hash, f: Hash, t: Hash)
    ensures Xor(Xor(Xor(Xor(x, f), t), t), f) == x
  {
    assert forall i | 0 <= i < 64 :: Xor(Xor(Xor(Xor(x, f), t), t), f)[i] == x[i];
  }

  lemma CancelMove(x: Hash, a: Hash, t: Hash, s: Hash)
    ensures Xor(Xor(Xor(Xor(Xor(Xor(x, a), t), s), s), t), a) == x
  {
    assert forall i | 0 <= i < 64 :: Xor(Xor(Xor(Xor(Xor(Xor(x, a), t), s), s), t), a)[i] == x[i];
  }

  lemma CancelCapture(x: Hash, a: Hash, c: Hash, t: Hash, s: Hash)
    ensures Xor(Xor(Xor(Xor(Xor(Xor(Xor(Xor(x, a), c), t), s), s), t), a), c) == x
  {
    assert forall i | 0 <= i < 64 :: Xor(Xor(Xor(Xor(Xor(Xor(Xor(Xor(x, a), c), t), s), s), t), a), c)[i] == x[i];
  }

  /** Undoing the key steps restores the hash word. */
  lemma RoundTripKeys(k: KeyTable, h: Hash, m: Move, wtm: bool, capSq: Square, unSq: Square)
    requires m.pieceType != NoPiece
    requires m.captured == NoPiece || unSq == capSq
    ensures UnmoveKeys(k, UncastleRookKeys(k, CastleRookKeys(k, MoveKeys(k, h, m, wtm, capSq), m, wtm), m, wtm), m, wtm, unSq) == h
  {
    var h3 := MoveKeys(k, h, m, wtm, capSq);
    if IsCastling(m) {
      CancelRook(h3, PieceKey(k, RookFrom(m), Rook, wtm), PieceKey(k, RookTo(m), Rook, wtm));
    }
    var a, t := PieceKey(k, m.from, m.pieceType, wtm), PieceKey(k, m.to, PlacedPiece(m), wtm);
    if m.captured != NoPiece {
      CancelCapture(h, a, PieceKey(k, capSq, m.captured, !wtm), t, k.side);
    } else {
      CancelMove(h, a, t, k.side);
    }
  }

  /** With a wrong capture square, the captured piece is not back where it was taken. */
  lemma CaptureNotRestored(bits: set<Bit>, m: Move, wtm: bool, capSq: Square, wrongSq: Square)
    requires m.pieceType != NoPiece && m.captured != NoPiece && wrongSq != capSq
    ensures Bit(PlaneOf(m.captured, !wtm), capSq)
            !in UnmovePieces(UncastleRook(CastleRook(MovePieces(bits, m, wtm, capSq), m, wtm), m, wtm), m, wtm, wrongSq)
  {
  }

  /** The parts of MakeMove followed by UnmakeWith, named. */
  lemma MakeUnmakeParts(k: KeyTable, b: Board, m: Move, ep: bool)
    requires MakeDefined(b, m) && UnmakeDefined(MakeMove(k, b, m), m, ep)
    ensures var r := MakeMove(k, b, m);
            var wtm := b.whiteToMove;
            var capSq, unSq := MakeCapSq(b, m), UnmakeCapSq(r, m, ep);
            var u := UnmakeWith(k, r, m, ep);
            var h0 := Xor(b.hash, CastlingEpHash(k, b.castling, b.epTarget));
            var h4 := CastleRookKeys(k, MoveKeys(k, h0, m, wtm, capSq), m, wtm);
            && r.bits == CastleRook(MovePieces(b.bits, m, wtm, capSq), m, wtm)
            && r.hash == Xor(h4, CastlingEpHash(k, r.castling, r.epTarget))
            && u.bits == UnmovePieces(UncastleRook(r.bits, m, wtm), m, wtm, unSq)
            && u.hash == Xor(UnmoveKeys(k, UncastleRookKeys(k, Xor(r.hash, CastlingEpHash(k, r.castling, r.epTarget)), m, wtm), m, wtm, unSq),
                             CastlingEpHash(k, b.castling, b.epTarget))
            && u.whiteToMove == wtm && u.castling == b.castling && u.epTarget == b.epTarget
            && u.halfMove == b.halfMove && u.undo == b.undo
  {
    var r := MakeMove(k, b, m);
    assert r.undo[..|r.undo| - 1] == b.undo;
  }

  /** The round trip when ep agrees with MakeMove (or nothing is captured). */
  lemma RoundTripHolds(k: KeyTable, b: Board, m: Move, ep: bool)
    requires WellFormed(b.bits) && Fits(b, m)
    requires UnmakeDefined(MakeMove(k, b, m), m, ep)
    requires m.captured == NoPiece || ep == EpCaptureOnMake(b, m)
    ensures UnmakeWith(k, MakeMove(k, b, m), m, ep) == b
  {
    var r := MakeMove(k, b, m);
    var wtm := b.whiteToMove;
    var capSq, unSq := MakeCapSq(b, m), UnmakeCapSq(r, m, ep);
    MakeUnmakeParts(k, b, m, ep);
    FitsSteps(b, m);
    RoundTripBits(b.bits, m, wtm, capSq, unSq);
    var c0 := CastlingEpHash(k, b.castling, b.epTarget);
    var h0 := Xor(b.hash, c0);
    var h4 := CastleRookKeys(k, MoveKeys(k, h0, m, wtm, capSq), m, wtm);
    Cancel(h4, CastlingEpHash(k, r.castling, r.epTarget));
    RoundTripKeys(k, h0, m, wtm, capSq, unSq);
    Cancel(b.hash, c0);
  }

  /** With a capture and an ep that disagrees with MakeMove, the captured piece comes back on the wrong square. */
  lemma RoundTripFails(k: KeyTable, b: Board, m: Move, ep: bool)
    requires WellFormed(b.bits) && Fits(b, m)
    requires UnmakeDefined(MakeMove(k, b, m), m, ep)
    requires m.captured != NoPiece && ep != EpCaptureOnMake(b, m)
    ensures Bit(PlaneOf(m.captured, !b.whiteToMove), MakeCapSq(b, m)) in b.bits
    ensures Bit(PlaneOf(m.captured, !b.whiteToMove), MakeCapSq(b, m)) !in UnmakeWith(k, MakeMove(k, b, m), m, ep).bits
  {
    var r := MakeMove(k, b, m);
    MakeUnmakeParts(k, b, m, ep);
    CaptureNotRestored(b.bits, m, b.whiteToMove, MakeCapSq(b, m), UnmakeCapSq(r, m, ep));
  }

  /**
   * For a move that fits a well-formed board, UnmakeMove with en-passant
   * classification ep restores the board exactly (pieces, side, hash,
   * castling mask, en-passant target, clock and undo stack) if and only if
   * the move captures nothing or ep agrees with MakeMove's classification.
   */
  lemma RoundTripIff(k: KeyTable, b: Board, m: Move, ep: bool)
    requires WellFormed(b.bits) && Fits(b, m)
    requires UnmakeDefined(MakeMove(k, b, m), m, ep)
    ensures UnmakeWith(k, MakeMove(k, b, m), m, ep) == b <==> m.captured == NoPiece || ep == EpCaptureOnMake(b, m)
  {
    if m.captured == NoPiece || ep == EpCaptureOnMake(b, m) {
      RoundTripHolds(k, b, m, ep);
    } else {
      RoundTripFails(k, b, m, ep);
    }
  }

  /**
   * UnmakeMove as written undoes a fitting move exactly when its rank test
   * agrees with MakeMove's empty-destination test; they disagree on a pawn
   * taking a pawn that stands on rank index 2 or 5, and on an en-passant
   * capture landing off those ranks.
   */
  lemma AsWrittenRoundTrip(k: KeyTable, b: Board, m: Move)
    requires WellFormed(b.bits) && Fits(b, m)
    ensures UnmakeMove(k, MakeMove(k, b, m), m) == b <==> EpOnUnmakeAsWritten(m) == EpCaptureOnMake(b, m)
  {
    RoundTripIff(k, b, m, EpOnUnmakeAsWritten(m));
  }

  /**
   * A pawn-takes-pawn move agrees with the board's en-passant target when it
   * lands on an empty square exactly if that square is the target; moves of
   * other kinds always do.
   */
  predicate Coherent(b: Board, m: Move) {
    m.pieceType == Pawn && m.captured == Pawn ==> (EmptyAt(b.bits, m.to) <==> m.to == b.epTarget)
  }

  /** The corrected UnmakeMove undoes every fitting, coherent move. */
  lemma FixedRoundTrip(k: KeyTable, b: Board, m: Move)
    requires WellFormed(b.bits) && Fits(b, m) && Coherent(b, m)
    ensures UnmakeDefined(MakeMove(k, b, m), m, EpOnUnmakeFixed(MakeMove(k, b, m), m))
    ensures UnmakeMoveFixed(k, MakeMove(k, b, m), m) == b
  {
    var r := MakeMove(k, b, m);
    assert r.undo[|r.undo| - 1].epTarget == b.epTarget;
    assert EpOnUnmakeFixed(r, m) == EpCaptureOnMake(b, m);
    RoundTripIff(k, b, m, EpOnUnmakeFixed(r, m));
  }

  /** White pawn e2, black pawn d3, white to move; the capture e2xd3 is an ordinary one. */
  function CounterexampleBoard(): Board {
    Board({Bit(0, 12), Bit(6, 19)}, true, ZeroHash(), 0, -1, 0, [])
  }

  function CounterexampleMove(): Move {
    Move(12, 19, Pawn, Pawn)
  }

  /**
   * On that board UnmakeMove as written takes e2xd3 for en passant, because d3
   * is on rank index 2, and puts the black pawn back on d2 instead of d3; the
   * corrected UnmakeMove restores the board.
   */
  lemma AsWrittenCounterexample(k: KeyTable)
    ensures WellFormed(CounterexampleBoard().bits) && Fits(CounterexampleBoard(), CounterexampleMove())
    ensures MakeMove(k, CounterexampleBoard(), CounterexampleMove()).bits == {Bit(0, 19)}
    ensures UnmakeMove(k, MakeMove(k, CounterexampleBoard(), CounterexampleMove()), CounterexampleMove()).bits
            == {Bit(0, 12), Bit(6, 11)}
    ensures UnmakeMove(k, MakeMove(k, CounterexampleBoard(), CounterexampleMove()), CounterexampleMove()) != CounterexampleBoard()
    ensures UnmakeMoveFixed(k, MakeMove(k, CounterexampleBoard(), CounterexampleMove()), CounterexampleMove()) == CounterexampleBoard()
  {
    var b, m := CounterexampleBoard(), CounterexampleMove();
    CounterexampleMakes(k);
    AsWrittenRoundTrip(k, b, m);
    FixedRoundTrip(k, b, m);
  }

  /** MakeMove on the board of the counterexample: an ordinary capture, leaving the white pawn alone on d3. */
  lemma CounterexampleMakes(k: KeyTable)
    ensures WellFormed(CounterexampleBoard().bits) && Fits(CounterexampleBoard(), CounterexampleMove())
    ensures Coherent(CounterexampleBoard(), CounterexampleMove())
    ensures !EpCaptureOnMake(CounterexampleBoard(), CounterexampleMove())
    ensures MakeMove(k, CounterexampleBoard(), CounterexampleMove()).bits == {Bit(0, 19)}
  {
    var b, m := CounterexampleBoard(), CounterexampleMove();
    assert Occupant(b.bits, 19) == 6 by {
      OccupantOfWellFormed(b.bits, 6, 19);
    }
    assert !EpCaptureOnMake(b, m);
  }

  /** The squares MakeMove's steps touch. */
  predicate Touched(m: Move, capSq: Square, sq: Square) {
    sq == m.from || sq == m.to || sq == capSq || (IsCastling(m) && (sq == RookFrom(m) || sq == RookTo(m)))
  }

  /** The set effect of the piece steps: origin and capture square emptied, destination occupied, the rest kept. */
  lemma MoveSets(bits: set<Bit>, m: Move, wtm: bool, capSq: Square)
    requires WellFormed(bits) && StepsFit(bits, m, wtm, capSq)
    ensures WellFormed(MovePieces(bits, m, wtm, capSq))
    ensures Occupant(MovePieces(bits, m, wtm, capSq), m.to) == PlaneOf(PlacedPiece(m), wtm)
    ensures EmptyAt(MovePieces(bits, m, wtm, capSq), m.from)
    ensures m.captured != NoPiece && capSq != m.to ==> EmptyAt(MovePieces(bits, m, wtm, capSq), capSq)
    ensures forall x: Bit :: x.sq != m.from && x.sq != m.to && x.sq != capSq ==> (x in MovePieces(bits, m, wtm, capSq) <==> x in bits)
  {
    CaptureSets(bits, m, wtm, capSq);
    var t1 := ClearPiece(bits, capSq, m.captured, !wtm);
    var fromBit := Bit(PlaneOf(m.pieceType, wtm), m.from);
    RemoveWellFormed(t1, fromBit.plane, m.from);
    var t2 := t1 - {fromBit};
    EmptySubset(t1, t2, m.to);
    AddWellFormed(t2, PlaneOf(PlacedPiece(m), wtm), m.to);
    if m.captured != NoPiece && capSq != m.to {
      RemoveWellFormed(bits, PlaneOf(m.captured, !wtm), capSq);
      EmptySubset(bits - {Bit(PlaneOf(m.captured, !wtm), capSq)}, t2, capSq);
    }
  }

  /** The set effect of the rook step. */
  lemma CastleSetsEffect(s: set<Bit>, m: Move, wtm: bool)
    requires WellFormed(s) && IsCastling(m)
    requires Bit(PlaneOf(Rook, wtm), RookFrom(m)) in s && EmptyAt(s, RookTo(m))
    ensures Occupant(CastleRook(s, m, wtm), RookTo(m)) == PlaneOf(Rook, wtm)
    ensures EmptyAt(CastleRook(s, m, wtm), RookFrom(m))
    ensures forall x: Bit :: x.sq != RookFrom(m) && x.sq != RookTo(m) ==> (x in CastleRook(s, m, wtm) <==> x in s)
  {
    CastleSets(s, m, wtm);
    var rf := Bit(PlaneOf(Rook, wtm), RookFrom(m));
    AddWellFormed(s - {rf}, PlaneOf(Rook, wtm), RookTo(m));
    CastlingSquaresDistinct(m);
  }

  /**
   * What MakeMove does to the squares of a fitting move: the origin and an
   * en-passant victim's square become empty, the destination holds the placed
   * piece, a castling rook moves from its corner to its destination, and every
   * other square keeps its pieces.
   */
  lemma MakeMoveSquares(k: KeyTable, b: Board, m: Move)
    requires WellFormed(b.bits) && Fits(b, m)
    ensures Occupant(MakeMove(k, b, m).bits, m.to) == PlaneOf(PlacedPiece(m), b.whiteToMove)
    ensures EmptyAt(MakeMove(k, b, m).bits, m.from)
    ensures EpCaptureOnMake(b, m) ==> EmptyAt(MakeMove(k, b, m).bits, MakeCapSq(b, m))
    ensures IsCastling(m) ==> Occupant(MakeMove(k, b, m).bits, RookTo(m)) == PlaneOf(Rook, b.whiteToMove)
    ensures IsCastling(m) ==> EmptyAt(MakeMove(k, b, m).bits, RookFrom(m))
    ensures forall x: Bit :: !Touched(m, MakeCapSq(b, m), x.sq) ==> (x in MakeMove(k, b, m).bits <==> x in b.bits)
  {
    var wtm, capSq := b.whiteToMove, MakeCapSq(b, m);
    FitsSteps(b, m);
    MoveSets(b.bits, m, wtm, capSq);
    var s3 := MovePieces(b.bits, m, wtm, capSq);
    if IsCastling(m) {
      RookStillThere(b.bits, m, wtm, capSq);
      CastleSetsEffect(s3, m, wtm);
      CastlingSquaresDistinct(m);
      OccupantLocal(s3, CastleRook(s3, m, wtm), m.to);
    }
  }
}
