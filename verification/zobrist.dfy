/**
 * Zobrist key tables of src/zobrist.cpp. The key values are pseudo-random
 * numbers drawn from a 64-bit Mersenne Twister seeded with 12345; here the
 * generator's output is an abstract stream, so every key is a parameter.
 */
module Zobrist {
  import opened Squares
  import opened Pieces

  /**
   * A 64-bit hash word, as its 64 bits (bit i of the U64 is element i).
   * XOR is bitwise, so the word-level identities are checked bit by bit.
   */
  type Hash = s: seq<bool> | |s| == 64 witness seq(64, _ => false)

  /** The word 0. */
  function ZeroHash(): (z: Hash)
    ensures forall i :: 0 <= i < 64 ==> !z[i]
  {
    seq(64, _ => false)
  }

  /** U64 `^`. */
  function Xor(a: Hash, b: Hash): (r: Hash)
    ensures forall i :: 0 <= i < 64 ==> r[i] == (a[i] != b[i])
  {
    seq(64, i requires 0 <= i < 64 => a[i] != b[i])
  }

  /** XOR makes the words a group in which every word is its own inverse. */
  lemma XorLaws(a: Hash, b: Hash, c: Hash)
    ensures Xor(a, ZeroHash()) == a
    ensures Xor(a, a) == ZeroHash()
    ensures Xor(a, b) == Xor(b, a)
    ensures Xor(Xor(a, b), c) == Xor(a, Xor(b, c))
  {
    assert forall i | 0 <= i < 64 :: Xor(a, ZeroHash())[i] == a[i];
    assert forall i | 0 <= i < 64 :: Xor(a, a)[i] == ZeroHash()[i];
    assert forall i | 0 <= i < 64 :: Xor(a, b)[i] == Xor(b, a)[i];
    assert forall i | 0 <= i < 64 :: Xor(Xor(a, b), c)[i] == Xor(a, Xor(b, c))[i];
  }

  /** Index into the 12 piece columns: white pawn..king are 0..5, black pawn..king 6..11. */
  type Plane = x: int | 0 <= x < 12

  datatype Keys = Keys(table: seq<seq<Hash>>, side: Hash, castling: seq<Hash>, ep: seq<Hash>)

  /** The shapes of `table[64][12]`, `castlingKeys[4]` and `epKeys[16]`. */
  predicate WellShaped(k: Keys) {
    && |k.table| == 64
    && (forall sq :: 0 <= sq < 64 ==> |k.table[sq]| == 12)
    && |k.castling| == 4
    && |k.ep| == 16
  }

  /** Tables of the declared sizes; the all-zero tables are what the statics hold before Init. */
  type KeyTable = k: Keys | WellShaped(k)
    witness Keys(seq(64, _ => seq(12, _ => ZeroHash())), ZeroHash(), seq(4, _ => ZeroHash()), seq(16, _ => ZeroHash()))

  function ZeroKeys(): KeyTable {
    Keys(seq(64, _ => seq(12, _ => ZeroHash())), ZeroHash(), seq(4, _ => ZeroHash()), seq(16, _ => ZeroHash()))
  }

  /** GetPieceKey's column: (pieceType - 1) + (white ? 0 : 6), one of the twelve for a real piece, white's first. */
  function PieceIndex(pt: Piece, white: bool): (col: int)
    ensures pt != NoPiece ==> 0 <= col < 12 && (col < 6 <==> white)
  {
    (pt - 1) + (if white then 0 else 6)
  }

  /** For real piece types the column is in range, and distinct (type, colour) pairs get distinct columns. */
  lemma PieceIndexInRangeAndInjective(pt: Piece, white: bool, pt': Piece, white': bool)
    requires pt != NoPiece && pt' != NoPiece
    ensures 0 <= PieceIndex(pt, white) < 12
    ensures PieceIndex(pt, white) == PieceIndex(pt', white') <==> pt == pt' && white == white'
  {
  }

  /** GetPieceKey: one of the square's twelve keys. */
  function PieceKey(k: KeyTable, sq: Square, pt: Piece, white: bool): (h: Hash)
    requires pt != NoPiece
  {
    k.table[sq][PieceIndex(pt, white)]
  }

  /**
   * GetCastlingKey indexes with `idx & 3`; for a two's-complement int that is
   * the non-negative remainder mod 4, which is what Dafny's % computes.
   */
  function CastlingKey(k: KeyTable, idx: int): (h: Hash)
    ensures 0 <= idx < 4 ==> h == k.castling[idx]
  {
    k.castling[idx % 4]
  }

  /** GetEnPassantKey indexes with `idx & 15`, the non-negative remainder mod 16. */
  function EnPassantKey(k: KeyTable, idx: int): (h: Hash)
    ensures 0 <= idx < 16 ==> h == k.ep[idx]
  {
    k.ep[idx % 16]
  }

  /** Beyond the range the masks wrap: indices that differ by the table size select the same key. */
  lemma MaskedLookups(k: KeyTable, idx: int)
    ensures CastlingKey(k, idx + 4) == CastlingKey(k, idx)
    ensures EnPassantKey(k, idx + 16) == EnPassantKey(k, idx)
  {
  }

  /** XOR of the first n words of hs. */
  function XorPrefix(hs: seq<Hash>, n: nat): Hash
    requires n <= |hs|
    decreases n
  {
    if n == 0 then ZeroHash() else Xor(XorPrefix(hs, n - 1), hs[n - 1])
  }

  /** Replacing one word of hs changes its XOR by the old word XOR the new one. */
  lemma {:induction false} XorPrefixUpdate(hs: seq<Hash>, s: nat, v: Hash, n: nat)
    requires s < |hs| && n <= |hs|
    ensures XorPrefix(hs[s := v], n) == Xor(XorPrefix(hs, n), if s < n then Xor(hs[s], v) else ZeroHash())
    decreases n
  {
    if n > 0 {
      XorPrefixUpdate(hs, s, v, n - 1);
      var p := XorPrefix(hs, n - 1);
      if s < n - 1 {
        XorStepOther(p, Xor(hs[s], v), hs[n - 1]);
      } else if s == n - 1 {
        XorStepHere(p, hs[s], v);
      } else {
        XorStepOther(p, ZeroHash(), hs[n - 1]);
      }
    }
  }

  lemma XorStepOther(p: Hash, d: Hash, y: Hash)
    ensures Xor(Xor(p, d), y) == Xor(Xor(p, y), d)
  {
    assert forall i | 0 <= i < 64 :: Xor(Xor(p, d), y)[i] == Xor(Xor(p, y), d)[i];
  }

  lemma XorStepHere(p: Hash, y: Hash, z: Hash)
    ensures Xor(Xor(p, ZeroHash()), z) == Xor(Xor(p, y), Xor(y, z))
  {
    assert forall i | 0 <= i < 64 :: Xor(Xor(p, ZeroHash()), z)[i] == Xor(Xor(p, y), Xor(y, z))[i];
  }

  /** Number of generator outputs Init consumes: 64 * 12 piece keys, one side key, 4 castling, 16 en passant. */
  const StreamLength: nat := 64 * 12 + 1 + 4 + 16

  /** Position in the generator's output of each key, in Init's fill order. */
  function PieceSlot(sq: Square, i: Plane): nat { sq * 12 + i }
  const SideSlot: nat := 768
  function CastlingSlot(i: int): nat requires 0 <= i < 4 { 769 + i }
  function EpSlot(i: int): nat requires 0 <= i < 16 { 773 + i }

  /** Init's fill: the piece table square by square, then the side key, then the castling and en-passant keys. */
  function KeysFromStream(stream: seq<Hash>): (k: KeyTable)
    requires |stream| >= StreamLength
    ensures forall sq: Square, i: Plane :: k.table[sq][i] == stream[PieceSlot(sq, i)]
    ensures k.side == stream[SideSlot]
    ensures forall i :: 0 <= i < 4 ==> k.castling[i] == stream[CastlingSlot(i)]
    ensures forall i :: 0 <= i < 16 ==> k.ep[i] == stream[EpSlot(i)]
  {
    Keys(seq(64, sq requires 0 <= sq < 64 => seq(12, i requires 0 <= i < 12 => stream[sq * 12 + i])),
         stream[768],
         seq(4, i requires 0 <= i < 4 => stream[769 + i]),
         seq(16, i requires 0 <= i < 16 => stream[773 + i]))
  }

  /** Every key takes its own generator output: the slots are distinct and lie before StreamLength. */
  lemma SlotsDistinct(sq: Square, i: Plane, sq': Square, i': Plane, c: int, e: int)
    requires 0 <= c < 4 && 0 <= e < 16
    ensures PieceSlot(sq, i) == PieceSlot(sq', i') ==> sq == sq' && i == i'
    ensures PieceSlot(sq, i) < SideSlot < CastlingSlot(c) < EpSlot(e) < StreamLength
    ensures CastlingSlot(c) < EpSlot(0)
  {
  }

  /** The static tables with their `initialized` flag. */
  datatype ZobristState = ZobristState(initialized: bool, keys: KeyTable)

  const Uninitialized: ZobristState := ZobristState(false, ZeroKeys())

  /** Init: fill the tables once from the generator; later calls return at once. */
  function Init(st: ZobristState, stream: seq<Hash>): (r: ZobristState)
    requires |stream| >= StreamLength
    ensures r.initialized
    ensures !st.initialized ==> r.keys == KeysFromStream(stream)
    ensures st.initialized ==> r == st
  {
    if st.initialized then st else ZobristState(true, KeysFromStream(stream))
  }

  /** A second Init changes nothing, whatever the generator would produce. */
  lemma InitIdempotent(st: ZobristState, s1: seq<Hash>, s2: seq<Hash>)
    requires |s1| >= StreamLength && |s2| >= StreamLength
    ensures Init(Init(st, s1), s2) == Init(st, s1)
  {
  }
}
