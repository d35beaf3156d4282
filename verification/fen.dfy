/**
 * Forsyth-Edwards Notation: Board::SetFromFen and Board::GetFen of
 * src/board.cpp. A FEN line is six space-separated fields: the piece
 * placement (rank 8 first, ranks separated by '/', a digit for a run of
 * empty squares), the side to move, the castling rights, the en-passant
 * target, the halfmove clock and the fullmove number.
 */
module Fen {
  import opened Text
  import opened Squares
  import opened Pieces
  import opened Zobrist
  import opened Position

  // ---------------------------------------------------------------------------
  // Piece letters

  /** The letter GetFen writes for a piece of plane p: PNBRQK for white, pnbrqk for black. */
  function PieceLetter(p: Plane): char {
    "PNBRQKpnbrqk"[p]
  }

  /** SetFromFen's switch on the lower-cased letter; any other character is NO_PIECE. */
  function LetterPiece(c: char): Piece {
    var l := ToLower(c);
    if l == 'p' then Pawn
    else if l == 'n' then Knight
    else if l == 'b' then Bishop
    else if l == 'r' then Rook
    else if l == 'q' then Queen
    else if l == 'k' then King
    else NoPiece
  }

  /** Reading a written letter gives back its piece type and, through the letter's case, its colour. */
  lemma LetterRoundTrip(p: Plane)
    ensures LetterPiece(PieceLetter(p)) == TypeOfPlane(p)
    ensures IsUpper(PieceLetter(p)) == IsWhitePlane(p)
    ensures PlaneOf(LetterPiece(PieceLetter(p)), IsUpper(PieceLetter(p))) == p
    ensures !IsDigit(PieceLetter(p)) && !IsSpace(PieceLetter(p)) && PieceLetter(p) != '/'
  {
  }

  // ---------------------------------------------------------------------------
  // Writing the placement

  /** A character GetFen can write inside the placement field. */
  predicate PlacementChar(c: char) {
    IsDigit(c) || exists p: Plane :: PieceLetter(p) == c
  }

  /** The count of a run of empty squares, written only when the run is non-empty. */
  function EmptyRun(e: nat): (s: string)
    requires e < 10
    ensures e == 0 ==> s == []
    ensures e > 0 ==> s == [DigitChar(e)]
  {
    if e == 0 then [] else NatToString(e)
  }

  /** An Occupant value: a plane, or -1 for an empty square. */
  predicate IsOccupant(o: int) {
    -1 <= o < 12
  }

  /** The occupants of rank r, file a first. */
  function RankOccupants(bits: set<Bit>, r: int): (os: seq<int>)
    requires 0 <= r < 8
    ensures |os| == 8 && forall f :: 0 <= f < 8 ==> os[f] == Occupant(bits, At(r, f))
  {
    seq(8, f requires 0 <= f < 8 => Occupant(bits, At(r, f)))
  }

  /**
   * GetFen's loop over the rest of a rank whose occupants are os, when the
   * e squares before them were empty: each piece's letter, preceded by the
   * length of the run of empty squares before it, and the final run's length
   * at the end.
   */
  function RunText(os: seq<int>, e: nat): (s: string)
    requires e + |os| <= 8 && forall i :: 0 <= i < |os| ==> IsOccupant(os[i])
    ensures forall i :: 0 <= i < |s| ==> PlacementChar(s[i])
    ensures |os| > 0 || e > 0 ==> |s| > 0
    decreases |os|
  {
    if |os| == 0 then EmptyRun(e)
    else if os[0] == -1 then RunText(os[1..], e + 1)
    else
      assert IsOccupant(os[0]);
      var s := EmptyRun(e) + [PieceLetter(os[0])] + RunText(os[1..], 0);
      assert forall i :: 0 <= i < |s| ==> PlacementChar(s[i]) by {
        assert PlacementChar(PieceLetter(os[0]));
      }
      s
  }

  function RankText(bits: set<Bit>, r: int): (s: string)
    requires 0 <= r < 8
    ensures |s| > 0 && forall i :: 0 <= i < |s| ==> PlacementChar(s[i])
  {
    RunText(RankOccupants(bits, r), 0)
  }

  /** The eight rank texts, rank 8 first. */
  function RankTexts(bits: set<Bit>): (ts: seq<string>)
    ensures |ts| == 8 && forall j :: 0 <= j < 8 ==> ts[j] == RankText(bits, 7 - j)
  {
    seq(8, i requires 0 <= i < 8 => RankText(bits, 7 - i))
  }

  function PlacementText(bits: set<Bit>): string {
    JoinSlash(RankTexts(bits))
  }

  // ---------------------------------------------------------------------------
  // Writing the other fields

  /** The castling field: '-' for no rights, otherwise the letters of the set bits in the order KQkq. */
  function CastlingText(c: Rights): string {
    if c == 0 then "-"
    else
      (if HasRight(c, 0) then "K" else "") + (if HasRight(c, 1) then "Q" else "")
      + (if HasRight(c, 2) then "k" else "") + (if HasRight(c, 3) then "q" else "")
  }

  function EpText(ep: EpTarget): string {
    if ep >= 0 then SquareToStr(ep) else "-"
  }

  /** The six fields of GetFen; the fullmove number is always written as 1. */
  function FenFields(b: Board): seq<string> {
    [PlacementText(b.bits), if b.whiteToMove then "w" else "b", CastlingText(b.castling),
     EpText(b.epTarget), NatToString(b.halfMove), "1"]
  }

  /**
   * GetFen: the six fields joined by single spaces. No field is empty or holds
   * a space, so splitting the text at its spaces gives the fields back.
   */
  function GetFen(b: Board): (s: string)
    ensures Tokens(s) == FenFields(b)
    ensures |Tokens(s)| == 6 && TokenAt(s, 5) == "1"
  {
    FenTokens(b);
    JoinSpaces(FenFields(b))
  }

  // ---------------------------------------------------------------------------
  // Reading

  /**
   * SetFromFen's loop over one rank's text: stop at the end of the text or
   * once the file reaches 8; a digit advances the file by its value; any
   * other character advances it by one, after placing its piece when it
   * names one.
   */
  function ParseRank(s: string, r: int, file: int, bits: set<Bit>): set<Bit>
    requires 0 <= r < 8 && file >= 0
    decreases |s|
  {
    if |s| == 0 || file >= 8 then bits
    else if IsDigit(s[0]) then ParseRank(s[1..], r, file + DigitValue(s[0]), bits)
    else
      var pt := LetterPiece(s[0]);
      var next := if pt != NoPiece then SetPiece(bits, At(r, file), pt, IsUpper(s[0])) else bits;
      ParseRank(s[1..], r, file + 1, next)
  }

  /** The placement's fields from the i-th on, field i describing rank 8 - i; fields past the eighth are ignored. */
  function ParseRanks(fields: seq<string>, i: nat, bits: set<Bit>): set<Bit>
    requires i <= 8
    decreases 8 - i
  {
    if i == 8 || i >= |fields| then bits
    else ParseRanks(fields, i + 1, ParseRank(fields[i], 7 - i, 0, bits))
  }

  /** The placement split at '/' into at most eight rank fields, read onto an empty board. */
  function ParsePlacement(placement: string): set<Bit> {
    ParseRanks(SplitSlash(placement), 0, {})
  }

  /** The castling bit a letter sets: K, Q, k, q; any other character sets none. */
  function RightOfLetter(c: char): (m: bv8)
    ensures m == 0 || m == 1 || m == 2 || m == 4 || m == 8
  {
    if c == 'K' then 1 else if c == 'Q' then 2 else if c == 'k' then 4 else if c == 'q' then 8 else 0
  }

  function ParseRightsFrom(t: string, acc: Rights): Rights
    decreases |t|
  {
    if |t| == 0 then acc else ParseRightsFrom(t[1..], acc | RightOfLetter(t[0]))
  }

  /** The castling field: "-" gives no rights, any other text ORs in the bits of its letters. */
  function ParseRights(t: string): Rights {
    if t == "-" then 0 else ParseRightsFrom(t, 0)
  }

  /** The en-passant field: "-" or a missing field gives -1, anything else the square StrToSquare reads. */
  function ParseEp(t: string): EpTarget {
    if t == "-" || |t| == 0 then -1 else StrToSquare(t)
  }

  /** The halfmove field: 0 when missing, otherwise the value of its leading digits. */
  function ParseHalfMove(t: string): nat {
    if |t| == 0 then 0 else ReadDecimal(t, 0)
  }

  /**
   * SetFromFen: the first five whitespace-separated words, a missing one read
   * as empty; the side is white unless the side word starts with something
   * other than 'w'; the undo stack is cleared and the hash recomputed.
   */
  function SetFromFen(k: KeyTable, fen: string): (b: Board)
    ensures b.undo == [] && b.hash == ComputeHash(k, b)
    ensures b.whiteToMove <==> TokenAt(fen, 1) == "" || TokenAt(fen, 1)[0] == 'w'
  {
    var b := Board(ParsePlacement(TokenAt(fen, 0)),
                   TokenAt(fen, 1) == "" || TokenAt(fen, 1)[0] == 'w',
                   ZeroHash(),
                   ParseRights(TokenAt(fen, 2)),
                   ParseEp(TokenAt(fen, 3)),
                   ParseHalfMove(TokenAt(fen, 4)),
                   []);
    b.(hash := ComputeHash(k, b))
  }
  // ---------------------------------------------------------------------------
  // Reading back what GetFen wrote

  /**
   * The bits GetFen shows: on each square only the first bitboard holding it
   * is written. On a well-formed board that is every bit.
   */
  function Visible(bits: set<Bit>): (v: set<Bit>)
    ensures v <= bits
    ensures WellFormed(bits) ==> v == bits
  {
    var v := set x | x in bits && Occupant(bits, x.sq) == x.plane;
    assert WellFormed(bits) ==> v == bits by {
      if WellFormed(bits) {
        forall x | x in bits ensures x in v {
          OccupantOfWellFormed(bits, x.plane, x.sq);
        }
      }
    }
    v
  }

  /** The visible bits of rank r from file f on. */
  function RankBits(bits: set<Bit>, r: int, f: int): set<Bit> {
    set x | x in Visible(bits) && Rank(x.sq) == r && File(x.sq) >= f
  }

  /** The visible bits of the ranks below n. */
  function RanksBelow(bits: set<Bit>, n: int): set<Bit> {
    set x | x in Visible(bits) && Rank(x.sq) < n
  }

  lemma PlacementCharIsNoSeparator(c: char)
    requires PlacementChar(c)
    ensures c != '/' && !IsSpace(c)
  {
    if !IsDigit(c) {
      var p: Plane :| PieceLetter(p) == c;
      LetterRoundTrip(p);
    }
  }

  /**
   * Reading the text of the occupants os of rank r from file f on, with the
   * reader e files back at the start of the run of empty squares before f,
   * adds exactly the visible bits of the rank from f on.
   */
  lemma {:induction false} ParseRunText(bits: set<Bit>, os: seq<int>, r: int, f: int, e: nat, acc: set<Bit>)
    requires 0 <= r < 8 && e <= f <= 8 && os == RankOccupants(bits, r)[f..]
    ensures ParseRank(RunText(os, e), r, f - e, acc) == acc + RankBits(bits, r, f)
    decreases |os|, 1
  {
    if |os| == 0 {
      assert RankBits(bits, r, f) == {};
    } else if os[0] == -1 {
      ParseRunEmpty(bits, os, r, f, e, acc);
    } else {
      ParseRunPiece(bits, os, r, f, e, acc);
    }
  }

  /** ParseRunText's step over an empty square: the run grows by one. */
  lemma {:induction false} ParseRunEmpty(bits: set<Bit>, os: seq<int>, r: int, f: int, e: nat, acc: set<Bit>)
    requires 0 <= r < 8 && e <= f <= 8 && os == RankOccupants(bits, r)[f..]
    requires |os| > 0 && os[0] == -1
    ensures ParseRank(RunText(os, e), r, f - e, acc) == acc + RankBits(bits, r, f)
    decreases |os|, 0
  {
    var rest := os[1..];
    assert rest == RankOccupants(bits, r)[f + 1..];
    RunTextSkipsEmpty(os, e);
    ParseRunText(bits, rest, r, f + 1, e + 1, acc);
    RankBitsSkipEmpty(bits, r, f);
  }

  /** An empty square lengthens the pending run and writes nothing. */
  lemma RunTextSkipsEmpty(os: seq<int>, e: nat)
    requires e + |os| <= 8 && forall i :: 0 <= i < |os| ==> IsOccupant(os[i])
    requires |os| > 0 && os[0] == -1
    ensures RunText(os, e) == RunText(os[1..], e + 1)
  {
  }

  /** An empty square adds nothing to the visible bits of its rank from its file on. */
  lemma RankBitsSkipEmpty(bits: set<Bit>, r: int, f: int)
    requires 0 <= r < 8 && 0 <= f < 8 && Occupant(bits, At(r, f)) == -1
    ensures RankBits(bits, r, f) == RankBits(bits, r, f + 1)
  {
    forall x | x in RankBits(bits, r, f) ensures File(x.sq) != f {
      SquareIsRankFile(x.sq);
    }
  }

  /** ParseRunText's step over an occupied square: the count of the run, then the piece's letter. */
  lemma {:induction false} ParseRunPiece(bits: set<Bit>, os: seq<int>, r: int, f: int, e: nat, acc: set<Bit>)
    requires 0 <= r < 8 && e <= f <= 8 && os == RankOccupants(bits, r)[f..]
    requires |os| > 0 && os[0] != -1
    ensures ParseRank(RunText(os, e), r, f - e, acc) == acc + RankBits(bits, r, f)
    decreases |os|, 0
  {
    var sq := At(r, f);
    var o := os[0];
    assert o == Occupant(bits, sq);
    assert os[1..] == RankOccupants(bits, r)[f + 1..];
    var tail := RunText(os[1..], 0);
    var b := Bit(o, sq);
    assert RunText(os, e) == EmptyRun(e) + ([PieceLetter(o)] + tail);
    ParseRankRun(e, [PieceLetter(o)] + tail, r, f, acc);
    ParseRankLetter(o, tail, r, f, acc);
    ParseRunText(bits, os[1..], r, f + 1, 0, acc + {b});
    RankBitsSplit(bits, r, f, o);
    UnionAssoc(acc, {b}, RankBits(bits, r, f + 1));
  }

  lemma UnionAssoc<T>(a: set<T>, b: set<T>, c: set<T>)
    ensures a + b + c == a + (b + c)
  {
  }

  /** The count of a run of e empty squares, read at file f - e, moves the reader to file f. */
  lemma ParseRankRun(e: nat, rest: string, r: int, f: int, acc: set<Bit>)
    requires e <= f < 8 && 0 <= r < 8
    ensures ParseRank(EmptyRun(e) + rest, r, f - e, acc) == ParseRank(rest, r, f, acc)
  {
    if e == 0 {
      assert EmptyRun(e) + rest == rest;
    } else {
      ParseRankDigit(e, rest, r, f, acc);
    }
  }

  /** A run count of e read at file f - e moves the reader to file f. */
  lemma ParseRankDigit(e: nat, rest: string, r: int, f: int, acc: set<Bit>)
    requires 0 < e <= f < 8 && 0 <= r < 8
    ensures ParseRank([DigitChar(e)] + rest, r, f - e, acc) == ParseRank(rest, r, f, acc)
  {
    assert ([DigitChar(e)] + rest)[1..] == rest;
  }

  /** A piece letter read at file f places its piece on (r, f) and moves to file f + 1. */
  lemma ParseRankLetter(o: Plane, rest: string, r: int, f: int, acc: set<Bit>)
    requires 0 <= f < 8 && 0 <= r < 8
    ensures ParseRank([PieceLetter(o)] + rest, r, f, acc) == ParseRank(rest, r, f + 1, acc + {Bit(o, At(r, f))})
  {
    LetterRoundTrip(o);
    assert ([PieceLetter(o)] + rest)[1..] == rest;
  }

  lemma RankBitsSplit(bits: set<Bit>, r: int, f: int, o: Plane)
    requires 0 <= r < 8 && 0 <= f < 8 && Occupant(bits, At(r, f)) == o
    ensures RankBits(bits, r, f) == {Bit(o, At(r, f))} + RankBits(bits, r, f + 1)
  {
    forall x | x in RankBits(bits, r, f) && File(x.sq) == f ensures x == Bit(o, At(r, f)) {
      SquareIsRankFile(x.sq);
    }
  }

  /** Reading the rank texts from field i on adds the visible bits of ranks 1 .. 8 - i. */
  lemma {:induction false} ParseRanksOfTexts(bits: set<Bit>, ts: seq<string>, i: nat, acc: set<Bit>)
    requires i <= 8 && |ts| == 8
    requires forall j :: 0 <= j < 8 ==> ts[j] == RankText(bits, 7 - j)
    ensures ParseRanks(ts, i, acc) == acc + RanksBelow(bits, 8 - i)
    decreases 8 - i
  {
    if i == 8 {
      assert RanksBelow(bits, 0) == {};
    } else {
      var row := RankBits(bits, 7 - i, 0);
      ParseRankText(bits, 7 - i, acc);
      ParseRanksOfTexts(bits, ts, i + 1, acc + row);
      RanksBelowSplit(bits, 7 - i);
      UnionAssoc(acc, row, RanksBelow(bits, 7 - i));
    }
  }

  lemma ParseRankText(bits: set<Bit>, r: int, acc: set<Bit>)
    requires 0 <= r < 8
    ensures ParseRank(RankText(bits, r), r, 0, acc) == acc + RankBits(bits, r, 0)
  {
    ParseRunText(bits, RankOccupants(bits, r), r, 0, 0, acc);
  }

  lemma RanksBelowSplit(bits: set<Bit>, r: int)
    ensures RanksBelow(bits, r + 1) == RankBits(bits, r, 0) + RanksBelow(bits, r)
  {
  }

  /** The placement field GetFen writes reads back as the visible bits. */
  lemma PlacementRoundTrip(bits: set<Bit>)
    ensures ParsePlacement(PlacementText(bits)) == Visible(bits)
  {
    var ts := RankTexts(bits);
    forall i, j | 0 <= i < |ts| && 0 <= j < |ts[i]| ensures ts[i][j] != '/' {
      PlacementCharIsNoSeparator(ts[i][j]);
    }
    SplitOfJoin(ts);
    ParseRanksOfTexts(bits, ts, 0, {});
    assert RanksBelow(bits, 8) == Visible(bits);
  }
  lemma {:induction false} ParseRightsAppend(a: string, c: string, acc: Rights)
    ensures ParseRightsFrom(a + c, acc) == ParseRightsFrom(c, ParseRightsFrom(a, acc))
    decreases |a|
  {
    if |a| == 0 {
      assert a + c == c;
    } else {
      assert (a + c)[1..] == a[1..] + c;
      ParseRightsAppend(a[1..], c, acc | RightOfLetter(a[0]));
    }
  }

  /** The letter GetFen writes for right i, if the right is held, ORs in exactly that right's bit. */
  lemma ParseRightLetter(c: Rights, i: int, acc: Rights)
    requires 0 <= i < 4
    ensures ParseRightsFrom(if HasRight(c, i) then ["KQkq"[i]] else "", acc) == acc | (c & CastlingBit(i))
  {
    if HasRight(c, i) {
      assert ["KQkq"[i]][1..] == "";
    }
  }

  /** The castling field reads back as the mask it was written from. */
  lemma CastlingRoundTrip(c: Rights)
    ensures ParseRights(CastlingText(c)) == c
  {
    if c != 0 {
      var t0, t1, t2, t3 := if HasRight(c, 0) then "K" else "", if HasRight(c, 1) then "Q" else "",
                            if HasRight(c, 2) then "k" else "", if HasRight(c, 3) then "q" else "";
      assert CastlingText(c) == t0 + t1 + t2 + t3;
      ParseRightsAppend(t0 + t1 + t2, t3, 0);
      ParseRightsAppend(t0 + t1, t2, 0);
      ParseRightsAppend(t0, t1, 0);
      ParseRightLetter(c, 0, 0);
      var a0 := 0 | (c & 1);
      ParseRightLetter(c, 1, a0);
      var a1 := a0 | (c & 2);
      ParseRightLetter(c, 2, a1);
      var a2 := a1 | (c & 4);
      ParseRightLetter(c, 3, a2);
      assert a2 | (c & 8) == c;
      assert CastlingText(c) != "-" by {
        assert |CastlingText(c)| >= 1;
        if |CastlingText(c)| == 1 {
          assert CastlingText(c)[0] in "KQkq";
        }
      }
    }
  }

  /** The en-passant field reads back as the target it was written from. */
  lemma EpRoundTrip(ep: EpTarget)
    ensures ParseEp(EpText(ep)) == ep
  {
    if ep >= 0 {
      SquareNameRoundTrip(ep);
    }
  }

  /** The halfmove field reads back as the clock it was written from. */
  lemma HalfMoveRoundTrip(h: nat)
    ensures ParseHalfMove(NatToString(h)) == h
  {
    DecimalRoundTrip(h);
  }

  /** The six fields, none empty and none with a space, split back out of their join. */
  lemma FenTokens(b: Board)
    ensures Tokens(JoinSpaces(FenFields(b))) == FenFields(b)
  {
    var fs := FenFields(b);
    var ts := RankTexts(b.bits);
    forall i | 0 <= i < 8 ensures NoSpace(ts[i]) {
      forall j | 0 <= j < |ts[i]| ensures !IsSpace(ts[i][j]) {
        PlacementCharIsNoSeparator(ts[i][j]);
      }
    }
    assert |fs[2]| > 0 && NoSpace(fs[2]) by {
      CastlingTextShape(b.castling);
    }
    assert NoSpace(fs[4]);
    TokensOfJoin(fs);
  }

  lemma CastlingTextShape(c: Rights)
    ensures |CastlingText(c)| > 0 && NoSpace(CastlingText(c))
  {
    if c != 0 {
      assert HasRight(c, 0) || HasRight(c, 1) || HasRight(c, 2) || HasRight(c, 3);
    }
  }

  /**
   * Reading back what GetFen wrote reproduces the visible pieces, the side to
   * move, the castling mask, the en-passant target and the halfmove clock;
   * the undo stack comes back empty and the hash recomputed. A well-formed
   * board comes back whole.
   */
  lemma FenRoundTrip(k: KeyTable, b: Board)
    ensures SetFromFen(k, GetFen(b)) ==
              Board(Visible(b.bits), b.whiteToMove, SetFromFen(k, GetFen(b)).hash,
                    b.castling, b.epTarget, b.halfMove, [])
    ensures WellFormed(b.bits) ==> SetFromFen(k, GetFen(b)) == b.(hash := ComputeHash(k, b), undo := [])
  {
    PlacementRoundTrip(b.bits);
    CastlingRoundTrip(b.castling);
    EpRoundTrip(b.epTarget);
    HalfMoveRoundTrip(b.halfMove);
  }

  // ---------------------------------------------------------------------------
  // Whatever the text, the board read is well formed

  /** One rank's text places at most one piece per square, all on rank r from file f on. */
  lemma {:induction false} ParseRankShape(s: string, r: int, f: int, acc: set<Bit>)
    requires 0 <= r < 8 && f >= 0
    requires WellFormed(acc) && forall x :: x in acc ==> !(Rank(x.sq) == r && File(x.sq) >= f)
    ensures WellFormed(ParseRank(s, r, f, acc))
    ensures forall x :: x in ParseRank(s, r, f, acc) ==> x in acc || (Rank(x.sq) == r && File(x.sq) >= f)
    decreases |s|
  {
    if |s| == 0 || f >= 8 {
    } else if IsDigit(s[0]) {
      ParseRankShape(s[1..], r, f + DigitValue(s[0]), acc);
    } else {
      var pt := LetterPiece(s[0]);
      PlaceShape(r, f, acc, pt, IsUpper(s[0]));
      ParseRankShape(s[1..], r, f + 1, SetPiece(acc, At(r, f), pt, IsUpper(s[0])));
    }
  }

  /** Placing a piece on the first free file of rank r keeps the board well formed and the files beyond it free. */
  lemma PlaceShape(r: int, f: int, acc: set<Bit>, pt: Piece, white: bool)
    requires 0 <= r < 8 && 0 <= f < 8
    requires WellFormed(acc) && forall x :: x in acc ==> !(Rank(x.sq) == r && File(x.sq) >= f)
    ensures var next := SetPiece(acc, At(r, f), pt, white);
            WellFormed(next) && forall x :: x in next ==> x in acc || (Rank(x.sq) == r && File(x.sq) >= f)
    ensures forall x :: x in SetPiece(acc, At(r, f), pt, white) ==> !(Rank(x.sq) == r && File(x.sq) >= f + 1)
  {
    if pt != NoPiece {
      assert EmptyAt(acc, At(r, f));
      AddWellFormed(acc, PlaneOf(pt, white), At(r, f));
    }
  }

  /** The fields from the i-th on place pieces only on ranks 1 .. 8 - i, at most one per square. */
  lemma {:induction false} ParseRanksShape(fields: seq<string>, i: nat, acc: set<Bit>)
    requires i <= 8
    requires WellFormed(acc) && forall x :: x in acc ==> Rank(x.sq) > 7 - i
    ensures WellFormed(ParseRanks(fields, i, acc))
    decreases 8 - i
  {
    if i < 8 && i < |fields| {
      ParseRankShape(fields[i], 7 - i, 0, acc);
      ParseRanksShape(fields, i + 1, ParseRank(fields[i], 7 - i, 0, acc));
    }
  }

  /** SetFromFen never puts two pieces on one square, whatever text it is given. */
  lemma SetFromFenWellFormed(k: KeyTable, fen: string)
    ensures WellFormed(SetFromFen(k, fen).bits)
  {
    ParseRanksShape(SplitSlash(TokenAt(fen, 0)), 0, {});
  }

  /** An empty text reads as the empty board, white to move, no castling rights, no target, clock 0. */
  lemma EmptyFen(k: KeyTable)
    ensures SetFromFen(k, "").bits == {}
    ensures SetFromFen(k, "").whiteToMove && SetFromFen(k, "").castling == 0
    ensures SetFromFen(k, "").epTarget == -1 && SetFromFen(k, "").halfMove == 0
  {
    assert SplitSlash("") == [""];
  }
}
