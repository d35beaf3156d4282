/**
 * Piece-type codes, game results and the Move record of include/move.hpp,
 * and the move text ("e2e4", "e7e8q") written by moveToUci in src/mcts.cpp
 * and by its copy move_to_uci in src/python_bindings.cpp.
 */
module Pieces {
  import opened Text
  import opened Squares

  /** PieceType codes: NO_PIECE = 0, PAWN = 1, ..., KING = 6. */
  type Piece = x: int | 0 <= x <= 6

  const NoPiece: Piece := 0
  const Pawn: Piece := 1
  const Knight: Piece := 2
  const Bishop: Piece := 3
  const Rook: Piece := 4
  const Queen: Piece := 5
  const King: Piece := 6

  datatype GameResult = WhiteWin | BlackWin | Draw | Ongoing

  /** The enum values of GameResult: -1, 0 and 1 are the finished games' scores for white, 2 marks an unfinished one. */
  function ResultCode(g: GameResult): (code: int)
    ensures -1 <= code <= 2
    ensures code == 2 <==> g == Ongoing
  {
    match g
    case WhiteWin => 1
    case BlackWin => -1
    case Draw => 0
    case Ongoing => 2
  }

  lemma ResultCodeInjective(a: GameResult, b: GameResult)
    ensures ResultCode(a) == ResultCode(b) <==> a == b
  {
  }

  /**
   * A move as the engine stores it. The constructor's last two fields default
   * to NO_PIECE, as in `Move(f, t, pt, cp = NO_PIECE, pp = NO_PIECE)`.
   */
  datatype Move = Move(from: Square, to: Square, pieceType: Piece,
                       captured: Piece := NoPiece, promotion: Piece := NoPiece)

  /** `Move()`: A1 to A1 with every piece field NO_PIECE. */
  const DefaultMove: Move := Move(A1, A1, NoPiece)

  lemma ConstructorDefaults(f: Square, t: Square, pt: Piece)
    ensures Move(f, t, pt).captured == NoPiece && Move(f, t, pt).promotion == NoPiece
    ensures DefaultMove.from == A1 && DefaultMove.to == A1
    ensures DefaultMove.pieceType == NoPiece && DefaultMove.captured == NoPiece && DefaultMove.promotion == NoPiece
  {
  }

  /** The promotion suffix: 'r', 'b', 'n' for rook, bishop, knight, and 'q' for any other code. */
  function PromotionLetter(p: Piece): char {
    if p == Rook then 'r' else if p == Bishop then 'b' else if p == Knight then 'n' else 'q'
  }

  /** Codes a generated promotion can carry: none, or queen, rook, bishop, knight. */
  predicate StandardPromotion(p: Piece) {
    p == NoPiece || p == Queen || p == Rook || p == Bishop || p == Knight
  }

  /** moveToUci / move_to_uci: origin name, destination name and an optional promotion letter. */
  function MoveToUci(m: Move): (s: string)
    ensures |s| == if m.promotion == NoPiece then 4 else 5
    ensures s[..2] == SquareToStr(m.from) && s[2..4] == SquareToStr(m.to)
    ensures m.promotion != NoPiece ==> s[4] == PromotionLetter(m.promotion)
  {
    var s := SquareToStr(m.from) + SquareToStr(m.to);
    if m.promotion != NoPiece then s + [PromotionLetter(m.promotion)] else s
  }

  /**
   * movesToUci: the texts of a move list, in order; each text is four or five
   * characters and decodes back to its move's origin and destination.
   */
  function MovesToUci(ms: seq<Move>): (us: seq<string>)
    ensures |us| == |ms| && forall i :: 0 <= i < |ms| ==> us[i] == MoveToUci(ms[i])
    ensures forall i :: 0 <= i < |ms| ==>
              |us[i]| == (if ms[i].promotion == NoPiece then 4 else 5)
              && StrToSquare(us[i][..2]) == ms[i].from && StrToSquare(us[i][2..4]) == ms[i].to
  {
    UcisDecode(ms);
    seq(|ms|, i requires 0 <= i < |ms| => MoveToUci(ms[i]))
  }

  lemma UcisDecode(ms: seq<Move>)
    ensures forall i :: 0 <= i < |ms| ==>
              StrToSquare(MoveToUci(ms[i])[..2]) == ms[i].from && StrToSquare(MoveToUci(ms[i])[2..4]) == ms[i].to
  {
    forall i | 0 <= i < |ms|
      ensures StrToSquare(MoveToUci(ms[i])[..2]) == ms[i].from && StrToSquare(MoveToUci(ms[i])[2..4]) == ms[i].to
    {
      UciDecodesSquares(ms[i]);
    }
  }

  /** The text decodes back to the move's squares. */
  lemma UciDecodesSquares(m: Move)
    ensures StrToSquare(MoveToUci(m)[..2]) == m.from
    ensures StrToSquare(MoveToUci(m)[2..4]) == m.to
  {
    SquareNameRoundTrip(m.from);
    SquareNameRoundTrip(m.to);
  }

  /**
   * With standard promotion codes, two moves have the same text exactly when
   * they agree on origin, destination and promotion piece: the key by which
   * generated move lists are sorted.
   */
  lemma UciInjective(a: Move, b: Move)
    requires StandardPromotion(a.promotion) && StandardPromotion(b.promotion)
    ensures MoveToUci(a) == MoveToUci(b) <==> (a.from, a.to, a.promotion) == (b.from, b.to, b.promotion)
  {
    if MoveToUci(a) == MoveToUci(b) {
      UciDecodesSquares(a);
      UciDecodesSquares(b);
      if a.promotion != NoPiece {
        assert MoveToUci(a)[4] == MoveToUci(b)[4];
      }
    }
  }
}
