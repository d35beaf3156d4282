/**
 * Board squares 0..63 (A1 = 0, B1 = 1, ..., H8 = 63; index = rank * 8 + file)
 * and their algebraic names ("e4"): SquareToStr and StrToSquare of
 * src/move.cpp.
 */
module Squares {
  import opened Text

  type Square = x: int | 0 <= x < 64

  function Rank(s: Square): (r: int)
    ensures 0 <= r < 8
  {
    s / 8
  }

  function File(s: Square): (f: int)
    ensures 0 <= f < 8
  {
    s % 8
  }

  function At(rank: int, file: int): (s: Square)
    requires 0 <= rank < 8 && 0 <= file < 8
    ensures Rank(s) == rank && File(s) == file
  {
    rank * 8 + file
  }

  lemma SquareIsRankFile(s: Square)
    ensures s == At(Rank(s), File(s))
  {
  }

  const A1: Square := 0
  const B1: Square := 1
  const C1: Square := 2
  const D1: Square := 3
  const E1: Square := 4
  const F1: Square := 5
  const G1: Square := 6
  const H1: Square := 7
  const A8: Square := 56
  const B8: Square := 57
  const C8: Square := 58
  const D8: Square := 59
  const E8: Square := 60
  const F8: Square := 61
  const G8: Square := 62
  const H8: Square := 63

  function FileLetter(f: int): char
    requires 0 <= f < 8
  {
    ('a' as int + f) as char
  }

  function RankDigit(r: int): char
    requires 0 <= r < 8
  {
    ('1' as int + r) as char
  }

  /** SquareToStr: the file letter 'a'..'h' followed by the rank digit '1'..'8'. */
  function SquareToStr(s: Square): (r: string)
    ensures |r| == 2
    ensures 'a' <= r[0] <= 'h' && '1' <= r[1] <= '8'
    ensures NoSpace(r) && !IsDigit(r[0])
    ensures forall i :: 0 <= i < 2 ==> r[i] != '/' && r[i] != '-'
  {
    [FileLetter(File(s)), RankDigit(Rank(s))]
  }

  /** Text t names square s: its first letter is s's file in either case, its second is s's rank. */
  predicate Names(t: string, s: Square) {
    |t| >= 2 && ToLower(t[0]) == FileLetter(File(s)) && t[1] == RankDigit(Rank(s))
  }

  /**
   * StrToSquare: the square named by the first two characters, and A1 for a
   * text shorter than two characters or whose file or rank is out of range.
   */
  function StrToSquare(t: string): (r: Square)
    ensures forall s: Square :: Names(t, s) ==> r == s
    ensures (forall s: Square :: !Names(t, s)) ==> r == A1
  {
    if |t| < 2 then A1
    else
      var file := ToLower(t[0]) as int - 'a' as int;
      var rank := t[1] as int - '1' as int;
      if file < 0 || file > 7 || rank < 0 || rank > 7 then A1
      else
        assert Names(t, At(rank, file));
        rank * 8 + file
  }

  /** Reading back the name of a square gives the square. */
  lemma SquareNameRoundTrip(s: Square)
    ensures StrToSquare(SquareToStr(s)) == s
  {
    assert Names(SquareToStr(s), s);
  }

  /** Conversely, writing the square read from a valid name gives that name in lower case. */
  lemma SquareNameRoundTripText(t: string, s: Square)
    requires Names(t, s)
    ensures SquareToStr(StrToSquare(t)) == [ToLower(t[0]), t[1]]
  {
  }

  /** Only the first two characters matter, and the file letter is case-insensitive. */
  lemma StrToSquareIgnoresCaseAndTail(t: string, u: string)
    requires |t| >= 2 && |u| >= 2
    requires ToLower(t[0]) == ToLower(u[0]) && t[1] == u[1]
    ensures StrToSquare(t) == StrToSquare(u)
  {
    forall s: Square
      ensures Names(t, s) <==> Names(u, s)
    {
    }
  }
}
