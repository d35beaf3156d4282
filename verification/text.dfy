/**
 * Character classes, decimal numbers, whitespace tokenising and field
 * splitting, as the board code uses them through <cctype>, std::istringstream
 * and std::ostringstream. Characters are compared by code point, which agrees
 * with the C locale for the ASCII text the engine reads and writes.
 */
module Text {

  /** `std::isdigit` in the C locale. */
  predicate IsDigit(c: char) {
    '0' <= c <= '9'
  }

  /** `std::isupper` in the C locale. */
  predicate IsUpper(c: char) {
    'A' <= c <= 'Z'
  }

  /** `std::isspace` in the C locale: space, \t, \n, \v, \f and \r. */
  predicate IsSpace(c: char) {
    c == ' ' || c == '\t' || c == '\n' || c == '\r' || c as int == 11 || c as int == 12
  }

  /** `std::tolower` in the C locale: only 'A'..'Z' change. */
  function ToLower(c: char): (r: char)
    ensures IsUpper(c) ==> r as int == c as int + 32
    ensures !IsUpper(c) ==> r == c
  {
    if IsUpper(c) then (c as int + 32) as char else c
  }

  function DigitValue(c: char): nat
    requires IsDigit(c)
  {
    c as int - '0' as int
  }

  function DigitChar(d: nat): (c: char)
    requires d < 10
    ensures IsDigit(c) && DigitValue(c) == d
  {
    ('0' as int + d) as char
  }

  predicate AllDigits(s: string) {
    forall i :: 0 <= i < |s| ==> IsDigit(s[i])
  }

  predicate NoSpace(s: string) {
    forall i :: 0 <= i < |s| ==> !IsSpace(s[i])
  }

  /** Decimal text of n, as `operator<<` writes a non-negative int. */
  function NatToString(n: nat): (s: string)
    ensures |s| >= 1 && AllDigits(s)
    ensures s[0] != '0' || n == 0
    decreases n
  {
    if n < 10 then [DigitChar(n)] else NatToString(n / 10) + [DigitChar(n % 10)]
  }

  /**
   * The halfmove-clock reader: accumulate v := v * 10 + digit over the
   * leading digits and stop at the first other character.
   */
  function ReadDecimal(s: string, acc: nat): nat
    decreases |s|
  {
    if |s| == 0 || !IsDigit(s[0]) then acc else ReadDecimal(s[1..], acc * 10 + DigitValue(s[0]))
  }

  lemma {:induction false} ReadDecimalAppend(x: string, y: string, acc: nat)
    requires AllDigits(x)
    ensures ReadDecimal(x + y, acc) == ReadDecimal(y, ReadDecimal(x, acc))
    decreases |x|
  {
    if |x| == 0 {
      assert x + y == y;
    } else {
      assert (x + y)[0] == x[0];
      assert (x + y)[1..] == x[1..] + y;
      ReadDecimalAppend(x[1..], y, acc * 10 + DigitValue(x[0]));
    }
  }

  /** Reading back what NatToString wrote gives the number again. */
  lemma {:induction false} DecimalRoundTrip(n: nat)
    ensures ReadDecimal(NatToString(n), 0) == n
    decreases n
  {
    var d := DigitChar(n % 10);
    if n < 10 {
      assert NatToString(n) == [d];
      assert ReadDecimal([d][1..], DigitValue(d)) == n;
    } else {
      DecimalRoundTrip(n / 10);
      ReadDecimalAppend(NatToString(n / 10), [d], 0);
      assert [d][1..] == [];
    }
  }

  /** Length of the leading run of characters that are not `stop`. */
  function RunLength(s: string, stop: char -> bool): (k: nat)
    ensures k <= |s|
    ensures forall i :: 0 <= i < k ==> !stop(s[i])
    ensures k < |s| ==> stop(s[k])
    decreases |s|
  {
    if |s| == 0 || stop(s[0]) then 0 else 1 + RunLength(s[1..], stop)
  }

  /**
   * Whitespace-separated words, in order: what successive `iss >> word`
   * extractions read from the text.
   */
  function Tokens(s: string): seq<string>
    decreases |s|
  {
    if |s| == 0 then []
    else if IsSpace(s[0]) then Tokens(s[1..])
    else
      var k := RunLength(s, IsSpace);
      [s[..k]] + Tokens(s[k..])
  }

  /** The i-th extraction: a word, or the empty string once the text is used up. */
  function TokenAt(s: string, i: nat): string {
    var t := Tokens(s);
    if i < |t| then t[i] else ""
  }

  lemma {:induction false} RunLengthOfWord(w: string, rest: string, stop: char -> bool)
    requires forall i :: 0 <= i < |w| ==> !stop(w[i])
    requires |rest| > 0 && stop(rest[0])
    ensures RunLength(w + rest, stop) == |w|
    decreases |w|
  {
    if |w| == 0 {
      assert w + rest == rest;
    } else {
      assert (w + rest)[1..] == w[1..] + rest;
      RunLengthOfWord(w[1..], rest, stop);
    }
  }

  lemma {:induction false} RunLengthOfWhole(w: string, stop: char -> bool)
    requires forall i :: 0 <= i < |w| ==> !stop(w[i])
    ensures RunLength(w, stop) == |w|
    decreases |w|
  {
    if |w| > 0 {
      RunLengthOfWhole(w[1..], stop);
    }
  }

  /** A word followed by a space is the first token of the text. */
  lemma TokensCons(w: string, rest: string)
    requires |w| > 0 && NoSpace(w)
    ensures Tokens(w + [' '] + rest) == [w] + Tokens(rest)
  {
    var s := w + [' '] + rest;
    assert s == w + ([' '] + rest);
    RunLengthOfWord(w, [' '] + rest, IsSpace);
    assert s[..|w|] == w;
    assert s[|w|..] == [' '] + rest;
    assert Tokens(s[|w|..]) == Tokens(rest) by {
      assert ([' '] + rest)[1..] == rest;
    }
  }

  lemma TokensSingle(w: string)
    requires |w| > 0 && NoSpace(w)
    ensures Tokens(w) == [w]
  {
    RunLengthOfWhole(w, IsSpace);
    assert w[..|w|] == w;
    assert w[|w|..] == [];
  }

  function IsSlash(c: char): bool {
    c == '/'
  }

  /** The fields of s between '/' separators; there is always at least one. */
  function SplitSlash(s: string): (parts: seq<string>)
    ensures |parts| >= 1
    decreases |s|
  {
    var k := RunLength(s, IsSlash);
    if k == |s| then [s] else [s[..k]] + SplitSlash(s[k + 1..])
  }

  lemma SplitSlashCons(a: string, rest: string)
    requires forall i :: 0 <= i < |a| ==> a[i] != '/'
    ensures SplitSlash(a + ['/'] + rest) == [a] + SplitSlash(rest)
  {
    var s := a + ['/'] + rest;
    assert s == a + (['/'] + rest);
    RunLengthOfWord(a, ['/'] + rest, IsSlash);
    assert s[..|a|] == a;
    assert s[|a| + 1..] == rest;
  }

  lemma SplitSlashSingle(a: string)
    requires forall i :: 0 <= i < |a| ==> a[i] != '/'
    ensures SplitSlash(a) == [a]
  {
    RunLengthOfWhole(a, IsSlash);
  }
  /** Words written one after another with a single space between each pair, as `oss << a << ' ' << b` does. */
  function JoinSpaces(ws: seq<string>): string
    requires |ws| >= 1
    decreases |ws|
  {
    if |ws| == 1 then ws[0] else ws[0] + [' '] + JoinSpaces(ws[1..])
  }

  /** Reading the words back from their space-joined text gives the words, when each is non-empty and has no space. */
  lemma {:induction false} TokensOfJoin(ws: seq<string>)
    requires |ws| >= 1
    requires forall i :: 0 <= i < |ws| ==> |ws[i]| > 0 && NoSpace(ws[i])
    ensures Tokens(JoinSpaces(ws)) == ws
    decreases |ws|
  {
    if |ws| == 1 {
      TokensSingle(ws[0]);
    } else {
      TokensOfJoin(ws[1..]);
      TokensCons(ws[0], JoinSpaces(ws[1..]));
    }
  }

  /** Fields written with a '/' between each pair. */
  function JoinSlash(parts: seq<string>): (s: string)
    requires |parts| >= 1
    ensures |s| >= |parts| - 1
    ensures (forall i :: 0 <= i < |parts| ==> NoSpace(parts[i])) ==> NoSpace(s)
    decreases |parts|
  {
    if |parts| == 1 then parts[0]
    else
      var rest := JoinSlash(parts[1..]);
      assert forall i :: 0 <= i < |parts| - 1 ==> parts[1..][i] == parts[i + 1];
      parts[0] + ['/'] + rest
  }

  /** Splitting the joined text at '/' gives the fields back, when no field contains '/'. */
  lemma {:induction false} SplitOfJoin(parts: seq<string>)
    requires |parts| >= 1
    requires forall i, j :: 0 <= i < |parts| && 0 <= j < |parts[i]| ==> parts[i][j] != '/'
    ensures SplitSlash(JoinSlash(parts)) == parts
    decreases |parts|
  {
    if |parts| == 1 {
      SplitSlashSingle(parts[0]);
    } else {
      assert forall i :: 0 <= i < |parts| - 1 ==> parts[1..][i] == parts[i + 1];
      SplitOfJoin(parts[1..]);
      SplitSlashCons(parts[0], JoinSlash(parts[1..]));
    }
  }
}
