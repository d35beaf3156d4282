/**
 * The order GenerateLegalMoves sorts its result into (movegen.cpp): by
 * origin square, then destination square, then promotion code. The sort is
 * modelled as an insertion sort; std::sort leaves the order of moves with
 * equal keys unspecified, and when all keys differ every sorted permutation
 * is the same list.
 */
module MoveOrder {
  import opened Pieces

  /** The comparator of the sort: it orders by origin first and never puts a move before one with its own key. */
  predicate Before(a: Move, b: Move)
    ensures Before(a, b) ==> a.from <= b.from && !SameKey(a, b)
  {
    a.from < b.from || (a.from == b.from && (a.to < b.to || (a.to == b.to && a.promotion < b.promotion)))
  }

  /** Moves the comparator cannot tell apart. */
  predicate SameKey(a: Move, b: Move) {
    a.from == b.from && a.to == b.to && a.promotion == b.promotion
  }

  /** The comparator is a strict weak order whose ties are exactly the equal keys. */
  lemma BeforeIsOrder(a: Move, b: Move, c: Move)
    ensures !Before(a, a)
    ensures Before(a, b) ==> !Before(b, a)
    ensures Before(a, b) && Before(b, c) ==> Before(a, c)
    ensures Before(a, b) || Before(b, a) || SameKey(a, b)
    ensures SameKey(a, b) ==> !Before(a, b) && !Before(b, a)
  {
  }

  predicate Sorted(s: seq<Move>) {
    forall i, j :: 0 <= i < j < |s| ==> !Before(s[j], s[i])
  }

  /** No two positions of the list hold moves with the same key. */
  predicate DistinctKeys(s: seq<Move>) {
    forall i, j :: 0 <= i < j < |s| ==> !SameKey(s[i], s[j])
  }

  /** Two lists with distinct keys, no key shared between them, joined. */
  lemma DistinctKeysConcat(a: seq<Move>, c: seq<Move>)
    requires DistinctKeys(a) && DistinctKeys(c)
    requires forall x <- a, y <- c :: !SameKey(x, y)
    ensures DistinctKeys(a + c)
  {
    var s := a + c;
    forall i, j | 0 <= i < j < |s|
      ensures !SameKey(s[i], s[j])
    {
      if j >= |a| && i < |a| {
        assert s[i] in a && s[j] in c;
      } else if i >= |a| {
        assert s[i] == c[i - |a|] && s[j] == c[j - |a|];
      }
    }
  }

  /** Inserts m before the first element that is not before it. */
  function Insert(m: Move, s: seq<Move>): (r: seq<Move>)
    requires Sorted(s)
    ensures Sorted(r)
    ensures multiset(r) == multiset(s) + multiset{m}
  {
    if |s| == 0 || !Before(s[0], m) then
      InsertFront(m, s);
      [m] + s
    else
      var rest := Insert(m, s[1..]);
      InsertBehind(m, s, rest);
      assert s == [s[0]] + s[1..];
      [s[0]] + rest
  }

  /** A move not after the head of a sorted list can go in front of it. */
  lemma InsertFront(m: Move, s: seq<Move>)
    requires Sorted(s) && (|s| == 0 || !Before(s[0], m))
    ensures Sorted([m] + s)
  {
    var r := [m] + s;
    forall i, j | 0 <= i < j < |r|
      ensures !Before(r[j], r[i])
    {
      if i == 0 {
        BeforeIsOrder(s[0], s[j - 1], m);
        BeforeIsOrder(s[j - 1], s[0], m);
      }
    }
  }

  /** The head of a sorted list stays in front of the rest with m inserted. */
  lemma InsertBehind(m: Move, s: seq<Move>, rest: seq<Move>)
    requires Sorted(s) && |s| > 0 && Before(s[0], m)
    requires Sorted(rest) && multiset(rest) == multiset(s[1..]) + multiset{m}
    ensures Sorted([s[0]] + rest)
  {
    forall j | 0 <= j < |rest|
      ensures !Before(rest[j], s[0])
    {
      assert rest[j] in multiset(rest);
      if rest[j] == m {
        BeforeIsOrder(s[0], m, m);
      } else {
        assert rest[j] in multiset(s[1..]);
        var q :| 0 <= q < |s[1..]| && s[1..][q] == rest[j];
        assert s[q + 1] == rest[j];
      }
    }
    var r := [s[0]] + rest;
    forall i, j | 0 <= i < j < |r|
      ensures !Before(r[j], r[i])
    {
      assert r[j] == rest[j - 1];
      if i > 0 {
        assert r[i] == rest[i - 1];
      }
    }
  }

  /** The sorted list of the moves. */
  function SortMoves(s: seq<Move>): (r: seq<Move>)
    ensures Sorted(r)
    ensures multiset(r) == multiset(s)
  {
    if |s| == 0 then []
    else
      assert s == [s[0]] + s[1..];
      Insert(s[0], SortMoves(s[1..]))
  }

  /** Sorting keeps exactly the moves of the list. */
  lemma SortMovesMembers(s: seq<Move>, m: Move)
    ensures m in SortMoves(s) <==> m in s
  {
    assert m in SortMoves(s) <==> m in multiset(SortMoves(s));
    assert m in s <==> m in multiset(s);
  }

  /** A sorted list with distinct keys is strictly increasing. */
  lemma StrictlySorted(s: seq<Move>)
    requires Sorted(s) && DistinctKeys(s)
    ensures forall i, j :: 0 <= i < j < |s| ==> Before(s[i], s[j])
  {
    forall i, j | 0 <= i < j < |s|
      ensures Before(s[i], s[j])
    {
      BeforeIsOrder(s[i], s[j], s[j]);
    }
  }

  /**
   * Two sorted arrangements of the same moves are equal when the keys are
   * distinct: the result does not depend on how the sort breaks ties.
   */
  lemma {:induction false} SortedUnique(a: seq<Move>, b: seq<Move>)
    requires Sorted(a) && Sorted(b) && multiset(a) == multiset(b) && DistinctKeys(a)
    ensures a == b
    decreases |a|
  {
    if |a| == 0 {
      assert |b| == |multiset(b)| == 0;
    } else {
      assert |b| == |multiset(b)| == |a|;
      SortedHeads(a, b);
      DropHead(a);
      DropHead(b);
      SortedUnique(a[1..], b[1..]);
    }
  }

  /** Two sorted arrangements of the same moves, one with distinct keys, start with the same move. */
  lemma SortedHeads(a: seq<Move>, b: seq<Move>)
    requires Sorted(a) && Sorted(b) && multiset(a) == multiset(b) && DistinctKeys(a)
    requires |a| > 0 && |b| > 0
    ensures a[0] == b[0]
  {
    assert b[0] in multiset(a);
    var i :| 0 <= i < |a| && a[i] == b[0];
    assert a[0] in multiset(b);
    var j :| 0 <= j < |b| && b[j] == a[0];
    BeforeIsOrder(a[0], a[0], a[0]);
    assert !Before(b[0], a[0]) by {
      if i > 0 { assert !Before(a[i], a[0]); }
    }
    assert !Before(a[0], b[0]) by {
      if j > 0 { assert !Before(b[j], b[0]); }
    }
    BeforeIsOrder(a[0], b[0], b[0]);
    assert i == 0;
  }

  /** The tail of a list holds its moves less the head. */
  lemma DropHead(s: seq<Move>)
    requires |s| > 0
    ensures multiset(s[1..]) == multiset(s) - multiset{s[0]}
    ensures Sorted(s) ==> Sorted(s[1..])
    ensures DistinctKeys(s) ==> DistinctKeys(s[1..])
  {
    assert s == [s[0]] + s[1..];
  }

  /** Any sorted arrangement of a list with distinct keys is SortMoves of it. */
  lemma SortDeterminate(s: seq<Move>, r: seq<Move>)
    requires DistinctKeys(s) && Sorted(r) && multiset(r) == multiset(s)
    ensures r == SortMoves(s)
  {
    DistinctKeysPermutation(s, SortMoves(s));
    SortedUnique(SortMoves(s), r);
  }

  /** Distinct keys carry over to any rearrangement. */
  lemma DistinctKeysPermutation(s: seq<Move>, t: seq<Move>)
    requires DistinctKeys(s) && multiset(t) == multiset(s)
    ensures DistinctKeys(t)
  {
    DistinctKeysSubMultiset(s, t);
  }

  /** Distinct keys carry over to any list drawn from the moves of the list. */
  lemma DistinctKeysSubMultiset(s: seq<Move>, t: seq<Move>)
    requires DistinctKeys(s) && multiset(t) <= multiset(s)
    ensures DistinctKeys(t)
  {
    forall i, j | 0 <= i < j < |t|
      ensures !SameKey(t[i], t[j])
    {
      if t[i] == t[j] {
        assert multiset(t)[t[i]] >= 2 by {
          assert t == t[..i] + [t[i]] + t[i + 1..j] + [t[j]] + t[j + 1..];
        }
        DistinctKeysMultiplicity(s, t[i]);
        assert false;
      } else {
        assert t[i] in multiset(s) && t[j] in multiset(s);
        var p :| 0 <= p < |s| && s[p] == t[i];
        var q :| 0 <= q < |s| && s[q] == t[j];
        if p < q { assert !SameKey(s[p], s[q]); } else { assert !SameKey(s[q], s[p]); }
      }
    }
  }

  /** In a list with distinct keys every move occurs at most once. */
  lemma {:induction false} DistinctKeysMultiplicity(s: seq<Move>, m: Move)
    requires DistinctKeys(s)
    ensures multiset(s)[m] <= 1
    decreases |s|
  {
    if |s| > 0 {
      assert s == [s[0]] + s[1..];
      assert DistinctKeys(s[1..]);
      DistinctKeysMultiplicity(s[1..], m);
      if s[0] == m {
        forall q | 0 <= q < |s[1..]|
          ensures s[1..][q] != m
        {
          assert !SameKey(s[0], s[q + 1]);
        }
        assert m !in s[1..];
      }
    }
  }
}
