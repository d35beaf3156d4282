/**
 * The order of the keys of the std::map that the batch search of
 * src/mcts.cpp groups waiting workers by: FEN strings under std::string's
 * lexicographic comparison (a proper prefix comes first; otherwise the first
 * differing character decides). The map's keys are modelled as a strictly
 * increasing list built by inserting each key once.
 */
module FenOrder {
  /** a comes before b. */
  predicate LexLess(a: string, b: string)
    decreases |a|
  {
    |b| > 0 && (|a| == 0 || a[0] < b[0] || (a[0] == b[0] && LexLess(a[1..], b[1..])))
  }

  lemma {:induction false} LexLessIrreflexive(a: string)
    ensures !LexLess(a, a)
    decreases |a|
  {
    if |a| > 0 {
      LexLessIrreflexive(a[1..]);
    }
  }

  lemma {:induction false} LexLessTransitive(a: string, b: string, c: string)
    requires LexLess(a, b) && LexLess(b, c)
    ensures LexLess(a, c)
    decreases |a|
  {
    if |a| > 0 && a[0] == b[0] && b[0] == c[0] {
      LexLessTransitive(a[1..], b[1..], c[1..]);
    }
  }

  /** Two different strings are ordered one way or the other. */
  lemma {:induction false} LexLessTotal(a: string, b: string)
    requires a != b
    ensures LexLess(a, b) || LexLess(b, a)
    decreases |a|
  {
    if |a| > 0 && |b| > 0 && a[0] == b[0] {
      assert a == [a[0]] + a[1..] && b == [b[0]] + b[1..];
      LexLessTotal(a[1..], b[1..]);
    }
  }

  lemma LexLessAsymmetric(a: string, b: string)
    requires LexLess(a, b)
    ensures !LexLess(b, a)
  {
    if LexLess(b, a) {
      LexLessTransitive(a, b, a);
      LexLessIrreflexive(a);
    }
  }

  predicate StrictlyIncreasing(ks: seq<string>) {
    forall i, j :: 0 <= i < j < |ks| ==> LexLess(ks[i], ks[j])
  }

  /** Adding a key to the map: nothing changes when it is there already. */
  function InsertKey(k: string, ks: seq<string>): (r: seq<string>)
    requires StrictlyIncreasing(ks)
    ensures StrictlyIncreasing(r)
    ensures forall y :: y in r <==> y == k || y in ks
    decreases |ks|
  {
    if |ks| == 0 then [k]
    else if k == ks[0] then ks
    else if LexLess(k, ks[0]) then
      InsertFront(k, ks);
      [k] + ks
    else
      var rest := InsertKey(k, ks[1..]);
      LexLessTotal(k, ks[0]);
      InsertBehind(k, ks, rest);
      assert ks == [ks[0]] + ks[1..];
      [ks[0]] + rest
  }

  lemma InsertFront(k: string, ks: seq<string>)
    requires StrictlyIncreasing(ks) && |ks| > 0 && LexLess(k, ks[0])
    ensures StrictlyIncreasing([k] + ks)
  {
    var r := [k] + ks;
    forall i, j | 0 <= i < j < |r|
      ensures LexLess(r[i], r[j])
    {
      if i == 0 && j > 1 {
        LexLessTransitive(k, ks[0], ks[j - 1]);
      }
    }
  }

  lemma InsertBehind(k: string, ks: seq<string>, rest: seq<string>)
    requires StrictlyIncreasing(ks) && |ks| > 0 && LexLess(ks[0], k)
    requires StrictlyIncreasing(rest) && forall y :: y in rest <==> y == k || y in ks[1..]
    ensures StrictlyIncreasing([ks[0]] + rest)
  {
    forall j | 0 <= j < |rest|
      ensures LexLess(ks[0], rest[j])
    {
      assert rest[j] in rest;
      if rest[j] != k {
        var q :| 0 <= q < |ks[1..]| && ks[1..][q] == rest[j];
        assert ks[q + 1] == rest[j];
      }
    }
    var r := [ks[0]] + rest;
    forall i, j | 0 <= i < j < |r|
      ensures LexLess(r[i], r[j])
    {
      assert r[j] == rest[j - 1];
      if i > 0 {
        assert r[i] == rest[i - 1];
      }
    }
  }

  /** The keys of a map filled with the given keys in order, as its iteration visits them. */
  function MapKeys(keys: seq<string>): (r: seq<string>)
    ensures StrictlyIncreasing(r)
    ensures forall y :: y in r <==> y in keys
  {
    if |keys| == 0 then []
    else
      var r := InsertKey(keys[|keys| - 1], MapKeys(keys[..|keys| - 1]));
      assert keys == keys[..|keys| - 1] + [keys[|keys| - 1]];
      r
  }

  /** A strictly increasing list holds every key once. */
  lemma IncreasingDistinct(ks: seq<string>, i: nat, j: nat)
    requires StrictlyIncreasing(ks) && i < |ks| && j < |ks| && ks[i] == ks[j]
    ensures i == j
  {
    if i < j {
      LexLessIrreflexive(ks[i]);
    } else if j < i {
      LexLessIrreflexive(ks[j]);
    }
  }

  /** The map's key list is determined by the set of keys: any strictly increasing list of them is it. */
  lemma {:induction false} IncreasingUnique(a: seq<string>, b: seq<string>)
    requires StrictlyIncreasing(a) && StrictlyIncreasing(b)
    requires forall y :: y in a <==> y in b
    ensures a == b
    decreases |a|
  {
    if |a| == 0 {
      if |b| > 0 {
        HeadMember(b);
        assert false;
      }
    } else {
      HeadMember(a);
      HeadMember(b);
      var i :| 0 <= i < |a| && a[i] == b[0];
      var j :| 0 <= j < |b| && b[j] == a[0];
      assert a[0] == b[0] by {
        if a[0] != b[0] {
          LexLessAsymmetric(a[0], a[i]);
          assert false;
        }
      }
      forall y
        ensures y in a[1..] <==> y in b[1..]
      {
        TailMembers(a, y);
        TailMembers(b, y);
      }
      IncreasingUnique(a[1..], b[1..]);
      assert a == [a[0]] + a[1..] && b == [b[0]] + b[1..];
    }
  }

  lemma HeadMember(a: seq<string>)
    requires |a| > 0
    ensures a[0] in a
  {
  }

  /** In a strictly increasing list, y is in the tail exactly when it is in the list and not its head. */
  lemma TailMembers(a: seq<string>, y: string)
    requires StrictlyIncreasing(a) && |a| > 0
    ensures y in a[1..] <==> y in a && y != a[0]
  {
    if y in a[1..] {
      var q :| 0 <= q < |a[1..]| && a[1..][q] == y;
      assert a[q + 1] == y;
      if y == a[0] {
        LexLessIrreflexive(a[0]);
        assert false;
      }
    }
    if y in a && y != a[0] {
      var q :| 0 <= q < |a| && a[q] == y;
      assert a[1..][q - 1] == y;
    }
  }
}
