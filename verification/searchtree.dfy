/**
 * The search tree of src/mcts.cpp, held in an arena: the MCTSNode records
 * in a sequence with the root at index 0. Each node has a parent index,
 * which is -1 for the root's null parent. The children of a node sit in one
 * contiguous index range, because expansion creates all of them at once.
 *
 * This module also holds what both search loops share: resultToValue, prior
 * normalisation, expansion, the PUCT selection of the first best child, and
 * the backup along the parent chain.
 */
module SearchTree {
  import opened Pieces

  datatype Option<T> = None | Some(value: T)

  /** MCTSNode: the move from the parent, N, W, P and N_virtual; children are t[first..first + count]. */
  datatype Node = Node(move: Move, parent: int, first: nat, count: nat, n: nat, w: real, p: real, nv: nat)

  type Tree = seq<Node>

  /** The root both loops start from: no parent, no children, N = 0, W = 0, P = 0. */
  function NewRoot(): Tree {
    [Node(DefaultMove, -1, 0, 0, 0, 0.0, 0.0, 0)]
  }

  /** c lies in the child range of node i. */
  predicate IsChild(t: Tree, i: nat, c: int)
    requires i < |t|
  {
    t[i].first <= c < t[i].first + t[i].count
  }

  /** Only the root lacks a parent, and every parent comes before its children. */
  predicate ParentsBelow(t: Tree) {
    && |t| > 0 && t[0].parent == -1
    && forall i :: 0 < i < |t| ==> 0 <= t[i].parent < i
  }

  /**
   * Child ranges lie inside the arena after their node, and a non-root node
   * is in the range of exactly the node its parent index names.
   */
  predicate WellFormed(t: Tree) {
    && ParentsBelow(t)
    && (forall i :: 0 <= i < |t| ==> t[i].first + t[i].count <= |t| && (t[i].count > 0 ==> t[i].first > i))
    && (forall i, c :: 0 <= i < |t| && 0 < c < |t| ==> (IsChild(t, i, c) <==> t[c].parent == i))
  }

  lemma NewRootWellFormed()
    ensures WellFormed(NewRoot()) && NewRoot()[0].count == 0 && NewRoot()[0].n == 0
  {
  }

  /** Two arenas that differ only in the counters and values. */
  predicate SameShape(t: Tree, u: Tree) {
    && |t| == |u|
    && forall i :: 0 <= i < |t| ==>
         t[i].move == u[i].move && t[i].parent == u[i].parent && t[i].first == u[i].first
         && t[i].count == u[i].count && t[i].p == u[i].p
  }

  lemma SameShapeWellFormed(t: Tree, u: Tree)
    requires WellFormed(t) && SameShape(t, u)
    ensures WellFormed(u)
  {
    assert forall i, c :: 0 <= i < |t| && 0 < c < |t| ==> (IsChild(t, i, c) <==> IsChild(u, i, c));
  }

  // ---------------------------------------------------------------------------
  // Game results as values

  /** resultToValue: 0 for a draw, +1 or -1 for a win as seen by the side to move at the root. */
  function ResultToValue(r: GameResult, rootWhite: bool): (v: real)
    ensures -1.0 <= v <= 1.0
    ensures v == 0.0 <==> r == Draw || r == Ongoing
    ensures v == 1.0 <==> r == (if rootWhite then WhiteWin else BlackWin)
    ensures v == -1.0 <==> r == (if rootWhite then BlackWin else WhiteWin)
  {
    match r
    case Draw => 0.0
    case WhiteWin => if rootWhite then 1.0 else -1.0
    case BlackWin => if rootWhite then -1.0 else 1.0
    case Ongoing => 0.0
  }

  /** Seen from the other side the value changes sign. */
  lemma ResultToValueAntisymmetric(r: GameResult, rootWhite: bool)
    ensures ResultToValue(r, !rootWhite) == -ResultToValue(r, rootWhite)
  {
  }

  // ---------------------------------------------------------------------------
  // Priors

  /** The sum of the positive entries. */
  function PositiveSum(xs: seq<real>): (s: real)
    ensures s >= 0.0
  {
    if |xs| == 0 then 0.0 else (if xs[0] > 0.0 then xs[0] else 0.0) + PositiveSum(xs[1..])
  }

  function Sum(xs: seq<real>): real {
    if |xs| == 0 then 0.0 else xs[0] + Sum(xs[1..])
  }

  /**
   * The priors of n children from an evaluator's weights: the positive sum
   * counts only when there is one weight per child; then each positive
   * weight is divided by it, and every other child gets 1/n.
   */
  function Normalise(raw: seq<real>, n: nat): (ps: seq<real>)
    ensures |ps| == n
    ensures forall i :: 0 <= i < n ==> ps[i] > 0.0
  {
    var sumP := if |raw| == n then PositiveSum(raw) else 0.0;
    seq(n, i requires 0 <= i < n =>
      if sumP > 0.0 && i < |raw| && raw[i] > 0.0 then PositiveQuotient(raw[i], sumP) else 1.0 / n as real)
  }

  function PositiveQuotient(x: real, y: real): (q: real)
    requires x > 0.0 && y > 0.0
    ensures q > 0.0
  {
    x / y
  }

  /** The sum of a list whose entries are all the same. */
  lemma {:induction false} SumConstant(xs: seq<real>, c: real)
    requires forall i :: 0 <= i < |xs| ==> xs[i] == c
    ensures Sum(xs) == |xs| as real * c
    decreases |xs|
  {
    if |xs| > 0 {
      SumConstant(xs[1..], c);
    }
  }

  /** With all weights positive, the positive sum is the sum. */
  lemma {:induction false} PositiveSumOfPositive(xs: seq<real>)
    requires forall i :: 0 <= i < |xs| ==> xs[i] > 0.0
    ensures PositiveSum(xs) == Sum(xs)
    decreases |xs|
  {
    if |xs| > 0 {
      PositiveSumOfPositive(xs[1..]);
    }
  }

  /** Dividing every entry divides the sum. */
  lemma {:induction false} SumScaled(xs: seq<real>, ys: seq<real>, d: real)
    requires d > 0.0 && |xs| == |ys|
    requires forall i :: 0 <= i < |xs| ==> ys[i] == xs[i] / d
    ensures Sum(ys) == Sum(xs) / d
    decreases |xs|
  {
    if |xs| > 0 {
      SumScaled(xs[1..], ys[1..], d);
      assert Sum(ys) == xs[0] / d + Sum(xs[1..]) / d;
    }
  }

  /** Without one weight per child every prior is uniform, and they sum to 1. */
  lemma NormaliseWithoutWeights(raw: seq<real>, n: nat)
    requires n > 0 && |raw| != n
    ensures forall i :: 0 <= i < n ==> Normalise(raw, n)[i] == 1.0 / n as real
    ensures Sum(Normalise(raw, n)) == 1.0
  {
    SumConstant(Normalise(raw, n), 1.0 / n as real);
  }

  /** With one positive weight per child, the priors are the weights scaled to sum 1. */
  lemma NormalisePositive(raw: seq<real>, n: nat)
    requires n > 0 && |raw| == n && forall i :: 0 <= i < n ==> raw[i] > 0.0
    ensures Sum(raw) > 0.0
    ensures forall i :: 0 <= i < n ==> Normalise(raw, n)[i] == raw[i] / Sum(raw)
    ensures Sum(Normalise(raw, n)) == 1.0
  {
    PositiveSumOfPositive(raw);
    PositiveSumAtLeast(raw, 0);
    NormaliseQuotients(raw, n);
    SumScaled(raw, Normalise(raw, n), Sum(raw));
    DivideSelf(Sum(raw));
  }

  lemma DivideSelf(x: real)
    requires x > 0.0
    ensures x / x == 1.0
  {
  }

  lemma NormaliseQuotients(raw: seq<real>, n: nat)
    requires |raw| == n && PositiveSum(raw) > 0.0 && forall i :: 0 <= i < n ==> raw[i] > 0.0
    ensures forall i :: 0 <= i < n ==> Normalise(raw, n)[i] == raw[i] / PositiveSum(raw)
  {
  }

  /**
   * With one weight per child and some weight positive, a child with a
   * positive weight gets its share of the positive sum and every other child
   * 1/n.
   */
  lemma NormaliseShares(raw: seq<real>, n: nat, i: nat)
    requires |raw| == n && i < n && exists j :: 0 <= j < n && raw[j] > 0.0
    ensures PositiveSum(raw) > 0.0
    ensures Normalise(raw, n)[i] == if raw[i] > 0.0 then raw[i] / PositiveSum(raw) else 1.0 / n as real
  {
    var j :| 0 <= j < n && raw[j] > 0.0;
    PositiveSumAtLeast(raw, j);
  }

  /** With one weight per child and none positive, every prior is 1/n. */
  lemma NormaliseNonePositive(raw: seq<real>, n: nat)
    requires |raw| == n && forall j :: 0 <= j < n ==> raw[j] <= 0.0
    ensures forall i :: 0 <= i < n ==> Normalise(raw, n)[i] == 1.0 / n as real
  {
  }

  /** The positive sum is at least any positive entry. */
  lemma {:induction false} PositiveSumAtLeast(xs: seq<real>, i: nat)
    requires i < |xs|
    ensures PositiveSum(xs) >= xs[i]
    decreases |xs|
  {
    if i > 0 {
      PositiveSumAtLeast(xs[1..], i - 1);
    }
  }

  /** The least noise share a gamma draw contributes: 1e-10. */
  const NoiseFloor: real := 0.0000000001

  function Max(a: real, b: real): (m: real)
    ensures m >= a && m >= b && (m == a || m == b)
  {
    if a >= b then a else b
  }

  /** The k gamma draws, each raised to at least 1e-10. */
  function Noise(k: nat, draw: nat -> real): (noise: seq<real>)
    ensures |noise| == k && forall i :: 0 <= i < k ==> noise[i] >= NoiseFloor
  {
    var noise := seq(k, i requires 0 <= i < k => Max(draw(i), NoiseFloor));
    assert forall i :: 0 <= i < k ==> noise[i] == Max(draw(i), NoiseFloor);
    noise
  }

  /** (1 - epsilon) * prior + epsilon * the noise's share of sumN, entry by entry. */
  function Mix(priors: seq<real>, noise: seq<real>, sumN: real, epsilon: real): (mixed: seq<real>)
    requires |noise| == |priors| && sumN > 0.0
    ensures |mixed| == |priors|
  {
    seq(|priors|, i requires 0 <= i < |priors| => (1.0 - epsilon) * priors[i] + epsilon * (noise[i] / sumN))
  }

  /** Each entry divided by d. */
  function Scale(xs: seq<real>, d: real): (ys: seq<real>)
    requires d > 0.0
    ensures |ys| == |xs| && forall i :: 0 <= i < |xs| ==> ys[i] == xs[i] / d
  {
    seq(|xs|, i requires 0 <= i < |xs| => xs[i] / d)
  }

  /**
   * applyDirichletToPriors at the root: with alpha > 0 and some children,
   * the i-th gamma draw (at least 1e-10) is scaled to a share of the draws'
   * sum, mixed in as (1 - epsilon) * prior + epsilon * noise, and the mix is
   * divided by its positive sum when that is positive. The draws come from
   * the random generator and are a parameter here.
   */
  function Dirichlet(priors: seq<real>, alpha: real, epsilon: real, draw: nat -> real): (r: seq<real>)
    ensures |r| == |priors|
  {
    if alpha <= 0.0 || |priors| == 0 then priors
    else
      var noise := Noise(|priors|, draw);
      var sumN := Sum(noise);
      if sumN <= 0.0 then priors
      else
        var mixed := Mix(priors, noise, sumN, epsilon);
        var sumP := PositiveSum(mixed);
        if sumP <= 0.0 then mixed else Scale(mixed, sumP)
  }

  /** With alpha <= 0 the priors pass through unchanged. */
  lemma DirichletOff(priors: seq<real>, alpha: real, epsilon: real, draw: nat -> real)
    requires alpha <= 0.0
    ensures Dirichlet(priors, alpha, epsilon, draw) == priors
  {
  }

  lemma {:induction false} SumOfPositive(xs: seq<real>)
    requires |xs| > 0 && forall i :: 0 <= i < |xs| ==> xs[i] > 0.0
    ensures Sum(xs) > 0.0
    decreases |xs|
  {
    if |xs| > 1 {
      SumOfPositive(xs[1..]);
    }
  }

  lemma MixPositive(p: real, share: real, epsilon: real)
    requires p > 0.0 && share > 0.0 && 0.0 <= epsilon <= 1.0
    ensures (1.0 - epsilon) * p + epsilon * share > 0.0
  {
    if epsilon < 1.0 {
      assert (1.0 - epsilon) * p > 0.0;
      assert epsilon * share >= 0.0;
    }
  }

  /** Mixing positive priors with positive noise at 0 <= epsilon <= 1 keeps every entry positive. */
  lemma MixAllPositive(priors: seq<real>, noise: seq<real>, sumN: real, epsilon: real)
    requires |noise| == |priors| && sumN > 0.0 && 0.0 <= epsilon <= 1.0
    requires forall i :: 0 <= i < |priors| ==> priors[i] > 0.0 && noise[i] > 0.0
    ensures forall i :: 0 <= i < |priors| ==> Mix(priors, noise, sumN, epsilon)[i] > 0.0
  {
    forall i | 0 <= i < |priors|
      ensures Mix(priors, noise, sumN, epsilon)[i] > 0.0
    {
      var q := noise[i] / sumN;
      PositiveQuotientOf(noise[i], sumN);
      MixPositive(priors[i], q, epsilon);
      assert Mix(priors, noise, sumN, epsilon)[i] == (1.0 - epsilon) * priors[i] + epsilon * q;
    }
  }

  lemma PositiveQuotientOf(x: real, y: real)
    requires x > 0.0 && y > 0.0
    ensures x / y > 0.0
  {
  }

  /** Scaling positive entries by their positive sum gives positive entries that sum to 1. */
  lemma ScaleToOne(xs: seq<real>)
    requires |xs| > 0 && forall i :: 0 <= i < |xs| ==> xs[i] > 0.0
    ensures PositiveSum(xs) > 0.0
    ensures forall i :: 0 <= i < |xs| ==> Scale(xs, PositiveSum(xs))[i] > 0.0
    ensures Sum(Scale(xs, PositiveSum(xs))) == 1.0
  {
    PositiveSumOfPositive(xs);
    SumOfPositive(xs);
    var d := PositiveSum(xs);
    forall i | 0 <= i < |xs|
      ensures Scale(xs, d)[i] > 0.0
    {
      PositiveQuotientOf(xs[i], d);
    }
    SumScaled(xs, Scale(xs, d), d);
    DivideSelf(d);
  }

  /**
   * With positive priors and 0 <= epsilon <= 1 the mixed priors stay
   * positive and sum to 1.
   */
  lemma DirichletPositive(priors: seq<real>, alpha: real, epsilon: real, draw: nat -> real)
    requires alpha > 0.0 && |priors| > 0 && 0.0 <= epsilon <= 1.0
    requires forall i :: 0 <= i < |priors| ==> priors[i] > 0.0
    ensures forall i :: 0 <= i < |priors| ==> Dirichlet(priors, alpha, epsilon, draw)[i] > 0.0
    ensures Sum(Dirichlet(priors, alpha, epsilon, draw)) == 1.0
  {
    var noise := Noise(|priors|, draw);
    SumOfPositive(noise);
    var mixed := Mix(priors, noise, Sum(noise), epsilon);
    MixAllPositive(priors, noise, Sum(noise), epsilon);
    ScaleToOne(mixed);
  }

  // ---------------------------------------------------------------------------
  // Expansion

  /** One child per move, in move order, with N = 0, W = 0 and the given prior. */
  function Expand(t: Tree, x: nat, moves: seq<Move>, ps: seq<real>): (r: Tree)
    requires WellFormed(t) && x < |t| && t[x].count == 0 && |ps| == |moves|
    ensures WellFormed(r) && |r| == |t| + |moves|
    ensures r[x] == t[x].(first := |t|, count := |moves|)
    ensures forall i :: 0 <= i < |t| && i != x ==> r[i] == t[i]
    ensures forall i :: 0 <= i < |moves| ==> r[|t| + i] == Node(moves[i], x, 0, 0, 0, 0.0, ps[i], 0)
  {
    var r := t[x := t[x].(first := |t|, count := |moves|)]
             + seq(|moves|, i requires 0 <= i < |moves| => Node(moves[i], x, 0, 0, 0, 0.0, ps[i], 0));
    ExpandWellFormed(t, x, moves, ps, r);
    r
  }

  lemma ExpandWellFormed(t: Tree, x: nat, moves: seq<Move>, ps: seq<real>, r: Tree)
    requires WellFormed(t) && x < |t| && t[x].count == 0 && |ps| == |moves|
    requires r == t[x := t[x].(first := |t|, count := |moves|)]
                  + seq(|moves|, i requires 0 <= i < |moves| => Node(moves[i], x, 0, 0, 0, 0.0, ps[i], 0))
    ensures WellFormed(r)
  {
    assert forall c :: 0 <= c < |t| ==> r[c].parent == t[c].parent;
    forall i, c | 0 <= i < |r| && 0 < c < |r|
      ensures IsChild(r, i, c) <==> r[c].parent == i
    {
      if c >= |t| {
        assert r[c].parent == x;
        if i < |t| && i != x {
          assert r[i] == t[i];
        }
      } else if i == x {
        assert !IsChild(t, x, c);
      } else if i < |t| {
        assert r[i] == t[i];
        assert IsChild(t, i, c) <==> t[c].parent == i;
      }
    }
  }

  // ---------------------------------------------------------------------------
  // Backup

  /** The nodes from x up to the root. */
  function Path(t: Tree, x: int): (s: set<int>)
    requires ParentsBelow(t) && -1 <= x < |t|
    ensures forall i :: i in s ==> 0 <= i <= x
    decreases x + 1
  {
    if x < 0 then {} else {x} + Path(t, t[x].parent)
  }

  /** The number of edges from x to the root. */
  function Depth(t: Tree, x: nat): nat
    requires ParentsBelow(t) && x < |t|
    decreases x
  {
    if x == 0 then 0 else Depth(t, t[x].parent) + 1
  }

  /** The value added at a node: negated when the sign alternates and the node is an odd number of edges up. */
  function SignedAt(value: real, alternate: bool, steps: int): real {
    if alternate && steps % 2 == 1 then -value else value
  }

  /** The virtual-loss counter after a backup passes a non-root node: one less, never below 0. */
  function Released(nv: nat): nat {
    if nv > 0 then nv - 1 else 0
  }

  /** One step of the backup loop at node x. */
  function Bump(t: Tree, x: nat, value: real, virtual: bool): (r: Tree)
    requires x < |t|
    ensures SameShape(t, r)
  {
    var nd := t[x];
    var nv := if virtual && nd.parent != -1 then Released(nd.nv) else nd.nv;
    t[x := nd.(n := nd.n + 1, w := nd.w + value, nv := nv)]
  }

  /**
   * The backup loop: from x to the root, add 1 to N and the value to W,
   * negating the value at each step when alternate is set, and in batch mode
   * release one virtual loss on every node but the root.
   */
  function Backup(t: Tree, x: int, value: real, alternate: bool, virtual: bool): (r: Tree)
    requires ParentsBelow(t) && -1 <= x < |t|
    ensures SameShape(t, r)
    decreases x + 1
  {
    if x < 0 then t
    else Backup(Bump(t, x, value, virtual), t[x].parent, if alternate then -value else value, alternate, virtual)
  }

  /** A backup adds 1 to N on the path from x to the root and nowhere else. */
  lemma {:induction false} BackupVisits(t: Tree, x: int, value: real, alternate: bool, virtual: bool, i: nat)
    requires ParentsBelow(t) && -1 <= x < |t| && i < |t|
    ensures Backup(t, x, value, alternate, virtual)[i].n == t[i].n + (if i in Path(t, x) then 1 else 0)
    decreases x + 1
  {
    if x >= 0 {
      var t' := Bump(t, x, value, virtual);
      BackupVisits(t', t[x].parent, if alternate then -value else value, alternate, virtual, i);
      PathSameParents(t, t', t[x].parent);
    }
  }

  /** A backup releases one virtual loss on the non-root nodes of the path when virtual is set. */
  lemma {:induction false} BackupVirtual(t: Tree, x: int, value: real, alternate: bool, virtual: bool, i: nat)
    requires ParentsBelow(t) && -1 <= x < |t| && i < |t|
    ensures Backup(t, x, value, alternate, virtual)[i].nv
            == if i in Path(t, x) && virtual && i != 0 then Released(t[i].nv) else t[i].nv
    decreases x + 1
  {
    if x >= 0 {
      var t' := Bump(t, x, value, virtual);
      BackupVirtual(t', t[x].parent, if alternate then -value else value, alternate, virtual, i);
      PathSameParents(t, t', t[x].parent);
    }
  }

  /**
   * A backup adds the value to W on the path from x, negated at the nodes an
   * odd number of edges above x when the sign alternates.
   */
  lemma {:induction false} BackupValues(t: Tree, x: int, value: real, alternate: bool, virtual: bool, i: nat)
    requires ParentsBelow(t) && -1 <= x < |t| && i < |t|
    ensures Backup(t, x, value, alternate, virtual)[i].w
            == t[i].w + (if i in Path(t, x) then SignedAt(value, alternate, Depth(t, x) - Depth(t, i)) else 0.0)
    decreases x + 1
  {
    if x >= 0 {
      var p := t[x].parent;
      var v' := if alternate then -value else value;
      var t' := Bump(t, x, value, virtual);
      assert Backup(t, x, value, alternate, virtual) == Backup(t', p, v', alternate, virtual);
      BackupValues(t', p, v', alternate, virtual, i);
      PathSameParents(t, t', p);
      assert Path(t, x) == {x} + Path(t, p);
      if i == x {
        assert i !in Path(t, p);
        assert t'[i].w == t[i].w + value;
      } else if i in Path(t, p) {
        DepthSameParents(t, t', p);
        DepthSameParents(t, t', i);
        PathDepth(t, p, i);
        assert Depth(t, x) == Depth(t, p) + 1;
        SignStep(value, alternate, Depth(t, p) - Depth(t, i));
      } else {
        assert t'[i].w == t[i].w;
      }
    }
  }

  /** One more step up flips the sign when it alternates. */
  lemma SignStep(value: real, alternate: bool, d: nat)
    ensures SignedAt(if alternate then -value else value, alternate, d) == SignedAt(value, alternate, d + 1)
  {
  }

  lemma {:induction false} PathSameParents(t: Tree, u: Tree, x: int)
    requires ParentsBelow(t) && SameShape(t, u) && -1 <= x < |t|
    ensures ParentsBelow(u) && Path(t, x) == Path(u, x)
    decreases x + 1
  {
    if x >= 0 {
      PathSameParents(t, u, t[x].parent);
    }
  }

  lemma {:induction false} DepthSameParents(t: Tree, u: Tree, x: nat)
    requires ParentsBelow(t) && SameShape(t, u) && x < |t|
    ensures ParentsBelow(u) && Depth(t, x) == Depth(u, x)
    decreases x
  {
    if x > 0 {
      DepthSameParents(t, u, t[x].parent);
    }
  }

  /** A node on the path from x is no deeper than x. */
  lemma {:induction false} PathDepth(t: Tree, x: int, i: int)
    requires ParentsBelow(t) && -1 <= x < |t| && i in Path(t, x)
    ensures 0 <= i < |t| && Depth(t, i) <= Depth(t, x)
    decreases x + 1
  {
    if i != x {
      PathDepth(t, t[x].parent, i);
    }
  }

  /** Every backup from a node passes through the root. */
  lemma {:induction false} RootOnPath(t: Tree, x: nat)
    requires ParentsBelow(t) && x < |t|
    ensures 0 in Path(t, x)
    decreases x
  {
    if x > 0 {
      RootOnPath(t, t[x].parent);
    }
  }

  /** A backup from a node adds exactly 1 to the root's N. */
  lemma BackupCountsRoot(t: Tree, x: nat, value: real, alternate: bool, virtual: bool)
    requires ParentsBelow(t) && x < |t|
    ensures Backup(t, x, value, alternate, virtual)[0].n == t[0].n + 1
  {
    RootOnPath(t, x);
    BackupVisits(t, x, value, alternate, virtual, 0);
  }

  /** The path from a non-root node meets the root's child range in exactly one node. */
  lemma {:induction false} RootChildOnPath(t: Tree, x: nat) returns (c: nat)
    requires WellFormed(t) && 0 < x < |t|
    ensures c < |t| && IsChild(t, 0, c) && c in Path(t, x)
    ensures forall d :: 0 <= d < |t| && IsChild(t, 0, d) && d in Path(t, x) ==> d == c
    decreases x
  {
    var p := t[x].parent;
    assert IsChild(t, 0, x) <==> p == 0;
    if p == 0 {
      c := x;
      assert Path(t, x) == {x, 0};
      assert !IsChild(t, 0, 0);
    } else {
      c := RootChildOnPath(t, p);
    }
  }

  // ---------------------------------------------------------------------------
  // Bookkeeping invariants

  /** Every node's W is within [-N, N]. */
  predicate ValuesBounded(t: Tree) {
    forall i :: 0 <= i < |t| ==> -(t[i].n as real) <= t[i].w <= t[i].n as real
  }

  /** A backup of a value in [-1, 1] keeps every W within [-N, N]. */
  lemma BackupBounded(t: Tree, x: int, value: real, alternate: bool, virtual: bool)
    requires ParentsBelow(t) && -1 <= x < |t| && ValuesBounded(t) && -1.0 <= value <= 1.0
    ensures ValuesBounded(Backup(t, x, value, alternate, virtual))
  {
    var r := Backup(t, x, value, alternate, virtual);
    forall i | 0 <= i < |t|
      ensures -(r[i].n as real) <= r[i].w <= r[i].n as real
    {
      BackupVisits(t, x, value, alternate, virtual, i);
      BackupValues(t, x, value, alternate, virtual, i);
    }
  }

  /** Every non-root node has a positive prior. */
  predicate PriorsPositive(t: Tree) {
    forall i :: 0 < i < |t| ==> t[i].p > 0.0
  }

  /** The sum of N over the index range [lo, hi). */
  function VisitSum(t: Tree, lo: nat, hi: nat): nat
    requires lo <= hi <= |t|
    decreases hi - lo
  {
    if lo == hi then 0 else t[lo].n + VisitSum(t, lo + 1, hi)
  }

  /** Adding 1 to N at one index of the range and nowhere else adds 1 to the range's sum. */
  lemma {:induction false} VisitSumBump(t: Tree, u: Tree, lo: nat, hi: nat, a: nat)
    requires lo <= hi <= |t| == |u|
    requires forall i :: lo <= i < hi ==> u[i].n == t[i].n + (if i == a then 1 else 0)
    ensures VisitSum(u, lo, hi) == VisitSum(t, lo, hi) + (if lo <= a < hi then 1 else 0)
    decreases hi - lo
  {
    if lo < hi {
      VisitSumBump(t, u, lo + 1, hi, a);
    }
  }

  /** Ranges that agree on N have the same visit sum. */
  lemma {:induction false} VisitSumSame(t: Tree, u: Tree, lo: nat, hi: nat)
    requires lo <= hi <= |t| && hi <= |u|
    requires forall i :: lo <= i < hi ==> u[i].n == t[i].n
    ensures VisitSum(u, lo, hi) == VisitSum(t, lo, hi)
    decreases hi - lo
  {
    if lo < hi {
      VisitSumSame(t, u, lo + 1, hi);
    }
  }

  /** A range of unvisited nodes has visit sum 0. */
  lemma {:induction false} VisitSumUnvisited(t: Tree, lo: nat, hi: nat)
    requires lo <= hi <= |t|
    requires forall i :: lo <= i < hi ==> t[i].n == 0
    ensures VisitSum(t, lo, hi) == 0
    decreases hi - lo
  {
    if lo < hi {
      VisitSumUnvisited(t, lo + 1, hi);
    }
  }

  /** The children's visits of the root. */
  function RootChildVisits(t: Tree): nat
    requires WellFormed(t)
  {
    VisitSum(t, t[0].first, t[0].first + t[0].count)
  }

  /** A backup from a non-root node adds 1 both to the root's N and to its children's visit sum. */
  lemma BackupKeepsRootSum(t: Tree, x: nat, value: real, alternate: bool, virtual: bool)
    requires WellFormed(t) && 0 < x < |t|
    ensures var r := Backup(t, x, value, alternate, virtual);
      WellFormed(r) && r[0].n == t[0].n + 1 && RootChildVisits(r) == RootChildVisits(t) + 1
  {
    var r := Backup(t, x, value, alternate, virtual);
    SameShapeWellFormed(t, r);
    BackupCountsRoot(t, x, value, alternate, virtual);
    var c := RootChildOnPath(t, x);
    var lo, hi := t[0].first, t[0].first + t[0].count;
    forall i | lo <= i < hi
      ensures r[i].n == t[i].n + (if i == c then 1 else 0)
    {
      BackupVisits(t, x, value, alternate, virtual, i);
    }
    VisitSumBump(t, r, lo, hi, c);
  }

  /** Expanding a node below the root leaves the root and its children's visits as they were. */
  lemma ExpandBelowRoot(t: Tree, x: nat, moves: seq<Move>, ps: seq<real>)
    requires WellFormed(t) && 0 < x < |t| && t[x].count == 0 && |ps| == |moves|
    ensures var r := Expand(t, x, moves, ps); r[0] == t[0] && RootChildVisits(r) == RootChildVisits(t)
  {
    var r := Expand(t, x, moves, ps);
    VisitSumSame(t, r, t[0].first, t[0].first + t[0].count);
  }

  /** Expanding the root gives it children none of which has been visited. */
  lemma ExpandRoot(t: Tree, moves: seq<Move>, ps: seq<real>)
    requires WellFormed(t) && t[0].count == 0 && |ps| == |moves|
    ensures var r := Expand(t, 0, moves, ps); r[0].n == t[0].n && r[0].count == |moves| && RootChildVisits(r) == 0
  {
    var r := Expand(t, 0, moves, ps);
    VisitSumUnvisited(r, |t|, |t| + |moves|);
  }

  // ---------------------------------------------------------------------------
  // Selection

  /** The score that counts as "no child yet": -1e99. */
  const Floor: real := -1000000000000000000000000000000000000000000000000000000000000000000000000000000000000000000000000000.0

  /**
   * The PUCT score of child c under a parent with N = parentN:
   * c_puct * P * sqrt(parentN + 1) / (1 + N [+ N_virtual]) plus W / N once visited.
   */
  function Score(t: Tree, c: nat, parentN: nat, cPuct: real, sqrt: int -> real, virtual: bool): real
    requires c < |t|
  {
    var nd := t[c];
    var denom := 1.0 + nd.n as real + (if virtual then nd.nv as real else 0.0);
    cPuct * nd.p * sqrt(parentN + 1) / denom + (if nd.n > 0 then nd.w / nd.n as real else 0.0)
  }

  /** The scores of node x's children, in child order. */
  function Scores(t: Tree, x: nat, cPuct: real, sqrt: int -> real, virtual: bool): (s: seq<real>)
    requires WellFormed(t) && x < |t|
    ensures |s| == t[x].count
    ensures forall k :: 0 <= k < |s| ==> s[k] == Score(t, t[x].first + k, t[x].n, cPuct, sqrt, virtual)
  {
    seq(t[x].count, k requires 0 <= k < t[x].count => Score(t, t[x].first + k, t[x].n, cPuct, sqrt, virtual))
  }

  /**
   * Virtual loss discourages a child: with non-negative c_puct, prior and
   * square root, counting N_virtual never raises its score, and lowers it
   * when walkers are in flight below it and its exploration term is positive.
   */
  lemma VirtualLossLowersScore(t: Tree, c: nat, parentN: nat, cPuct: real, sqrt: int -> real)
    requires c < |t| && cPuct >= 0.0 && t[c].p >= 0.0 && sqrt(parentN + 1) >= 0.0
    ensures Score(t, c, parentN, cPuct, sqrt, true) <= Score(t, c, parentN, cPuct, sqrt, false)
    ensures t[c].nv > 0 && cPuct * t[c].p * sqrt(parentN + 1) > 0.0 ==>
              Score(t, c, parentN, cPuct, sqrt, true) < Score(t, c, parentN, cPuct, sqrt, false)
  {
    var nd := t[c];
    var a := cPuct * nd.p * sqrt(parentN + 1);
    var d0 := 1.0 + nd.n as real;
    var d1 := d0 + nd.nv as real;
    assert 0.0 <= a by {
      assert 0.0 <= cPuct * nd.p;
    }
    assert d0 <= d1 && 0.0 < d0;
    assert a / d1 <= a / d0 by {
      assert a * d0 <= a * d1;
    }
    if nd.nv > 0 && a > 0.0 {
      assert a / d1 < a / d0 by {
        assert a * d0 < a * d1;
      }
    }
  }

  /**
   * The selection loop from position k on: an entry replaces the best so far
   * only when it is strictly greater.
   */
  function ScanBest(s: seq<real>, k: nat, best: int, bestScore: real): (r: int)
    requires k <= |s| && best < k
    ensures r == best || k <= r < |s|
    ensures r == best ==> forall j :: k <= j < |s| ==> s[j] <= bestScore
    ensures r != best ==>
      && s[r] > bestScore
      && (forall j :: k <= j < |s| ==> s[j] <= s[r])
      && (forall j :: k <= j < r ==> s[j] < s[r])
    decreases |s| - k
  {
    if k == |s| then best
    else if s[k] > bestScore then ScanBest(s, k + 1, k, s[k])
    else ScanBest(s, k + 1, best, bestScore)
  }

  /** The position of the first greatest entry above the floor, or -1 when none exceeds it. */
  function FirstBest(s: seq<real>): (r: int)
    ensures -1 <= r < |s|
    ensures r == -1 <==> forall j :: 0 <= j < |s| ==> s[j] <= Floor
    ensures r != -1 ==> (forall j :: 0 <= j < |s| ==> s[j] <= s[r]) && (forall j :: 0 <= j < r ==> s[j] < s[r])
  {
    ScanBest(s, 0, -1, Floor)
  }

  /**
   * The child the search descends into: the first child with the greatest
   * score, or -1 when no score exceeds -1e99.
   */
  function SelectBest(t: Tree, x: nat, cPuct: real, sqrt: int -> real, virtual: bool): (r: int)
    requires WellFormed(t) && x < |t|
    ensures r == -1 || (IsChild(t, x, r) && x < r < |t|)
  {
    var k := FirstBest(Scores(t, x, cPuct, sqrt, virtual));
    if k < 0 then -1 else t[x].first + k
  }

  /** Selection gives -1 exactly when no child's score exceeds the floor. */
  lemma SelectBestNone(t: Tree, x: nat, cPuct: real, sqrt: int -> real, virtual: bool)
    requires WellFormed(t) && x < |t|
    ensures SelectBest(t, x, cPuct, sqrt, virtual) == -1
            <==> forall c :: IsChild(t, x, c) ==> Score(t, c, t[x].n, cPuct, sqrt, virtual) <= Floor
  {
    var s := Scores(t, x, cPuct, sqrt, virtual);
    var f := t[x].first;
    assert forall c :: IsChild(t, x, c) ==> Score(t, c, t[x].n, cPuct, sqrt, virtual) == s[c - f];
  }

  /**
   * The selected child has the greatest score of all children, and every
   * earlier child a strictly smaller one.
   */
  lemma SelectBestIsFirstMax(t: Tree, x: nat, cPuct: real, sqrt: int -> real, virtual: bool)
    requires WellFormed(t) && x < |t| && SelectBest(t, x, cPuct, sqrt, virtual) != -1
    ensures var r := SelectBest(t, x, cPuct, sqrt, virtual);
      && (forall c :: IsChild(t, x, c) ==> Score(t, c, t[x].n, cPuct, sqrt, virtual) <= Score(t, r, t[x].n, cPuct, sqrt, virtual))
      && (forall c :: t[x].first <= c < r ==> Score(t, c, t[x].n, cPuct, sqrt, virtual) < Score(t, r, t[x].n, cPuct, sqrt, virtual))
  {
    var s := Scores(t, x, cPuct, sqrt, virtual);
    var f := t[x].first;
    var k := FirstBest(s);
    var r := f + k;
    forall c | IsChild(t, x, c)
      ensures Score(t, c, t[x].n, cPuct, sqrt, virtual) <= Score(t, r, t[x].n, cPuct, sqrt, virtual)
    {
      assert s[c - f] <= s[k];
    }
    forall c | f <= c < r
      ensures Score(t, c, t[x].n, cPuct, sqrt, virtual) < Score(t, r, t[x].n, cPuct, sqrt, virtual)
    {
      assert s[c - f] < s[k];
    }
  }

  /**
   * With c_puct >= 0, sqrt never negative, positive priors and every W within
   * [-N, N], every score is at least -1, so a node with children always has a
   * best child.
   */
  lemma ScoreAboveFloor(t: Tree, c: nat, parentN: nat, cPuct: real, sqrt: int -> real, virtual: bool)
    requires c < |t| && 0 < c && PriorsPositive(t) && ValuesBounded(t)
    requires cPuct >= 0.0 && sqrt(parentN + 1) >= 0.0
    ensures Score(t, c, parentN, cPuct, sqrt, virtual) >= -1.0
  {
    var nd := t[c];
    var denom := 1.0 + nd.n as real + (if virtual then nd.nv as real else 0.0);
    assert cPuct * nd.p >= 0.0;
    assert cPuct * nd.p * sqrt(parentN + 1) >= 0.0;
    NonNegativeQuotient(cPuct * nd.p * sqrt(parentN + 1), denom);
    if nd.n > 0 {
      MeanAtLeastMinusOne(nd.w, nd.n as real);
    }
  }

  lemma NonNegativeQuotient(x: real, y: real)
    requires x >= 0.0 && y > 0.0
    ensures x / y >= 0.0
  {
  }

  lemma MeanAtLeastMinusOne(w: real, n: real)
    requires n > 0.0 && -n <= w
    ensures w / n >= -1.0
  {
    assert w / n * n == w;
  }

  /** Under those conditions a node with children always selects one. */
  lemma SelectsSomeChild(t: Tree, x: nat, cPuct: real, sqrt: int -> real, virtual: bool)
    requires WellFormed(t) && x < |t| && t[x].count > 0 && PriorsPositive(t) && ValuesBounded(t)
    requires cPuct >= 0.0 && forall k :: sqrt(k) >= 0.0
    ensures SelectBest(t, x, cPuct, sqrt, virtual) != -1
  {
    var c := t[x].first;
    assert IsChild(t, x, c);
    ScoreAboveFloor(t, c, t[x].n, cPuct, sqrt, virtual);
    SelectBestNone(t, x, cPuct, sqrt, virtual);
  }
}
