/**
 * The one-walker search of RunMCTS (src/mcts.cpp), used unless both batch
 * evaluators are set. Each iteration walks from the root by PUCT selection
 * to a node without children. A node with no legal moves is a terminal: its
 * result is backed up to the root with the same sign everywhere. Otherwise
 * the node is expanded, its first best child is selected and played, and
 * the child's value (the value evaluator, or a random playout's result) is
 * backed up with alternating sign.
 *
 * The random generator becomes two parameters: draw, the gamma draws of the
 * root's Dirichlet noise, and playout, the result of the random playout of
 * iteration i from a position.
 */
module SyncSearch {
  import opened Pieces
  import opened SearchTree
  import opened SearchSetup

  /**
   * The priors of a new node's children: prior_fn's weights (dropped when
   * their count is wrong), normalised, with Dirichlet noise mixed in at the
   * root.
   */
  function SyncPriors<P>(o: Options<P>, t: Tree, x: nat, board: P, moves: seq<Move>, draw: nat -> real): (ps: seq<real>)
    requires x < |t|
    ensures |ps| == |moves|
  {
    var raw := if o.priorFn.Some? then (var pr := o.priorFn.value(board, moves); if |pr| != |moves| then [] else pr) else [];
    var p := Normalise(raw, |moves|);
    if t[x].parent == -1 && o.dirichletAlpha > 0.0 then Dirichlet(p, o.dirichletAlpha, o.dirichletEpsilon, draw) else p
  }

  /** Away from the root, or without noise, a missing or mis-sized prior list gives every child 1/n. */
  lemma SyncPriorsUniform<P>(o: Options<P>, t: Tree, x: nat, board: P, moves: seq<Move>, draw: nat -> real)
    requires x < |t| && (t[x].parent != -1 || o.dirichletAlpha <= 0.0)
    requires o.priorFn.None? || |o.priorFn.value(board, moves)| != |moves|
    ensures forall i :: 0 <= i < |moves| ==> SyncPriors(o, t, x, board, moves, draw)[i] == 1.0 / |moves| as real
  {
  }

  /** Away from the root, or without noise, one positive weight per move gives the weights scaled to sum 1. */
  lemma SyncPriorsFollowWeights<P>(o: Options<P>, t: Tree, x: nat, board: P, moves: seq<Move>, draw: nat -> real)
    requires x < |t| && (t[x].parent != -1 || o.dirichletAlpha <= 0.0) && |moves| > 0
    requires o.priorFn.Some? && |o.priorFn.value(board, moves)| == |moves|
    requires forall i :: 0 <= i < |moves| ==> o.priorFn.value(board, moves)[i] > 0.0
    ensures Sum(o.priorFn.value(board, moves)) > 0.0
    ensures Sum(SyncPriors(o, t, x, board, moves, draw)) == 1.0
    ensures forall i :: 0 <= i < |moves| ==>
      SyncPriors(o, t, x, board, moves, draw)[i] == o.priorFn.value(board, moves)[i] / Sum(o.priorFn.value(board, moves))
  {
    NormalisePositive(o.priorFn.value(board, moves), |moves|);
  }

  /** The priors are positive whenever the Dirichlet mix keeps them so. */
  lemma SyncPriorsPositive<P>(o: Options<P>, t: Tree, x: nat, board: P, moves: seq<Move>, draw: nat -> real)
    requires x < |t| && (o.dirichletAlpha <= 0.0 || 0.0 <= o.dirichletEpsilon <= 1.0)
    ensures forall i :: 0 <= i < |moves| ==> SyncPriors(o, t, x, board, moves, draw)[i] > 0.0
  {
    var raw := if o.priorFn.Some? then (var pr := o.priorFn.value(board, moves); if |pr| != |moves| then [] else pr) else [];
    var p := Normalise(raw, |moves|);
    if t[x].parent == -1 && o.dirichletAlpha > 0.0 && |moves| > 0 {
      DirichletPositive(p, o.dirichletAlpha, o.dirichletEpsilon, draw);
    }
  }

  /** The value of the position after the selected move: value_fn, or the random playout's result. */
  function LeafValue<P>(o: Options<P>, playout: (nat, P) -> GameResult, iter: nat, rootWhite: bool, board: P): real {
    if o.valueFn.Some? then o.valueFn.value(board) else ResultToValue(playout(iter, board), rootWhite)
  }

  /** The step at a node without children: terminal backup, or expansion, selection and a signed backup. */
  function Leaf<P>(g: Game<P>, o: Options<P>, sqrt: int -> real, draw: nat -> real, playout: (nat, P) -> GameResult,
                   iter: nat, rootWhite: bool, t: Tree, x: nat, board: P): (r: Tree)
    requires WellFormed(t) && x < |t| && t[x].count == 0
    ensures WellFormed(r) && |r| >= |t| && r[0].n <= t[0].n + 1
  {
    var (moves, b1) := g.generate(board);
    if |moves| == 0 then
      var r := Backup(t, x, ResultToValue(g.result(b1), rootWhite), false, false);
      SameShapeWellFormed(t, r);
      BackupCountsRoot(t, x, ResultToValue(g.result(b1), rootWhite), false, false);
      r
    else Grow(g, o, sqrt, draw, playout, iter, rootWhite, t, x, moves, b1)
  }

  /** Expansion with the legal moves, then the first best child is played, evaluated and backed up. */
  function Grow<P>(g: Game<P>, o: Options<P>, sqrt: int -> real, draw: nat -> real, playout: (nat, P) -> GameResult,
                   iter: nat, rootWhite: bool, t: Tree, x: nat, moves: seq<Move>, board: P): (r: Tree)
    requires WellFormed(t) && x < |t| && t[x].count == 0
    ensures WellFormed(r) && |r| >= |t| && r[0].n <= t[0].n + 1
  {
    var t1 := Expand(t, x, moves, SyncPriors(o, t, x, board, moves, draw));
    var best := SelectBest(t1, x, o.cPuct, sqrt, false);
    if best < 0 then t1
    else
      var value := LeafValue(o, playout, iter, rootWhite, g.play(board, t1[best].move));
      var r := Backup(t1, best, value, true, false);
      SameShapeWellFormed(t1, r);
      BackupCountsRoot(t1, best, value, true, false);
      r
  }

  /** One iteration from node x down: select the first best child and play its move until a node without children. */
  function Descend<P>(g: Game<P>, o: Options<P>, sqrt: int -> real, draw: nat -> real, playout: (nat, P) -> GameResult,
                      iter: nat, rootWhite: bool, t: Tree, x: nat, board: P): (r: Tree)
    requires WellFormed(t) && x < |t|
    ensures WellFormed(r) && |r| >= |t| && r[0].n <= t[0].n + 1
    decreases |t| - x
  {
    if t[x].count == 0 then Leaf(g, o, sqrt, draw, playout, iter, rootWhite, t, x, board)
    else
      var best := SelectBest(t, x, o.cPuct, sqrt, false);
      if best < 0 then t
      else Descend(g, o, sqrt, draw, playout, iter, rootWhite, t, best, g.play(board, t[best].move))
  }

  /** The iterations from iter up to iterations, each starting from the root position. */
  function SyncLoop<P>(g: Game<P>, o: Options<P>, sqrt: int -> real, draw: nat -> real, playout: (nat, P) -> GameResult,
                       root: P, iter: nat, iterations: nat, t: Tree): (r: Tree)
    requires WellFormed(t) && iter <= iterations
    ensures WellFormed(r) && r[0].n <= t[0].n + (iterations - iter)
    decreases iterations - iter
  {
    if iter == iterations then t
    else
      var t1 := Descend(g, o, sqrt, draw, playout, iter, g.whiteToMove(root), t, 0, root);
      SyncLoop(g, o, sqrt, draw, playout, root, iter + 1, iterations, t1)
  }

  /** RunMCTS without batch evaluators: no iterations give the empty result, and the root is never visited more often than asked. */
  function RunSync<P>(g: Game<P>, o: Options<P>, sqrt: int -> real, draw: nat -> real, playout: (nat, P) -> GameResult,
                      root: P, iterations: int): (r: SearchResult)
    ensures iterations <= 0 ==> r == EmptyResult()
    ensures r.rootVisits <= if iterations > 0 then iterations else 0
  {
    if iterations <= 0 then EmptyResult()
    else Report(SyncLoop(g, o, sqrt, draw, playout, root, 0, iterations, NewRoot()))
  }

  // ---------------------------------------------------------------------------
  // Every iteration reaches the root

  /** The bookkeeping facts the search keeps: W within [-N, N] and positive priors. */
  predicate Kept(t: Tree) {
    WellFormed(t) && ValuesBounded(t) && PriorsPositive(t)
  }

  lemma ExpandKept(t: Tree, x: nat, moves: seq<Move>, ps: seq<real>)
    requires Kept(t) && x < |t| && t[x].count == 0 && |ps| == |moves|
    requires forall i :: 0 <= i < |ps| ==> ps[i] > 0.0
    ensures Kept(Expand(t, x, moves, ps))
  {
    var r := Expand(t, x, moves, ps);
    forall i | 0 <= i < |r|
      ensures -(r[i].n as real) <= r[i].w <= r[i].n as real && (i > 0 ==> r[i].p > 0.0)
    {
      if i >= |t| {
        assert r[i] == Node(moves[i - |t|], x, 0, 0, 0, 0.0, ps[i - |t|], 0);
      }
    }
  }

  lemma BackupKept(t: Tree, x: int, value: real, alternate: bool, virtual: bool)
    requires Kept(t) && -1 <= x < |t| && -1.0 <= value <= 1.0
    ensures Kept(Backup(t, x, value, alternate, virtual))
  {
    var r := Backup(t, x, value, alternate, virtual);
    SameShapeWellFormed(t, r);
    BackupBounded(t, x, value, alternate, virtual);
  }

  /** Under sound options each iteration ends in exactly one backup through the root, and keeps the bookkeeping facts. */
  lemma LeafCounts<P(!new)>(g: Game<P>, o: Options<P>, sqrt: int -> real, draw: nat -> real, playout: (nat, P) -> GameResult,
                            iter: nat, rootWhite: bool, t: Tree, x: nat, board: P)
    requires Kept(t) && x < |t| && t[x].count == 0 && Sound(o, sqrt)
    ensures var r := Leaf(g, o, sqrt, draw, playout, iter, rootWhite, t, x, board);
      Kept(r) && r[0].n == t[0].n + 1
  {
    var (moves, b1) := g.generate(board);
    if |moves| == 0 {
      BackupKept(t, x, ResultToValue(g.result(b1), rootWhite), false, false);
      BackupCountsRoot(t, x, ResultToValue(g.result(b1), rootWhite), false, false);
    } else {
      GrowCounts(g, o, sqrt, draw, playout, iter, rootWhite, t, x, moves, b1);
    }
  }

  lemma GrowCounts<P(!new)>(g: Game<P>, o: Options<P>, sqrt: int -> real, draw: nat -> real, playout: (nat, P) -> GameResult,
                            iter: nat, rootWhite: bool, t: Tree, x: nat, moves: seq<Move>, board: P)
    requires Kept(t) && x < |t| && t[x].count == 0 && Sound(o, sqrt) && |moves| > 0
    ensures var r := Grow(g, o, sqrt, draw, playout, iter, rootWhite, t, x, moves, board);
      Kept(r) && r[0].n == t[0].n + 1
  {
    var ps := SyncPriors(o, t, x, board, moves, draw);
    SyncPriorsPositive(o, t, x, board, moves, draw);
    ExpandKept(t, x, moves, ps);
    var t1 := Expand(t, x, moves, ps);
    SelectsSomeChild(t1, x, o.cPuct, sqrt, false);
    var best := SelectBest(t1, x, o.cPuct, sqrt, false);
    var value := LeafValue(o, playout, iter, rootWhite, g.play(board, t1[best].move));
    assert -1.0 <= value <= 1.0;
    BackupKept(t1, best, value, true, false);
    BackupCountsRoot(t1, best, value, true, false);
    assert t1[0].n == t[0].n;
    assert Grow(g, o, sqrt, draw, playout, iter, rootWhite, t, x, moves, board) == Backup(t1, best, value, true, false);
  }

  lemma {:induction false} DescendCounts<P(!new)>(g: Game<P>, o: Options<P>, sqrt: int -> real, draw: nat -> real,
                                                  playout: (nat, P) -> GameResult, iter: nat, rootWhite: bool,
                                                  t: Tree, x: nat, board: P)
    requires Kept(t) && x < |t| && Sound(o, sqrt)
    ensures var r := Descend(g, o, sqrt, draw, playout, iter, rootWhite, t, x, board);
      Kept(r) && r[0].n == t[0].n + 1
    decreases |t| - x
  {
    if t[x].count == 0 {
      LeafCounts(g, o, sqrt, draw, playout, iter, rootWhite, t, x, board);
    } else {
      SelectsSomeChild(t, x, o.cPuct, sqrt, false);
      var best := SelectBest(t, x, o.cPuct, sqrt, false);
      DescendCounts(g, o, sqrt, draw, playout, iter, rootWhite, t, best, g.play(board, t[best].move));
    }
  }

  lemma {:induction false} SyncLoopCounts<P(!new)>(g: Game<P>, o: Options<P>, sqrt: int -> real, draw: nat -> real,
                                                   playout: (nat, P) -> GameResult, root: P, iter: nat, iterations: nat, t: Tree)
    requires Kept(t) && iter <= iterations && Sound(o, sqrt)
    ensures var r := SyncLoop(g, o, sqrt, draw, playout, root, iter, iterations, t);
      Kept(r) && r[0].n == t[0].n + (iterations - iter)
    decreases iterations - iter
  {
    if iter < iterations {
      DescendCounts(g, o, sqrt, draw, playout, iter, g.whiteToMove(root), t, 0, root);
      var t1 := Descend(g, o, sqrt, draw, playout, iter, g.whiteToMove(root), t, 0, root);
      SyncLoopCounts(g, o, sqrt, draw, playout, root, iter + 1, iterations, t1);
    }
  }

  /**
   * Under sound options the root is visited exactly once per iteration, and
   * the reported root value, the mean of [-1, 1] values, lies in [-1, 1].
   */
  lemma RunSyncExact<P(!new)>(g: Game<P>, o: Options<P>, sqrt: int -> real, draw: nat -> real,
                              playout: (nat, P) -> GameResult, root: P, iterations: int)
    requires Sound(o, sqrt) && iterations > 0
    ensures RunSync(g, o, sqrt, draw, playout, root, iterations).rootVisits == iterations
    ensures -1.0 <= RunSync(g, o, sqrt, draw, playout, root, iterations).rootValue <= 1.0
  {
    NewRootWellFormed();
    SyncLoopCounts(g, o, sqrt, draw, playout, root, 0, iterations, NewRoot());
  }

  // ---------------------------------------------------------------------------
  // The listed visits add up to the root's

  /**
   * The root's children's visits account for all of the root's visits once it
   * has children; before that it is unvisited, or has no legal moves.
   */
  predicate RootAccount<P>(g: Game<P>, root: P, t: Tree)
    requires WellFormed(t)
  {
    if t[0].count == 0 then t[0].n == 0 || |g.generate(root).0| == 0
    else RootChildVisits(t) == t[0].n
  }

  /** Below the root, an iteration adds the same to the root's N as to its children's visits. */
  lemma {:induction false} DescendBelowRoot<P>(g: Game<P>, o: Options<P>, sqrt: int -> real, draw: nat -> real,
                                              playout: (nat, P) -> GameResult, iter: nat, rootWhite: bool,
                                              t: Tree, x: nat, board: P)
    requires WellFormed(t) && 0 < x < |t|
    ensures var r := Descend(g, o, sqrt, draw, playout, iter, rootWhite, t, x, board);
      && r[0].first == t[0].first && r[0].count == t[0].count
      && RootChildVisits(r) + t[0].n == RootChildVisits(t) + r[0].n
    decreases |t| - x
  {
    if t[x].count == 0 {
      var (moves, b1) := g.generate(board);
      if |moves| == 0 {
        BackupKeepsRootSum(t, x, ResultToValue(g.result(b1), rootWhite), false, false);
      } else {
        GrowBelowRoot(g, o, sqrt, draw, playout, iter, rootWhite, t, x, moves, b1);
      }
    } else {
      var best := SelectBest(t, x, o.cPuct, sqrt, false);
      if best >= 0 {
        DescendBelowRoot(g, o, sqrt, draw, playout, iter, rootWhite, t, best, g.play(board, t[best].move));
      }
    }
  }

  lemma GrowBelowRoot<P>(g: Game<P>, o: Options<P>, sqrt: int -> real, draw: nat -> real,
                         playout: (nat, P) -> GameResult, iter: nat, rootWhite: bool,
                         t: Tree, x: nat, moves: seq<Move>, board: P)
    requires WellFormed(t) && 0 < x < |t| && t[x].count == 0
    ensures var r := Grow(g, o, sqrt, draw, playout, iter, rootWhite, t, x, moves, board);
      && r[0].first == t[0].first && r[0].count == t[0].count
      && RootChildVisits(r) + t[0].n == RootChildVisits(t) + r[0].n
  {
    var ps := SyncPriors(o, t, x, board, moves, draw);
    var t1 := Expand(t, x, moves, ps);
    ExpandBelowRoot(t, x, moves, ps);
    var best := SelectBest(t1, x, o.cPuct, sqrt, false);
    if best >= 0 {
      BackupKeepsRootSum(t1, best, LeafValue(o, playout, iter, rootWhite, g.play(board, t1[best].move)), true, false);
    }
  }

  /** An iteration from the root keeps the account. */
  lemma DescendFromRoot<P>(g: Game<P>, o: Options<P>, sqrt: int -> real, draw: nat -> real,
                           playout: (nat, P) -> GameResult, iter: nat, rootWhite: bool, root: P, t: Tree)
    requires WellFormed(t) && RootAccount(g, root, t)
    ensures var r := Descend(g, o, sqrt, draw, playout, iter, rootWhite, t, 0, root);
      RootAccount(g, root, r)
  {
    if t[0].count == 0 {
      var (moves, b1) := g.generate(root);
      if |moves| > 0 {
        var ps := SyncPriors(o, t, 0, b1, moves, draw);
        var t1 := Expand(t, 0, moves, ps);
        ExpandRoot(t, moves, ps);
        var best := SelectBest(t1, 0, o.cPuct, sqrt, false);
        if best >= 0 {
          BackupKeepsRootSum(t1, best, LeafValue(o, playout, iter, rootWhite, g.play(b1, t1[best].move)), true, false);
        }
      }
    } else {
      var best := SelectBest(t, 0, o.cPuct, sqrt, false);
      if best >= 0 {
        DescendBelowRoot(g, o, sqrt, draw, playout, iter, rootWhite, t, best, g.play(root, t[best].move));
      }
    }
  }

  lemma {:induction false} SyncLoopAccount<P>(g: Game<P>, o: Options<P>, sqrt: int -> real, draw: nat -> real,
                                             playout: (nat, P) -> GameResult, root: P, iter: nat, iterations: nat, t: Tree)
    requires WellFormed(t) && iter <= iterations && RootAccount(g, root, t)
    ensures RootAccount(g, root, SyncLoop(g, o, sqrt, draw, playout, root, iter, iterations, t))
    decreases iterations - iter
  {
    if iter < iterations {
      DescendFromRoot(g, o, sqrt, draw, playout, iter, g.whiteToMove(root), root, t);
      var t1 := Descend(g, o, sqrt, draw, playout, iter, g.whiteToMove(root), t, 0, root);
      SyncLoopAccount(g, o, sqrt, draw, playout, root, iter + 1, iterations, t1);
    }
  }

  /** When the root has legal moves, the listed visits add up to the root's visits, whatever the options. */
  lemma RunSyncVisitsAddUp<P>(g: Game<P>, o: Options<P>, sqrt: int -> real, draw: nat -> real,
                              playout: (nat, P) -> GameResult, root: P, iterations: int)
    requires |g.generate(root).0| > 0
    ensures var r := RunSync(g, o, sqrt, draw, playout, root, iterations);
      VisitTotal(r.visits) == r.rootVisits
  {
    if iterations > 0 {
      NewRootWellFormed();
      SyncLoopAccount(g, o, sqrt, draw, playout, root, 0, iterations, NewRoot());
      var t := SyncLoop(g, o, sqrt, draw, playout, root, 0, iterations, NewRoot());
      ReportVisitTotal(t);
      if t[0].count == 0 {
        assert Report(t).visits == [];
      }
    }
  }

  // ---------------------------------------------------------------------------
  // A root without legal moves

  /** Every iteration from a root without legal moves backs up the root's own result there, unsigned. */
  lemma {:induction false} SyncLoopTerminalRoot<P>(g: Game<P>, o: Options<P>, sqrt: int -> real, draw: nat -> real,
                                                  playout: (nat, P) -> GameResult, root: P, iter: nat, iterations: nat,
                                                  t: Tree, v: real)
    requires WellFormed(t) && iter <= iterations && |g.generate(root).0| == 0 && t[0].count == 0
    requires v == ResultToValue(g.result(g.generate(root).1), g.whiteToMove(root))
    ensures var r := SyncLoop(g, o, sqrt, draw, playout, root, iter, iterations, t);
      && r[0].count == 0 && r[0].n == t[0].n + (iterations - iter)
      && r[0].w == t[0].w + (iterations - iter) as real * v
    decreases iterations - iter
  {
    if iter < iterations {
      var t1 := Descend(g, o, sqrt, draw, playout, iter, g.whiteToMove(root), t, 0, root);
      DescendTerminalRoot(g, o, sqrt, draw, playout, iter, root, t, v);
      SyncLoopTerminalRoot(g, o, sqrt, draw, playout, root, iter + 1, iterations, t1, v);
      SyncLoopUnfold(g, o, sqrt, draw, playout, root, iter, iterations, t);
      AddOneMore(t[0].w, v, iterations - (iter + 1));
    }
  }

  /** One iteration of the loop is one descent from the root. */
  lemma SyncLoopUnfold<P>(g: Game<P>, o: Options<P>, sqrt: int -> real, draw: nat -> real,
                          playout: (nat, P) -> GameResult, root: P, iter: nat, iterations: nat, t: Tree)
    requires WellFormed(t) && iter < iterations
    ensures SyncLoop(g, o, sqrt, draw, playout, root, iter, iterations, t)
            == SyncLoop(g, o, sqrt, draw, playout, root, iter + 1, iterations,
                        Descend(g, o, sqrt, draw, playout, iter, g.whiteToMove(root), t, 0, root))
  {
  }

  lemma AddOneMore(w: real, v: real, k: nat)
    ensures (w + v) + k as real * v == w + (k + 1) as real * v
  {
  }

  lemma DescendTerminalRoot<P>(g: Game<P>, o: Options<P>, sqrt: int -> real, draw: nat -> real,
                               playout: (nat, P) -> GameResult, iter: nat, root: P, t: Tree, v: real)
    requires WellFormed(t) && |g.generate(root).0| == 0 && t[0].count == 0
    requires v == ResultToValue(g.result(g.generate(root).1), g.whiteToMove(root))
    ensures var r := Descend(g, o, sqrt, draw, playout, iter, g.whiteToMove(root), t, 0, root);
      r[0].count == 0 && r[0].n == t[0].n + 1 && r[0].w == t[0].w + v
  {
    assert Descend(g, o, sqrt, draw, playout, iter, g.whiteToMove(root), t, 0, root) == Backup(t, 0, v, false, false);
    BackupVisits(t, 0, v, false, false, 0);
    BackupValues(t, 0, v, false, false, 0);
  }

  /**
   * From a root without legal moves every iteration visits the root, no
   * children are listed, and the root value is the game result's value.
   */
  lemma RunSyncTerminalRoot<P>(g: Game<P>, o: Options<P>, sqrt: int -> real, draw: nat -> real,
                               playout: (nat, P) -> GameResult, root: P, iterations: int)
    requires |g.generate(root).0| == 0 && iterations > 0
    ensures var r := RunSync(g, o, sqrt, draw, playout, root, iterations);
      && r.visits == [] && r.rootVisits == iterations
      && r.rootValue == ResultToValue(g.result(g.generate(root).1), g.whiteToMove(root))
  {
    var v := ResultToValue(g.result(g.generate(root).1), g.whiteToMove(root));
    NewRootWellFormed();
    SyncLoopTerminalRoot(g, o, sqrt, draw, playout, root, 0, iterations, NewRoot(), v);
    var t := SyncLoop(g, o, sqrt, draw, playout, root, 0, iterations, NewRoot());
    MeanOfEqual(iterations as real, v);
  }

  lemma MeanOfEqual(k: real, v: real)
    requires k > 0.0
    ensures (0.0 + k * v) / k == v
  {
  }
}
