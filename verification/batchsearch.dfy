/**
 * The batch search of RunMCTSBatch (src/mcts.cpp), used when both batch
 * evaluators are set. W walkers descend the tree under virtual loss. A round
 * first flushes the walkers that wait for evaluation: their positions are
 * grouped by FEN in the order of the std::map keyed by FEN, both batch
 * evaluators are called once, every group's leaves are expanded, and each
 * waiting walker in map order (while iterations remain) backs up its group's
 * value and steps to the first best child. The round then advances every
 * running walker by one step: at a node without children it either finds a
 * terminal, backed up at once, or starts waiting; elsewhere it steps to the
 * first best child.
 *
 * The source loops until the completed count reaches the iterations, which
 * need not happen (a walker that finds no best child never moves); the model
 * runs at most fuel rounds and reports None when they run out.
 */
module BatchSearch {
  import opened Pieces
  import opened SearchTree
  import opened SearchSetup
  import opened FenOrder

  /** The largest number of walkers. */
  const MaxWorkers: nat := 1024

  /** W: batch_size clamped to [1, 1024]. */
  function WorkerCount(batchSize: int): (w: nat)
    ensures 1 <= w <= MaxWorkers
    ensures 1 <= batchSize <= MaxWorkers ==> w == batchSize
    ensures batchSize < 1 ==> w == 1
    ensures batchSize > MaxWorkers ==> w == MaxWorkers
  {
    if batchSize < 1 then 1 else if batchSize > MaxWorkers then MaxWorkers else batchSize
  }

  function Larger(a: int, b: int): int {
    if a < b then b else a
  }

  function Smaller(a: int, b: int): int {
    if a < b then a else b
  }

  /**
   * A walker: its position, its node, whether it waits for evaluation
   * (NEED_EVAL) rather than runs (RUN), and the legal moves last generated.
   */
  datatype Worker<P> = Worker(board: P, node: nat, waiting: bool, moves: seq<Move>)

  /** The search between steps: the tree, the walkers, and the completed count. */
  datatype Batch<P> = Batch(tree: Tree, workers: seq<Worker<P>>, completed: nat)

  /**
   * Whether a terminal found while advancing is counted even when the
   * requested iterations are complete (as written) or not (corrected).
   */
  datatype TerminalCount = Uncapped | Capped

  /** The tree is well formed and every walker is at one of its nodes. */
  predicate Valid<P>(s: Batch<P>) {
    WellFormed(s.tree) && forall i :: 0 <= i < |s.workers| ==> s.workers[i].node < |s.tree|
  }

  /** A waiting walker sits at a node without children and has moves to expand it with. */
  predicate Parked<P>(s: Batch<P>)
    requires Valid(s)
  {
    forall i :: 0 <= i < |s.workers| && s.workers[i].waiting ==>
      s.tree[s.workers[i].node].count == 0 && |s.workers[i].moves| > 0
  }

  /** W running walkers at the root position and a fresh root. */
  function Start<P>(root: P, w: nat): (s: Batch<P>)
    ensures Valid(s) && |s.workers| == w && s.completed == 0 && s.tree[0].n == 0
    ensures forall i :: 0 <= i < w ==> s.workers[i] == Worker(root, 0, false, [])
  {
    NewRootWellFormed();
    Batch(NewRoot(), seq(w, _ => Worker(root, 0, false, [])), 0)
  }

  /** One virtual loss more on node c. */
  function AddVirtual(t: Tree, c: nat): (r: Tree)
    requires c < |t|
    ensures SameShape(t, r) && r[c].nv == t[c].nv + 1
    ensures forall i :: 0 <= i < |t| ==> r[i].n == t[i].n && r[i].w == t[i].w
    ensures forall i :: 0 <= i < |t| && i != c ==> r[i].nv == t[i].nv
  {
    t[c := t[c].(nv := t[c].nv + 1)]
  }

  // ---------------------------------------------------------------------------
  // Grouping the waiting walkers by FEN

  /** The indices of the waiting walkers among the first n, in increasing order. */
  function Pending<P>(ws: seq<Worker<P>>, n: nat): (ps: seq<nat>)
    requires n <= |ws|
    ensures forall k :: 0 <= k < |ps| ==> ps[k] < n && ws[ps[k]].waiting
    ensures forall i :: 0 <= i < n && ws[i].waiting ==> i in ps
    ensures forall j, k :: 0 <= j < k < |ps| ==> ps[j] < ps[k]
  {
    if n == 0 then []
    else
      var ps := Pending(ws, n - 1);
      if ws[n - 1].waiting then ps + [n - 1] else ps
  }

  /** The FENs of the given walkers' positions. */
  function Fens<P>(g: Game<P>, ws: seq<Worker<P>>, ps: seq<nat>): (fs: seq<string>)
    requires forall k :: 0 <= k < |ps| ==> ps[k] < |ws|
    ensures |fs| == |ps| && forall k :: 0 <= k < |ps| ==> fs[k] == g.fen(ws[ps[k]].board)
  {
    seq(|ps|, k requires 0 <= k < |ps| => g.fen(ws[ps[k]].board))
  }

  /** evalByFen[f]: the given walkers whose position has FEN f, in the order given. */
  function Group<P>(g: Game<P>, ws: seq<Worker<P>>, ps: seq<nat>, f: string): (grp: seq<nat>)
    requires forall k :: 0 <= k < |ps| ==> ps[k] < |ws|
    ensures |grp| <= |ps|
    ensures forall k :: 0 <= k < |grp| ==> grp[k] < |ws| && grp[k] in ps && g.fen(ws[grp[k]].board) == f
    ensures forall i :: i in ps && g.fen(ws[i].board) == f ==> i in grp
  {
    if |ps| == 0 then []
    else
      var rest := Group(g, ws, ps[1..], f);
      assert forall i :: i in ps[1..] ==> i in ps;
      assert forall i :: i in ps ==> i == ps[0] || i in ps[1..];
      if g.fen(ws[ps[0]].board) == f then [ps[0]] + rest else rest
  }

  /** Every key of the map has a non-empty entry list. */
  predicate Grouped<P>(g: Game<P>, ws: seq<Worker<P>>, ps: seq<nat>, keys: seq<string>)
    requires forall k :: 0 <= k < |ps| ==> ps[k] < |ws|
  {
    forall fi :: 0 <= fi < |keys| ==> |Group(g, ws, ps, keys[fi])| > 0
  }

  /** The map filled with the waiting walkers' FENs has a non-empty entry list under every key. */
  lemma KeysHaveGroups<P>(g: Game<P>, ws: seq<Worker<P>>, ps: seq<nat>)
    requires forall k :: 0 <= k < |ps| ==> ps[k] < |ws|
    ensures Grouped(g, ws, ps, MapKeys(Fens(g, ws, ps)))
  {
    var fs := Fens(g, ws, ps);
    var keys := MapKeys(fs);
    forall fi | 0 <= fi < |keys|
      ensures |Group(g, ws, ps, keys[fi])| > 0
    {
      assert keys[fi] in keys;
      var k :| 0 <= k < |fs| && fs[k] == keys[fi];
      assert ps[k] in ps;
    }
  }

  /** The entries from group fi on, as (walker, group) pairs in the order the map visits them. */
  function Entries<P>(g: Game<P>, ws: seq<Worker<P>>, ps: seq<nat>, keys: seq<string>, fi: nat): (es: seq<(nat, nat)>)
    requires fi <= |keys| && forall k :: 0 <= k < |ps| ==> ps[k] < |ws|
    ensures forall k :: 0 <= k < |es| ==>
      es[k].0 < |ws| && es[k].0 in ps && fi <= es[k].1 < |keys| && g.fen(ws[es[k].0].board) == keys[es[k].1]
    decreases |keys| - fi
  {
    if fi == |keys| then []
    else
      var grp := Group(g, ws, ps, keys[fi]);
      seq(|grp|, j requires 0 <= j < |grp| => (grp[j], fi)) + Entries(g, ws, ps, keys, fi + 1)
  }

  /** Every waiting walker whose FEN is a key from fi on has an entry in its group. */
  lemma {:induction false} EntriesCover<P>(g: Game<P>, ws: seq<Worker<P>>, ps: seq<nat>, keys: seq<string>, fi: nat, i: nat, gi: nat)
    requires fi <= gi < |keys| && forall k :: 0 <= k < |ps| ==> ps[k] < |ws|
    requires i in ps && g.fen(ws[i].board) == keys[gi]
    ensures (i, gi) in Entries(g, ws, ps, keys, fi)
    decreases |keys| - fi
  {
    var grp := Group(g, ws, ps, keys[fi]);
    var head := seq(|grp|, j requires 0 <= j < |grp| => (grp[j], fi));
    assert Entries(g, ws, ps, keys, fi) == head + Entries(g, ws, ps, keys, fi + 1);
    if gi == fi {
      var j :| 0 <= j < |grp| && grp[j] == i;
      assert head[j] == (i, gi);
    } else {
      EntriesCover(g, ws, ps, keys, fi + 1, i, gi);
    }
  }

  /**
   * uciPerFen: for every key, the UCI texts of the legal moves of a waiting
   * walker whose position has that FEN, namely the group's first entry.
   */
  function Ucis<P>(g: Game<P>, ws: seq<Worker<P>>, ps: seq<nat>, keys: seq<string>): (us: seq<seq<string>>)
    requires forall k :: 0 <= k < |ps| ==> ps[k] < |ws|
    requires Grouped(g, ws, ps, keys)
    ensures |us| == |keys|
    ensures forall fi :: 0 <= fi < |keys| ==>
              var i := Group(g, ws, ps, keys[fi])[0];
              i < |ws| && i in ps && g.fen(ws[i].board) == keys[fi] && us[fi] == MovesToUci(ws[i].moves)
  {
    seq(|keys|, fi requires 0 <= fi < |keys| => MovesToUci(ws[Group(g, ws, ps, keys[fi])[0]].moves))
  }

  // ---------------------------------------------------------------------------
  // The evaluators' answers

  /** The FENs and what the two batch evaluators return for them, after the fallbacks. */
  datatype Evaluation = Evaluation(keys: seq<string>, priors: seq<seq<real>>, values: seq<real>)

  /**
   * One call of each batch evaluator: a prior list of the wrong length is
   * dropped entirely, and a value list of the wrong length becomes all zeros.
   */
  function Evaluate<P>(o: Options<P>, keys: seq<string>, ucis: seq<seq<string>>): (e: Evaluation)
    requires o.batchPriorFn.Some? && o.batchValueFn.Some?
    ensures e.keys == keys && |e.values| == |keys|
    ensures |o.batchPriorFn.value(keys, ucis)| == |keys| ==> e.priors == o.batchPriorFn.value(keys, ucis)
    ensures |o.batchPriorFn.value(keys, ucis)| != |keys| ==> e.priors == []
    ensures |o.batchValueFn.value(keys)| == |keys| ==> e.values == o.batchValueFn.value(keys)
    ensures |o.batchValueFn.value(keys)| != |keys| ==> forall i :: 0 <= i < |keys| ==> e.values[i] == 0.0
  {
    var pr := o.batchPriorFn.value(keys, ucis);
    var vs := o.batchValueFn.value(keys);
    Evaluation(keys, if |pr| != |keys| then [] else pr, if |vs| != |keys| then seq(|keys|, _ => 0.0) else vs)
  }

  // ---------------------------------------------------------------------------
  // Expansion of the waiting leaves

  /** The priors of one group: its weights normalised, with Dirichlet noise mixed in when the group's first node is the root. */
  function GroupPriors<P>(o: Options<P>, draw: nat -> real, atRoot: bool, weights: seq<real>, n: nat): (ps: seq<real>)
    ensures |ps| == n
  {
    var p := Normalise(weights, n);
    if atRoot && o.dirichletAlpha > 0.0 then Dirichlet(p, o.dirichletAlpha, o.dirichletEpsilon, draw) else p
  }

  /** Away from the root, or without noise, weights of the wrong count give every child 1/n. */
  lemma GroupPriorsUniform<P>(o: Options<P>, draw: nat -> real, atRoot: bool, weights: seq<real>, n: nat)
    requires (!atRoot || o.dirichletAlpha <= 0.0) && |weights| != n
    ensures forall i :: 0 <= i < n ==> GroupPriors(o, draw, atRoot, weights, n)[i] == 1.0 / n as real
  {
  }

  /** The group's priors are positive whenever the Dirichlet mix keeps them so. */
  lemma GroupPriorsPositive<P>(o: Options<P>, draw: nat -> real, atRoot: bool, weights: seq<real>, n: nat)
    requires o.dirichletAlpha <= 0.0 || 0.0 <= o.dirichletEpsilon <= 1.0
    ensures forall i :: 0 <= i < n ==> GroupPriors(o, draw, atRoot, weights, n)[i] > 0.0
  {
    var p := Normalise(weights, n);
    if atRoot && o.dirichletAlpha > 0.0 && n > 0 {
      DirichletPositive(p, o.dirichletAlpha, o.dirichletEpsilon, draw);
    }
  }

  /**
   * The priors an entry's children get: the group's list, and 1/n past its
   * end (reading past the end is undefined behaviour in the source).
   */
  function Fit(p: seq<real>, n: nat): (q: seq<real>)
    ensures |q| == n && forall i :: 0 <= i < n && i < |p| ==> q[i] == p[i]
  {
    seq(n, i requires 0 <= i < n => if i < |p| then p[i] else 1.0 / n as real)
  }

  /**
   * The expansion loop of one group from entry j on: a node is expanded the
   * first time it is met, with its own entry's moves and the group's priors.
   */
  function ExpandEntries<P>(t: Tree, ws: seq<Worker<P>>, grp: seq<nat>, p: seq<real>, j: nat): (r: Tree)
    requires WellFormed(t) && j <= |grp|
    requires forall i :: 0 <= i < |ws| ==> ws[i].node < |t|
    requires forall k :: 0 <= k < |grp| ==> grp[k] < |ws|
    ensures WellFormed(r) && |r| >= |t| && r[0].n == t[0].n
    ensures forall x :: 0 <= x < |t| && t[x].count > 0 ==> r[x].count == t[x].count
    ensures forall k :: j <= k < |grp| && |ws[grp[k]].moves| > 0 ==> r[ws[grp[k]].node].count > 0
    decreases |grp| - j
  {
    if j == |grp| then t
    else ExpandEntries(ExpandOnce(t, ws[grp[j]].node, ws[grp[j]].moves, p), ws, grp, p, j + 1)
  }

  /** One entry of the expansion loop: node x gets children for the moves unless it has some already. */
  function ExpandOnce(t: Tree, x: nat, moves: seq<Move>, p: seq<real>): (r: Tree)
    requires WellFormed(t) && x < |t|
    ensures WellFormed(r) && |r| >= |t| && r[0].n == t[0].n
    ensures forall y :: 0 <= y < |t| && t[y].count > 0 ==> r[y].count == t[y].count
    ensures |moves| > 0 ==> r[x].count > 0
  {
    if t[x].count == 0 then Expand(t, x, moves, Fit(p, |moves|)) else t
  }

  /** The expansion of the groups from fi on. */
  function ExpandGroups<P>(g: Game<P>, o: Options<P>, draw: nat -> real, t: Tree, ws: seq<Worker<P>>,
                           ps: seq<nat>, keys: seq<string>, priors: seq<seq<real>>, fi: nat): (r: Tree)
    requires WellFormed(t) && fi <= |keys|
    requires forall i :: 0 <= i < |ws| ==> ws[i].node < |t|
    requires forall k :: 0 <= k < |ps| ==> ps[k] < |ws|
    requires Grouped(g, ws, ps, keys)
    ensures WellFormed(r) && |r| >= |t| && r[0].n == t[0].n
    ensures forall x :: 0 <= x < |t| && t[x].count > 0 ==> r[x].count == t[x].count
    ensures forall k :: 0 <= k < |ps| && g.fen(ws[ps[k]].board) in keys[fi..] && |ws[ps[k]].moves| > 0 ==>
              r[ws[ps[k]].node].count > 0
    decreases |keys| - fi
  {
    if fi == |keys| then t
    else
      var grp := Group(g, ws, ps, keys[fi]);
      var front := ws[grp[0]];
      var p := GroupPriors(o, draw, t[front.node].parent == -1, if fi < |priors| then priors[fi] else [], |front.moves|);
      var t1 := ExpandEntries(t, ws, grp, p, 0);
      var r := ExpandGroups(g, o, draw, t1, ws, ps, keys, priors, fi + 1);
      GroupStepCovers(g, ws, ps, keys, fi, grp, t1, r);
      r
  }

  /**
   * One group's expansion followed by the later groups' covers the group's
   * key too: its walkers' nodes got children, and later groups keep them.
   */
  lemma GroupStepCovers<P>(g: Game<P>, ws: seq<Worker<P>>, ps: seq<nat>, keys: seq<string>, fi: nat,
                           grp: seq<nat>, t1: Tree, r: Tree)
    requires forall k :: 0 <= k < |ps| ==> ps[k] < |ws|
    requires fi < |keys| && grp == Group(g, ws, ps, keys[fi])
    requires forall i :: 0 <= i < |ws| ==> ws[i].node < |t1|
    requires |r| >= |t1|
    requires forall j :: 0 <= j < |grp| && |ws[grp[j]].moves| > 0 ==> t1[ws[grp[j]].node].count > 0
    requires forall x :: 0 <= x < |t1| && t1[x].count > 0 ==> r[x].count == t1[x].count
    requires forall k :: 0 <= k < |ps| && g.fen(ws[ps[k]].board) in keys[fi + 1..] && |ws[ps[k]].moves| > 0 ==>
               r[ws[ps[k]].node].count > 0
    ensures forall k :: 0 <= k < |ps| && g.fen(ws[ps[k]].board) in keys[fi..] && |ws[ps[k]].moves| > 0 ==>
              r[ws[ps[k]].node].count > 0
  {
    forall k | 0 <= k < |ps| && g.fen(ws[ps[k]].board) in keys[fi..] && |ws[ps[k]].moves| > 0
      ensures r[ws[ps[k]].node].count > 0
    {
      if g.fen(ws[ps[k]].board) == keys[fi] {
        assert ps[k] in ps;
        assert ps[k] in grp;
        var j :| 0 <= j < |grp| && grp[j] == ps[k];
      } else {
        assert keys[fi..] == [keys[fi]] + keys[fi + 1..];
      }
    }
  }

  // ---------------------------------------------------------------------------
  // Completing the evaluated walkers

  /**
   * One evaluated walker: its group's value is backed up with alternating
   * sign, releasing a virtual loss on every non-root node of the path; then
   * the walker steps to the first best child under virtual loss, adding one
   * there, and runs again.
   */
  function Finish<P>(g: Game<P>, o: Options<P>, sqrt: int -> real, s: Batch<P>, idx: nat, value: real): (r: Batch<P>)
    requires Valid(s) && idx < |s.workers|
    ensures Valid(r) && |r.workers| == |s.workers| && r.completed == s.completed + 1
    ensures r.tree[0].n == s.tree[0].n + 1
    ensures !r.workers[idx].waiting
    ensures forall i :: 0 <= i < |s.workers| && i != idx ==> r.workers[i] == s.workers[i]
  {
    var w := s.workers[idx];
    var t1 := Backup(s.tree, w.node, value, true, true);
    SameShapeWellFormed(s.tree, t1);
    BackupCountsRoot(s.tree, w.node, value, true, true);
    MoveOn(g, o, sqrt, Batch(t1, s.workers[idx := w.(waiting := false)], s.completed + 1), idx)
  }

  /**
   * Walker i steps to the first best child of its node under virtual loss,
   * adding a virtual loss there and playing its move; with no best child it stays.
   */
  function MoveOn<P>(g: Game<P>, o: Options<P>, sqrt: int -> real, s: Batch<P>, i: nat): (r: Batch<P>)
    requires Valid(s) && i < |s.workers|
    ensures Valid(r) && |r.workers| == |s.workers| && r.completed == s.completed
    ensures SameShape(s.tree, r.tree) && r.tree[0].n == s.tree[0].n
    ensures r.workers[i].waiting == s.workers[i].waiting
    ensures forall j :: 0 <= j < |s.workers| && j != i ==> r.workers[j] == s.workers[j]
  {
    var w := s.workers[i];
    var best := SelectBest(s.tree, w.node, o.cPuct, sqrt, true);
    if best < 0 then s
    else
      var t1 := AddVirtual(s.tree, best);
      SameShapeWellFormed(s.tree, t1);
      Batch(t1, s.workers[i := w.(board := g.play(w.board, s.tree[best].move), node := best)], s.completed)
  }

  /** The completion loop from entry k on, stopping when no iterations remain. */
  function Complete<P>(g: Game<P>, o: Options<P>, sqrt: int -> real, es: seq<(nat, nat)>, values: seq<real>,
                       k: nat, remaining: nat, s: Batch<P>): (r: Batch<P>)
    requires Valid(s) && k <= |es| && forall j :: 0 <= j < |es| ==> es[j].0 < |s.workers|
    ensures Valid(r) && |r.workers| == |s.workers|
    ensures r.completed == s.completed + Smaller(remaining, |es| - k)
    ensures r.tree[0].n + s.completed == s.tree[0].n + r.completed
    decreases |es| - k
  {
    if k == |es| || remaining == 0 then s
    else
      var value := if es[k].1 < |values| then values[es[k].1] else 0.0;
      Complete(g, o, sqrt, es, values, k + 1, remaining - 1, Finish(g, o, sqrt, s, es[k].0, value))
  }

  /** The walkers still waiting after the completion loop restart at the root, running. */
  function Release<P>(ws: seq<Worker<P>>, root: P): (r: seq<Worker<P>>)
    ensures |r| == |ws|
    ensures forall i :: 0 <= i < |ws| ==> !r[i].waiting
    ensures forall i :: 0 <= i < |ws| && !ws[i].waiting ==> r[i] == ws[i]
    ensures forall i :: 0 <= i < |ws| && ws[i].waiting ==> r[i].board == root && r[i].node == 0
  {
    seq(|ws|, i requires 0 <= i < |ws| => if ws[i].waiting then ws[i].(board := root, node := 0, waiting := false) else ws[i])
  }

  /**
   * The flush of one round: when some walker waits, group, evaluate, expand,
   * complete up to the remaining iterations, and restart the rest at the root.
   */
  function Flush<P>(g: Game<P>, o: Options<P>, sqrt: int -> real, draw: nat -> real, iterations: int, root: P,
                    s: Batch<P>): (r: Batch<P>)
    requires Valid(s) && o.batchPriorFn.Some? && o.batchValueFn.Some?
    ensures Valid(r) && |r.workers| == |s.workers|
    ensures r.tree[0].n + s.completed == s.tree[0].n + r.completed
    ensures s.completed <= r.completed <= Larger(s.completed, iterations)
    ensures forall i :: 0 <= i < |r.workers| ==> !r.workers[i].waiting
  {
    var ps := Pending(s.workers, |s.workers|);
    if |ps| == 0 then s else FlushWaiting(g, o, sqrt, draw, iterations, root, s, ps)
  }

  /** The flush of the waiting walkers ps. */
  function FlushWaiting<P>(g: Game<P>, o: Options<P>, sqrt: int -> real, draw: nat -> real, iterations: int, root: P,
                           s: Batch<P>, ps: seq<nat>): (r: Batch<P>)
    requires Valid(s) && o.batchPriorFn.Some? && o.batchValueFn.Some?
    requires forall k :: 0 <= k < |ps| ==> ps[k] < |s.workers|
    ensures Valid(r) && |r.workers| == |s.workers|
    ensures r.tree[0].n + s.completed == s.tree[0].n + r.completed
    ensures s.completed <= r.completed <= Larger(s.completed, iterations)
    ensures forall i :: 0 <= i < |r.workers| ==> !r.workers[i].waiting
  {
    var keys := MapKeys(Fens(g, s.workers, ps));
    KeysHaveGroups(g, s.workers, ps);
    FlushGroups(g, o, sqrt, draw, iterations, root, s, ps, Evaluate(o, keys, Ucis(g, s.workers, ps, keys)))
  }

  /** Expansion of every group, then the completion loop over the entries in map order, then the restart of the rest. */
  function FlushGroups<P>(g: Game<P>, o: Options<P>, sqrt: int -> real, draw: nat -> real, iterations: int, root: P,
                          s: Batch<P>, ps: seq<nat>, e: Evaluation): (r: Batch<P>)
    requires Valid(s) && forall k :: 0 <= k < |ps| ==> ps[k] < |s.workers|
    requires Grouped(g, s.workers, ps, e.keys)
    ensures Valid(r) && |r.workers| == |s.workers|
    ensures r.tree[0].n + s.completed == s.tree[0].n + r.completed
    ensures s.completed <= r.completed <= Larger(s.completed, iterations)
    ensures forall i :: 0 <= i < |r.workers| ==> !r.workers[i].waiting
  {
    var t1 := ExpandGroups(g, o, draw, s.tree, s.workers, ps, e.keys, e.priors, 0);
    Conclude(g, o, sqrt, iterations, root, Batch(t1, s.workers, s.completed), Entries(g, s.workers, ps, e.keys, 0), e.values)
  }

  /** The completion loop with the iterations that remain, then the restart of the walkers still waiting. */
  function Conclude<P>(g: Game<P>, o: Options<P>, sqrt: int -> real, iterations: int, root: P,
                       s: Batch<P>, es: seq<(nat, nat)>, values: seq<real>): (r: Batch<P>)
    requires Valid(s) && forall j :: 0 <= j < |es| ==> es[j].0 < |s.workers|
    ensures Valid(r) && |r.workers| == |s.workers|
    ensures r.tree[0].n + s.completed == s.tree[0].n + r.completed
    ensures r.completed == s.completed + Smaller(Larger(iterations - s.completed, 0), |es|)
    ensures forall i :: 0 <= i < |r.workers| ==> !r.workers[i].waiting
  {
    var remaining := if iterations - s.completed > 0 then iterations - s.completed else 0;
    var s1 := Complete(g, o, sqrt, es, values, 0, remaining, s);
    s1.(workers := Release(s1.workers, root))
  }

  // ---------------------------------------------------------------------------
  // Advancing the running walkers

  /**
   * One running walker's step. At a node without children: legal moves make
   * it wait; none make a terminal, whose result is backed up with alternating
   * sign and counted, and the walker restarts at the root (the corrected
   * count skips a terminal once the iterations are complete). Elsewhere it
   * steps to the first best child under virtual loss.
   */
  function Step<P>(g: Game<P>, o: Options<P>, sqrt: int -> real, rule: TerminalCount, iterations: int,
                   rootWhite: bool, root: P, i: nat, s: Batch<P>): (r: Batch<P>)
    requires Valid(s) && i < |s.workers|
    ensures Valid(r) && |r.workers| == |s.workers|
    ensures r.tree[0].n + s.completed == s.tree[0].n + r.completed
    ensures s.completed <= r.completed <= s.completed + 1
    ensures rule == Capped ==> r.completed <= Larger(s.completed, iterations)
    ensures forall j :: 0 <= j < |s.workers| && j != i ==> r.workers[j] == s.workers[j]
    ensures SameShape(s.tree, r.tree)
  {
    var w := s.workers[i];
    if w.waiting then s
    else if s.tree[w.node].count == 0 then
      var (moves, b1) := g.generate(w.board);
      if |moves| > 0 then s.(workers := s.workers[i := Worker(b1, w.node, true, moves)])
      else if rule == Capped && s.completed >= iterations then s.(workers := s.workers[i := w.(board := b1, moves := moves)])
      else
        var value := ResultToValue(g.result(b1), rootWhite);
        var t1 := Backup(s.tree, w.node, value, true, true);
        SameShapeWellFormed(s.tree, t1);
        BackupCountsRoot(s.tree, w.node, value, true, true);
        Batch(t1, s.workers[i := Worker(root, 0, false, moves)], s.completed + 1)
    else
      MoveOn(g, o, sqrt, s, i)
  }

  /** The advance loop over the walkers from i on. */
  function Advance<P>(g: Game<P>, o: Options<P>, sqrt: int -> real, rule: TerminalCount, iterations: int,
                      rootWhite: bool, root: P, i: nat, s: Batch<P>): (r: Batch<P>)
    requires Valid(s) && i <= |s.workers|
    ensures Valid(r) && |r.workers| == |s.workers|
    ensures r.tree[0].n + s.completed == s.tree[0].n + r.completed
    ensures s.completed <= r.completed <= s.completed + (|s.workers| - i)
    ensures rule == Capped ==> r.completed <= Larger(s.completed, iterations)
    ensures Parked(s) ==> Parked(r)
    decreases |s.workers| - i
  {
    if i == |s.workers| then s
    else
      var t := Step(g, o, sqrt, rule, iterations, rootWhite, root, i, s);
      if Parked(s) then StepParked(g, o, sqrt, rule, iterations, rootWhite, root, i, s); Advance(g, o, sqrt, rule, iterations, rootWhite, root, i + 1, t)
      else Advance(g, o, sqrt, rule, iterations, rootWhite, root, i + 1, t)
  }

  // ---------------------------------------------------------------------------
  // The rounds

  /** Rounds of flush and advance until the completed count reaches the iterations, or None after fuel rounds. */
  function BatchLoop<P>(g: Game<P>, o: Options<P>, sqrt: int -> real, draw: nat -> real, rule: TerminalCount,
                        iterations: int, root: P, fuel: nat, s: Batch<P>): (r: Option<Batch<P>>)
    requires Valid(s) && o.batchPriorFn.Some? && o.batchValueFn.Some?
    ensures r.Some? ==> Valid(r.value) && |r.value.workers| == |s.workers|
    ensures r.Some? ==> r.value.completed >= iterations
    ensures r.Some? ==> r.value.tree[0].n + s.completed == s.tree[0].n + r.value.completed
    ensures r.Some? ==> r.value.completed <= Larger(s.completed, iterations + |s.workers|)
    ensures r.Some? && rule == Capped ==> r.value.completed <= Larger(s.completed, iterations)
    ensures r.Some? && |g.generate(root).0| == 0 && RootStuck(root, iterations, s) ==> r.value.tree[0].count == 0
    decreases fuel
  {
    if s.completed >= iterations then Some(s)
    else if fuel == 0 then None
    else
      var s1 := Flush(g, o, sqrt, draw, iterations, root, s);
      var s2 := Advance(g, o, sqrt, rule, iterations, g.whiteToMove(root), root, 0, s1);
      assert |g.generate(root).0| == 0 && RootStuck(root, iterations, s) ==> RootStuck(root, iterations, s2) by {
        if |g.generate(root).0| == 0 && RootStuck(root, iterations, s) {
          RoundStuck(g, o, sqrt, draw, rule, iterations, root, s);
        }
      }
      BatchLoop(g, o, sqrt, draw, rule, iterations, root, fuel - 1, s2)
  }

  /**
   * RunMCTSBatch: the root is visited once per completion, so at least the
   * requested iterations; as written up to W more, corrected exactly as many.
   */
  function RunBatch<P>(g: Game<P>, o: Options<P>, sqrt: int -> real, draw: nat -> real, rule: TerminalCount,
                       root: P, iterations: int, fuel: nat): (r: Option<SearchResult>)
    requires o.batchPriorFn.Some? && o.batchValueFn.Some?
    ensures r.Some? ==> r.value.rootVisits >= iterations
    ensures r.Some? ==> r.value.rootVisits <= Larger(0, iterations + WorkerCount(o.batchSize))
    ensures r.Some? && rule == Capped ==> r.value.rootVisits == Larger(0, iterations)
  {
    var s := Start(root, WorkerCount(o.batchSize));
    var f := BatchLoop(g, o, sqrt, draw, rule, iterations, root, fuel, s);
    if f.None? then None else Some(Report(f.value.tree))
  }

  // ---------------------------------------------------------------------------
  // How many walkers a flush completes

  /** The sizes of the entry lists of the keys from fi on, summed. */
  function GroupSizes<P>(g: Game<P>, ws: seq<Worker<P>>, ps: seq<nat>, keys: seq<string>, fi: nat): nat
    requires fi <= |keys| && forall k :: 0 <= k < |ps| ==> ps[k] < |ws|
    decreases |keys| - fi
  {
    if fi == |keys| then 0 else |Group(g, ws, ps, keys[fi])| + GroupSizes(g, ws, ps, keys, fi + 1)
  }

  /** How often x occurs among the keys from fi on. */
  function Occurrences(keys: seq<string>, fi: nat, x: string): nat
    requires fi <= |keys|
    decreases |keys| - fi
  {
    if fi == |keys| then 0 else (if keys[fi] == x then 1 else 0) + Occurrences(keys, fi + 1, x)
  }

  lemma {:induction false} EntriesLength<P>(g: Game<P>, ws: seq<Worker<P>>, ps: seq<nat>, keys: seq<string>, fi: nat)
    requires fi <= |keys| && forall k :: 0 <= k < |ps| ==> ps[k] < |ws|
    ensures |Entries(g, ws, ps, keys, fi)| == GroupSizes(g, ws, ps, keys, fi)
    decreases |keys| - fi
  {
    if fi < |keys| {
      EntriesLength(g, ws, ps, keys, fi + 1);
    }
  }

  /** Taking the first walker off the list takes one entry off the list of its FEN's key. */
  lemma {:induction false} GroupSizesTail<P>(g: Game<P>, ws: seq<Worker<P>>, ps: seq<nat>, keys: seq<string>, fi: nat)
    requires fi <= |keys| && |ps| > 0 && forall k :: 0 <= k < |ps| ==> ps[k] < |ws|
    ensures GroupSizes(g, ws, ps, keys, fi)
            == GroupSizes(g, ws, ps[1..], keys, fi) + Occurrences(keys, fi, g.fen(ws[ps[0]].board))
    decreases |keys| - fi
  {
    if fi < |keys| {
      GroupTail(g, ws, ps, keys[fi]);
      GroupSizesTail(g, ws, ps, keys, fi + 1);
    }
  }

  /** The first walker adds one to the size of its own FEN's group and nothing to the others. */
  lemma GroupTail<P>(g: Game<P>, ws: seq<Worker<P>>, ps: seq<nat>, f: string)
    requires |ps| > 0 && forall k :: 0 <= k < |ps| ==> ps[k] < |ws|
    ensures |Group(g, ws, ps, f)| == |Group(g, ws, ps[1..], f)| + (if g.fen(ws[ps[0]].board) == f then 1 else 0)
  {
  }

  /** A key of a strictly increasing list occurs in it once. */
  lemma {:induction false} OccursOnce(keys: seq<string>, fi: nat, x: string)
    requires StrictlyIncreasing(keys) && fi <= |keys|
    ensures Occurrences(keys, fi, x) == if x in keys[fi..] then 1 else 0
    decreases |keys| - fi
  {
    if fi < |keys| {
      OccursOnce(keys, fi + 1, x);
      assert keys[fi..] == [keys[fi]] + keys[fi + 1..];
      if keys[fi] == x && x in keys[fi + 1..] {
        var q :| 0 <= q < |keys[fi + 1..]| && keys[fi + 1..][q] == x;
        IncreasingDistinct(keys, fi, fi + 1 + q);
        assert false;
      }
    }
  }

  /** When every walker's FEN is a key, the entry lists together hold every walker once. */
  lemma {:induction false} GroupSizesCount<P>(g: Game<P>, ws: seq<Worker<P>>, ps: seq<nat>, keys: seq<string>)
    requires StrictlyIncreasing(keys) && forall k :: 0 <= k < |ps| ==> ps[k] < |ws|
    requires forall k :: 0 <= k < |ps| ==> g.fen(ws[ps[k]].board) in keys
    ensures GroupSizes(g, ws, ps, keys, 0) == |ps|
    decreases |ps|
  {
    if |ps| == 0 {
      GroupSizesEmpty(g, ws, ps, keys, 0);
    } else {
      GroupSizesTail(g, ws, ps, keys, 0);
      OccursOnce(keys, 0, g.fen(ws[ps[0]].board));
      assert keys[0..] == keys;
      GroupSizesCount(g, ws, ps[1..], keys);
    }
  }

  lemma {:induction false} GroupSizesEmpty<P>(g: Game<P>, ws: seq<Worker<P>>, ps: seq<nat>, keys: seq<string>, fi: nat)
    requires fi <= |keys| && |ps| == 0
    ensures GroupSizes(g, ws, ps, keys, fi) == 0
    decreases |keys| - fi
  {
    if fi < |keys| {
      GroupSizesEmpty(g, ws, ps, keys, fi + 1);
    }
  }

  /** The map's entry lists, in map order, hold every waiting walker exactly once between them. */
  lemma EntriesCount<P>(g: Game<P>, ws: seq<Worker<P>>, ps: seq<nat>)
    requires forall k :: 0 <= k < |ps| ==> ps[k] < |ws|
    ensures |Entries(g, ws, ps, MapKeys(Fens(g, ws, ps)), 0)| == |ps|
  {
    var fs := Fens(g, ws, ps);
    var keys := MapKeys(fs);
    assert forall k :: 0 <= k < |ps| ==> fs[k] in fs;
    EntriesLength(g, ws, ps, keys, 0);
    GroupSizesCount(g, ws, ps, keys);
  }

  /**
   * A flush completes one iteration per waiting walker, but no more than
   * remain: min(max(iterations - completed, 0), waiting walkers).
   */
  lemma FlushCompletes<P>(g: Game<P>, o: Options<P>, sqrt: int -> real, draw: nat -> real, iterations: int, root: P,
                          s: Batch<P>)
    requires Valid(s) && o.batchPriorFn.Some? && o.batchValueFn.Some?
    ensures Flush(g, o, sqrt, draw, iterations, root, s).completed
            == s.completed + Smaller(Larger(iterations - s.completed, 0), |Pending(s.workers, |s.workers|)|)
  {
    var ps := Pending(s.workers, |s.workers|);
    if |ps| > 0 {
      EntriesCount(g, s.workers, ps);
    }
  }

  // ---------------------------------------------------------------------------
  // Waiting walkers sit at leaves

  lemma StepParked<P>(g: Game<P>, o: Options<P>, sqrt: int -> real, rule: TerminalCount, iterations: int,
                      rootWhite: bool, root: P, i: nat, s: Batch<P>)
    requires Valid(s) && i < |s.workers| && Parked(s)
    ensures Parked(Step(g, o, sqrt, rule, iterations, rootWhite, root, i, s))
  {
    var r := Step(g, o, sqrt, rule, iterations, rootWhite, root, i, s);
    assert forall j :: 0 <= j < |s.workers| ==> r.tree[s.workers[j].node].count == s.tree[s.workers[j].node].count;
  }

  /**
   * After every round each waiting walker sits at a node without children
   * with moves to expand it, so the next flush expands every waiting node.
   * Within one group, a node already holding children is therefore one met
   * earlier in that group. Walkers at one node reached it by the same moves
   * from the root, so they share a board, a FEN and hence a group; that path
   * invariant is what makes "no children yet" match the per-group set, and
   * it is not proved here.
   */
  lemma RoundParked<P>(g: Game<P>, o: Options<P>, sqrt: int -> real, draw: nat -> real, rule: TerminalCount,
                       iterations: int, root: P, s: Batch<P>)
    requires Valid(s) && o.batchPriorFn.Some? && o.batchValueFn.Some?
    ensures var s1 := Flush(g, o, sqrt, draw, iterations, root, s);
            Parked(Advance(g, o, sqrt, rule, iterations, g.whiteToMove(root), root, 0, s1))
  {
    var s1 := Flush(g, o, sqrt, draw, iterations, root, s);
  }

  // ---------------------------------------------------------------------------
  // A root without legal moves

  /**
   * The batch search from a root without legal moves: the root has no
   * children, every walker is at the root, and while iterations remain every
   * walker runs on the root position.
   */
  ghost predicate RootStuck<P>(root: P, iterations: int, s: Batch<P>)
    requires Valid(s)
  {
    && s.tree[0].count == 0
    && forall i :: 0 <= i < |s.workers| ==>
         s.workers[i].node == 0 && (s.completed < iterations ==> !s.workers[i].waiting && s.workers[i].board == root)
  }

  /** A step never leaves the stuck root: no walker can wait there while iterations remain, so none expands it. */
  lemma StepStuck<P>(g: Game<P>, o: Options<P>, sqrt: int -> real, rule: TerminalCount, iterations: int,
                     rootWhite: bool, root: P, i: nat, s: Batch<P>)
    requires Valid(s) && i < |s.workers| && |g.generate(root).0| == 0 && RootStuck(root, iterations, s)
    ensures RootStuck(root, iterations, Step(g, o, sqrt, rule, iterations, rootWhite, root, i, s))
  {
    var r := Step(g, o, sqrt, rule, iterations, rootWhite, root, i, s);
    var w := s.workers[i];
    assert s.tree[w.node].count == 0;
    if r.completed < iterations && !w.waiting {
      assert w.board == root;
    }
  }

  lemma {:induction false} AdvanceStuck<P>(g: Game<P>, o: Options<P>, sqrt: int -> real, rule: TerminalCount,
                                           iterations: int, rootWhite: bool, root: P, i: nat, s: Batch<P>)
    requires Valid(s) && i <= |s.workers| && |g.generate(root).0| == 0 && RootStuck(root, iterations, s)
    ensures RootStuck(root, iterations, Advance(g, o, sqrt, rule, iterations, rootWhite, root, i, s))
    decreases |s.workers| - i
  {
    if i < |s.workers| {
      StepStuck(g, o, sqrt, rule, iterations, rootWhite, root, i, s);
      AdvanceStuck(g, o, sqrt, rule, iterations, rootWhite, root, i + 1, Step(g, o, sqrt, rule, iterations, rootWhite, root, i, s));
    }
  }

  /** Without a waiting walker the flush changes nothing. */
  lemma FlushIdle<P>(g: Game<P>, o: Options<P>, sqrt: int -> real, draw: nat -> real, iterations: int, root: P, s: Batch<P>)
    requires Valid(s) && o.batchPriorFn.Some? && o.batchValueFn.Some?
    requires forall i :: 0 <= i < |s.workers| ==> !s.workers[i].waiting
    ensures Flush(g, o, sqrt, draw, iterations, root, s) == s
  {
    PendingNone(s.workers, |s.workers|);
  }

  /** No waiting walker among the first n means nothing is pending. */
  lemma {:induction false} PendingNone<P>(ws: seq<Worker<P>>, n: nat)
    requires n <= |ws| && forall i :: 0 <= i < n ==> !ws[i].waiting
    ensures Pending(ws, n) == []
  {
    if n > 0 {
      PendingNone(ws, n - 1);
    }
  }

  /** One round from the stuck root stays there: the flush finds no waiting walker. */
  lemma RoundStuck<P>(g: Game<P>, o: Options<P>, sqrt: int -> real, draw: nat -> real,
                      rule: TerminalCount, iterations: int, root: P, s: Batch<P>)
    requires Valid(s) && o.batchPriorFn.Some? && o.batchValueFn.Some?
    requires |g.generate(root).0| == 0 && RootStuck(root, iterations, s) && s.completed < iterations
    ensures RootStuck(root, iterations, Advance(g, o, sqrt, rule, iterations, g.whiteToMove(root), root, 0,
                                                Flush(g, o, sqrt, draw, iterations, root, s)))
  {
    FlushIdle(g, o, sqrt, draw, iterations, root, s);
    AdvanceStuck(g, o, sqrt, rule, iterations, g.whiteToMove(root), root, 0, s);
  }

  /** A root without legal moves is never expanded: the batch search lists no root children. */
  lemma RunBatchNoMoves<P>(g: Game<P>, o: Options<P>, sqrt: int -> real, draw: nat -> real, rule: TerminalCount,
                           root: P, iterations: int, fuel: nat)
    requires o.batchPriorFn.Some? && o.batchValueFn.Some? && |g.generate(root).0| == 0
    ensures var r := RunBatch(g, o, sqrt, draw, rule, root, iterations, fuel);
            r.Some? ==> r.value.visits == []
  {
    var s := Start(root, WorkerCount(o.batchSize));
    assert RootStuck(root, iterations, s);
  }

  // ---------------------------------------------------------------------------
  // Terminals found while advancing

  /** A game with one position, no legal moves and a drawn result. */
  function Stalemate(): Game<int> {
    Game(b => ([], b), b => Draw, (b, m) => b, b => true, b => "")
  }

  function TwoWalkers(): Options<int> {
    Options(None, None, Some((fs, us) => []), Some(fs => []), 2, 1.0, 0.0, 0.25)
  }

  /**
   * As written, one requested iteration with two walkers and a root without
   * moves visits the root twice: both walkers find the terminal in the
   * first advance, and both are counted.
   */
  lemma TerminalsOvercount(sqrt: int -> real, draw: nat -> real)
    ensures RunBatch(Stalemate(), TwoWalkers(), sqrt, draw, Uncapped, 0, 1, 1) == Some(SearchResult([], 0.0, 2))
  {
    var g, o := Stalemate(), TwoWalkers();
    var s := Start(0, 2);
    var v := ResultToValue(Draw, true);
    assert Pending(s.workers, 2) == [];
    var s1 := Flush(g, o, sqrt, draw, 1, 0, s);
    assert s1 == s;
    var a := Step(g, o, sqrt, Uncapped, 1, true, 0, 0, s1);
    assert a.completed == 1 && a.tree == Backup(s.tree, 0, v, true, true);
    var b := Step(g, o, sqrt, Uncapped, 1, true, 0, 1, a);
    assert b.completed == 2 && b.tree[0].n == 2 && b.tree[0].count == 0;
    assert Advance(g, o, sqrt, Uncapped, 1, true, 0, 0, s1) == b;
  }

  /** The corrected count stops at the one requested iteration. */
  lemma TerminalsCapped(sqrt: int -> real, draw: nat -> real)
    ensures RunBatch(Stalemate(), TwoWalkers(), sqrt, draw, Capped, 0, 1, 1) == Some(SearchResult([], 0.0, 1))
  {
    var g, o := Stalemate(), TwoWalkers();
    var s := Start(0, 2);
    var v := ResultToValue(Draw, true);
    assert Pending(s.workers, 2) == [];
    var s1 := Flush(g, o, sqrt, draw, 1, 0, s);
    assert s1 == s;
    var a := Step(g, o, sqrt, Capped, 1, true, 0, 0, s1);
    assert a.completed == 1 && a.tree == Backup(s.tree, 0, v, true, true);
    var b := Step(g, o, sqrt, Capped, 1, true, 0, 1, a);
    assert b.completed == 1 && b.tree == a.tree && b.tree[0].n == 1 && b.tree[0].count == 0;
    assert Advance(g, o, sqrt, Capped, 1, true, 0, 0, s1) == b;
  }
}
