/**
 * What the search of src/mcts.cpp is given and what it returns: the game it
 * searches (include/mcts.hpp takes a chess Board; here the position type is
 * a parameter, and the chess instance is in module Mcts), the MCTSOptions
 * record, and the MCTSResult read off the finished tree.
 */
module SearchSetup {
  import opened Pieces
  import opened SearchTree

  /**
   * The calls the search makes on a position: GenerateLegalMoves, which also
   * hands back the position it leaves behind; GetGameResult; MakeMove;
   * GetWhiteToMove; GetFen.
   */
  datatype Game<!P> = Game(
    generate: P -> (seq<Move>, P),
    result: P -> GameResult,
    play: (P, Move) -> P,
    whiteToMove: P -> bool,
    fen: P -> string)

  /** MCTSOptions: the optional evaluators, an empty std::function being None. */
  datatype Options<!P> = Options(
    priorFn: Option<(P, seq<Move>) -> seq<real>>,
    valueFn: Option<P -> real>,
    batchPriorFn: Option<(seq<string>, seq<seq<string>>) -> seq<seq<real>>>,
    batchValueFn: Option<seq<string> -> seq<real>>,
    batchSize: int,
    cPuct: real,
    dirichletAlpha: real,
    dirichletEpsilon: real)

  /** The member initialisers of MCTSOptions. */
  function DefaultOptions<P>(): (o: Options<P>)
    ensures o.priorFn.None? && o.valueFn.None? && o.batchPriorFn.None? && o.batchValueFn.None?
    ensures o.batchSize == 32 && o.dirichletAlpha == 0.0 && o.dirichletEpsilon == 0.25
    ensures 1.414 < o.cPuct < 1.415
  {
    Options(None, None, None, None, 32, 1.4142135623730950488, 0.0, 0.25)
  }

  /** MCTSResult: the root's children with their visit counts, W / N of the root, and N of the root. */
  datatype SearchResult = SearchResult(visits: seq<(Move, nat)>, rootValue: real, rootVisits: nat)

  /** The result of a search that does not run. */
  function EmptyResult(): SearchResult {
    SearchResult([], 0.0, 0)
  }

  /** The result read off a finished tree: children in creation order, and 0 as the value of an unvisited root. */
  function Report(t: Tree): (r: SearchResult)
    requires WellFormed(t)
    ensures |r.visits| == t[0].count && r.rootVisits == t[0].n
    ensures forall k :: 0 <= k < t[0].count ==> r.visits[k] == (t[t[0].first + k].move, t[t[0].first + k].n)
    ensures ValuesBounded(t) ==> -1.0 <= r.rootValue <= 1.0
    ensures t[0].n == 0 ==> r.rootValue == 0.0
  {
    var root := t[0];
    var value := if root.n > 0 then root.w / root.n as real else 0.0;
    MeanBounded(root.w, root.n as real, ValuesBounded(t));
    SearchResult(seq(root.count, k requires 0 <= k < root.count => (t[root.first + k].move, t[root.first + k].n)),
                 value, root.n)
  }

  lemma MeanBounded(w: real, n: real, bounded: bool)
    requires bounded ==> -n <= w <= n
    ensures bounded && n > 0.0 ==> -1.0 <= w / n <= 1.0
  {
    if bounded && n > 0.0 {
      assert w / n * n == w;
    }
  }

  /** The visit counts the result lists, summed. */
  function VisitTotal(vs: seq<(Move, nat)>): nat {
    if |vs| == 0 then 0 else vs[0].1 + VisitTotal(vs[1..])
  }

  /** The listed visits add up to the visits of the root's children. */
  lemma {:induction false} ReportVisitTotal(t: Tree)
    requires WellFormed(t)
    ensures VisitTotal(Report(t).visits) == RootChildVisits(t)
  {
    var vs := Report(t).visits;
    var f := t[0].first;
    ReportVisitTotalFrom(t, vs, f, f + t[0].count, 0);
  }

  lemma {:induction false} ReportVisitTotalFrom(t: Tree, vs: seq<(Move, nat)>, f: nat, hi: nat, k: nat)
    requires f + k <= hi <= |t| && |vs| == hi - f
    requires forall j :: 0 <= j < |vs| ==> vs[j].1 == t[f + j].n
    ensures VisitTotal(vs[k..]) == VisitSum(t, f + k, hi)
    decreases hi - f - k
  {
    if f + k < hi {
      ReportVisitTotalFrom(t, vs, f, hi, k + 1);
      assert vs[k..][1..] == vs[k + 1..];
    } else {
      assert vs[k..] == [];
    }
  }

  /** Every evaluator value of the position evaluator lies in [-1, 1]. */
  ghost predicate ValueInRange<P(!new)>(f: Option<P -> real>) {
    f.Some? ==> forall b :: -1.0 <= f.value(b) <= 1.0
  }

  /**
   * The conditions under which every selection finds a child: c_puct >= 0,
   * a square root that is never negative, a Dirichlet mix that keeps the
   * priors positive, and evaluator values in [-1, 1].
   */
  ghost predicate Sound<P(!new)>(o: Options<P>, sqrt: int -> real) {
    && o.cPuct >= 0.0
    && (forall k :: sqrt(k) >= 0.0)
    && (o.dirichletAlpha <= 0.0 || 0.0 <= o.dirichletEpsilon <= 1.0)
    && ValueInRange(o.valueFn)
  }
}
