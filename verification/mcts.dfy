/**
 * RunMCTS and GetBestMoveMCTS (src/mcts.cpp): the choice between the batch
 * search and the one-walker search, the most-visited root move, and the
 * chess game the search is given — the move generator, the result reader,
 * MakeMove, the side to move and GetFen of the board model.
 */
module Mcts {
  import opened Pieces
  import opened SearchTree
  import opened SearchSetup
  import opened SyncSearch
  import opened BatchSearch
  import Zobrist
  import Position
  import MakeUnmake
  import Fen
  import MoveGen

  /** Both batch evaluators are set. */
  predicate BatchMode<P>(o: Options<P>) {
    o.batchPriorFn.Some? && o.batchValueFn.Some?
  }

  /**
   * RunMCTS: no iterations give the empty result; with both batch
   * evaluators the batch search runs (None when its rounds run out),
   * otherwise the one-walker search.
   */
  function RunMCTS<P>(g: Game<P>, o: Options<P>, sqrt: int -> real, draw: nat -> real, playout: (nat, P) -> GameResult,
                      rule: TerminalCount, root: P, iterations: int, fuel: nat): (r: Option<SearchResult>)
    ensures iterations <= 0 ==> r == Some(EmptyResult())
    ensures !BatchMode(o) ==> r.Some? && r.value.rootVisits <= Larger(iterations, 0)
    ensures r.Some? && BatchMode(o) ==> iterations <= r.value.rootVisits <= Larger(0, iterations + WorkerCount(o.batchSize))
  {
    if iterations <= 0 then Some(EmptyResult())
    else if BatchMode(o) then RunBatch(g, o, sqrt, draw, rule, root, iterations, fuel)
    else Some(RunSync(g, o, sqrt, draw, playout, root, iterations))
  }

  /**
   * The root is visited once per requested iteration: without batch
   * evaluators under sound options, and with them under the corrected
   * terminal count once the rounds finish.
   */
  lemma RunMctsExact<P(!new)>(g: Game<P>, o: Options<P>, sqrt: int -> real, draw: nat -> real,
                              playout: (nat, P) -> GameResult, rule: TerminalCount, root: P, iterations: int, fuel: nat)
    requires iterations > 0
    requires if BatchMode(o) then rule == Capped else Sound(o, sqrt)
    ensures var r := RunMCTS(g, o, sqrt, draw, playout, rule, root, iterations, fuel);
            r.Some? ==> r.value.rootVisits == iterations
  {
    if !BatchMode(o) {
      RunSyncExact(g, o, sqrt, draw, playout, root, iterations);
    }
  }

  /** The options' defaults select the one-walker search, with uniform priors and random playouts. */
  lemma DefaultsRunSync<P>(g: Game<P>, sqrt: int -> real, draw: nat -> real, playout: (nat, P) -> GameResult,
                           rule: TerminalCount, root: P, iterations: int, fuel: nat)
    ensures RunMCTS(g, DefaultOptions(), sqrt, draw, playout, rule, root, iterations, fuel)
            == Some(RunSync(g, DefaultOptions(), sqrt, draw, playout, root, iterations))
  {
  }

  // ---------------------------------------------------------------------------
  // The most visited move

  /** The scan of GetBestMoveMCTS from entry k on: an entry replaces the best so far only with strictly more visits. */
  function ScanVisits(vs: seq<(Move, nat)>, k: nat, best: nat): (r: nat)
    requires best < |vs| && best < k <= |vs|
    ensures r == best || k <= r < |vs|
    ensures vs[r].1 >= vs[best].1 && forall j :: k <= j < |vs| ==> vs[j].1 <= vs[r].1
    ensures r != best ==> vs[r].1 > vs[best].1 && forall j :: k <= j < r ==> vs[j].1 < vs[r].1
    decreases |vs| - k
  {
    if k == |vs| then best
    else if vs[k].1 > vs[best].1 then ScanVisits(vs, k + 1, k)
    else ScanVisits(vs, k + 1, best)
  }

  /** The position of the first entry with the most visits. */
  function MostVisited(vs: seq<(Move, nat)>): (r: nat)
    requires |vs| > 0
    ensures r < |vs|
    ensures forall j :: 0 <= j < |vs| ==> vs[j].1 <= vs[r].1
    ensures forall j :: 0 <= j < r ==> vs[j].1 < vs[r].1
  {
    if |vs| == 1 then 0 else ScanVisits(vs, 1, 0)
  }

  /** The move GetBestMoveMCTS picks from a visit list: the first most visited, or the default move when there is none. */
  function BestMove(vs: seq<(Move, nat)>): (m: Move)
    ensures vs == [] ==> m == DefaultMove
    ensures vs != [] ==>
      exists k :: 0 <= k < |vs| && m == vs[k].0
        && (forall j :: 0 <= j < |vs| ==> vs[j].1 <= vs[k].1) && (forall j :: 0 <= j < k ==> vs[j].1 < vs[k].1)
  {
    if vs == [] then DefaultMove
    else
      var k := MostVisited(vs);
      vs[k].0
  }

  /** GetBestMoveMCTS: a search, then its most visited root move. */
  function GetBestMoveMCTS<P>(g: Game<P>, o: Options<P>, sqrt: int -> real, draw: nat -> real,
                              playout: (nat, P) -> GameResult, rule: TerminalCount, root: P, iterations: int,
                              fuel: nat): (m: Option<Move>)
    ensures iterations <= 0 ==> m == Some(DefaultMove)
    ensures !BatchMode(o) ==> m.Some?
  {
    var r := RunMCTS(g, o, sqrt, draw, playout, rule, root, iterations, fuel);
    if r.None? then None else Some(BestMove(r.value.visits))
  }

  /**
   * A root without legal moves has no move to offer: the default move comes
   * back, in either mode; only the batch search's rounds running out give None.
   */
  lemma NoMovesGiveDefault<P>(g: Game<P>, o: Options<P>, sqrt: int -> real, draw: nat -> real,
                              playout: (nat, P) -> GameResult, rule: TerminalCount, root: P, iterations: int, fuel: nat)
    requires |g.generate(root).0| == 0
    ensures var m := GetBestMoveMCTS(g, o, sqrt, draw, playout, rule, root, iterations, fuel);
            m.Some? ==> m.value == DefaultMove
    ensures !BatchMode(o) ==> GetBestMoveMCTS(g, o, sqrt, draw, playout, rule, root, iterations, fuel) == Some(DefaultMove)
  {
    if iterations > 0 {
      if BatchMode(o) {
        RunBatchNoMoves(g, o, sqrt, draw, rule, root, iterations, fuel);
      } else {
        RunSyncTerminalRoot(g, o, sqrt, draw, playout, root, iterations);
      }
    }
  }

  // ---------------------------------------------------------------------------
  // The chess game

  /** MakeMove where it is defined; the search only plays generated moves, where it always is. */
  function Play(k: Zobrist.KeyTable, b: Position.Board, m: Move): Position.Board {
    if MakeUnmake.MakeDefined(b, m) then MakeUnmake.MakeMove(k, b, m) else b
  }

  /**
   * The calls the search makes on a chess board, under the given
   * move-generation rules: a position is unfinished exactly when it has legal
   * moves, and MakeMove is defined on every move generated, so Play is
   * MakeMove there.
   */
  function ChessGame(k: Zobrist.KeyTable, rules: MoveGen.Rules): (g: Game<Position.Board>)
    ensures forall b :: g.result(b) == Ongoing <==> |g.generate(b).0| > 0
    ensures forall b, m :: m in g.generate(b).0 ==> MakeUnmake.MakeDefined(g.generate(b).1, m)
  {
    PlayAllGenerated(k, rules);
    Game((b: Position.Board) => MoveGen.GenerateLegalMoves(k, b, rules),
         (b: Position.Board) => MoveGen.GetGameResult(k, b, rules).0,
         (b: Position.Board, m: Move) => Play(k, b, m),
         (b: Position.Board) => b.whiteToMove,
         (b: Position.Board) => Fen.GetFen(b))
  }

  lemma PlayAllGenerated(k: Zobrist.KeyTable, rules: MoveGen.Rules)
    ensures forall b, m :: m in MoveGen.GenerateLegalMoves(k, b, rules).0 ==>
              MakeUnmake.MakeDefined(MoveGen.GenerateLegalMoves(k, b, rules).1, m)
  {
    forall b, m | m in MoveGen.GenerateLegalMoves(k, b, rules).0
      ensures MakeUnmake.MakeDefined(MoveGen.GenerateLegalMoves(k, b, rules).1, m)
    {
      PlayGenerated(k, rules, b, m);
    }
  }

  /** A move the chess game generates is played by MakeMove on the board the generator leaves. */
  lemma PlayGenerated(k: Zobrist.KeyTable, rules: MoveGen.Rules, b: Position.Board, m: Move)
    requires m in MoveGen.GenerateLegalMoves(k, b, rules).0
    ensures var after := MoveGen.GenerateLegalMoves(k, b, rules).1;
            MakeUnmake.MakeDefined(after, m) && Play(k, after, m) == MakeUnmake.MakeMove(k, after, m)
  {
    var gen := MoveGen.GenerateLegalMoves(k, b, rules);
    MoveGen.PseudoLegalGenerated(b, rules);
    assert MoveGen.Generated(m, gen.1.whiteToMove);
    MoveGen.GeneratedDefined(gen.1, m);
  }
}
