/**
 * The Python-facing logic of src/python_bindings.cpp: finding a legal move
 * by its UCI text, the Board wrapper that remembers one pushed move for a
 * single pop, the result codes, and how run_mcts turns its arguments into
 * search options. The C++ exceptions are values: std::invalid_argument and
 * std::runtime_error with their messages.
 */
module Bindings {
  import opened Pieces
  import opened Zobrist
  import opened Position
  import opened MakeUnmake
  import opened Fen
  import opened MoveGen
  import SearchTree
  import opened SearchSetup
  import BatchSearch
  import Mcts

  /** The exceptions the binding throws. */
  datatype Exception = InvalidArgument(message: string) | RuntimeError(message: string)

  /** How a call ends: normally, or with an exception. */
  datatype Status = Done | Raised(error: Exception)

  /** The position of the first move whose UCI text is uci, or -1 when none has it. */
  function FirstMatch(moves: seq<Move>, uci: string): (i: int)
    ensures -1 <= i < |moves|
    ensures i == -1 <==> forall j :: 0 <= j < |moves| ==> MoveToUci(moves[j]) != uci
    ensures i >= 0 ==> MoveToUci(moves[i]) == uci && forall j :: 0 <= j < i ==> MoveToUci(moves[j]) != uci
  {
    if |moves| == 0 then -1
    else if MoveToUci(moves[0]) == uci then 0
    else
      var i := FirstMatch(moves[1..], uci);
      if i < 0 then -1 else i + 1
  }

  /** find_move_from_uci: the first move with the text, else std::invalid_argument naming the text. */
  function FindMove(moves: seq<Move>, uci: string): (r: (Status, Move))
    ensures r.0 == Done <==> exists j :: 0 <= j < |moves| && MoveToUci(moves[j]) == uci
    ensures r.0 == Done ==> r.1 == moves[FirstMatch(moves, uci)] && MoveToUci(r.1) == uci
    ensures r.0 != Done ==> r.0 == Raised(InvalidArgument("move not legal: " + uci))
  {
    var i := FirstMatch(moves, uci);
    if i < 0 then (Raised(InvalidArgument("move not legal: " + uci)), DefaultMove) else (Done, moves[i])
  }

  // ---------------------------------------------------------------------------
  // The Board wrapper

  /** BoardWrapper: the board, the last pushed move, and whether it can still be popped. */
  datatype Wrapper = Wrapper(board: Board, last: Move, hasLast: bool)

  /**
   * What every wrapper reachable through these calls satisfies: a move that
   * can be popped has its undo record on the board and was generated for
   * the side that made it.
   */
  predicate Undoable(w: Wrapper) {
    w.hasLast ==> |w.board.undo| > 0 && Generated(w.last, !w.board.whiteToMove)
  }

  /** The constructor: the starting position, or the FEN when one is given; nothing to pop. */
  function NewWrapper(k: KeyTable, fen: SearchTree.Option<string>): (w: Wrapper)
    ensures Undoable(w) && !w.hasLast
    ensures fen.None? ==> w.board == StartBoard(k)
    ensures fen.Some? ==> w.board == SetFromFen(k, fen.value)
  {
    var w := Wrapper(StartBoard(k), DefaultMove, false);
    if fen.Some? then SetFen(k, w, fen.value) else w
  }

  /** set_fen: the board read from the text; the pushed move is forgotten. */
  function SetFen(k: KeyTable, w: Wrapper, fen: string): (r: Wrapper)
    ensures Undoable(r) && !r.hasLast && r.board == SetFromFen(k, fen)
  {
    Wrapper(SetFromFen(k, fen), w.last, false)
  }

  /** legal_moves: the legal moves' texts; the board is the one the generator leaves. */
  function LegalMoves(k: KeyTable, rules: Rules, w: Wrapper): (r: (seq<string>, Wrapper))
    requires Undoable(w)
    ensures Undoable(r.1) && r.1.last == w.last && r.1.hasLast == w.hasLast
    ensures r.0 == MovesToUci(GenerateLegalMoves(k, w.board, rules).0)
  {
    var gen := GenerateLegalMoves(k, w.board, rules);
    (MovesToUci(gen.0), w.(board := gen.1))
  }

  /**
   * push: the legal move with the text is made and remembered; with no such
   * move, std::invalid_argument, and the remembered move stays as it was.
   */
  function Push(k: KeyTable, rules: Rules, w: Wrapper, uci: string): (r: (Status, Wrapper))
    requires Undoable(w)
    ensures Undoable(r.1)
    ensures r.0 == Done <==> exists j :: 0 <= j < |GenerateLegalMoves(k, w.board, rules).0|
                                           && MoveToUci(GenerateLegalMoves(k, w.board, rules).0[j]) == uci
    ensures r.0 == Done ==> r.1.hasLast && MoveToUci(r.1.last) == uci && r.1.last in GenerateLegalMoves(k, w.board, rules).0
    ensures r.0 != Done ==> r.0 == Raised(InvalidArgument("move not legal: " + uci))
                            && r.1.last == w.last && r.1.hasLast == w.hasLast
  {
    var gen := GenerateLegalMoves(k, w.board, rules);
    var found := FindMove(gen.0, uci);
    if found.0 != Done then (found.0, w.(board := gen.1))
    else
      var m := found.1;
      PseudoLegalGenerated(w.board, rules);
      GeneratedDefined(gen.1, m);
      (Done, Wrapper(MakeMove(k, gen.1, m), m, true))
  }

  /** pop: std::runtime_error when nothing can be popped; otherwise the remembered move is unmade and forgotten. */
  function Pop(k: KeyTable, rules: Rules, w: Wrapper): (r: (Status, Wrapper))
    requires Undoable(w)
    ensures Undoable(r.1) && !r.1.hasLast
    ensures r.0 == Done <==> w.hasLast
    ensures !w.hasLast ==> r == (Raised(RuntimeError("no move to undo")), w)
  {
    if !w.hasLast then (Raised(RuntimeError("no move to undo")), w)
    else (Done, Wrapper(Unmake(k, w.board, w.last, rules), w.last, false))
  }

  /** result: the game result's code; the board is the one the generator leaves. */
  function Result(k: KeyTable, rules: Rules, w: Wrapper): (r: (int, Wrapper))
    requires Undoable(w)
    ensures Undoable(r.1) && r.1.last == w.last && r.1.hasLast == w.hasLast
    ensures r.0 in {1, -1, 0, 2}
    ensures r.0 == 2 <==> |GenerateLegalMoves(k, w.board, rules).0| > 0
  {
    var res := GetGameResult(k, w.board, rules);
    OngoingCode(GenerateLegalMoves(k, w.board, rules).0, res.1);
    (ResultCode(res.0), w.(board := res.1))
  }

  /** The code is 2 exactly while a legal move exists. */
  lemma OngoingCode(moves: seq<Move>, after: Board)
    ensures ResultCode(Outcome(moves, after)) in {1, -1, 0, 2}
    ensures ResultCode(Outcome(moves, after)) == 2 <==> |moves| > 0
  {
  }

  /** white_to_move, fen and get_zobrist_hash read the board. */
  function WhiteToMove(w: Wrapper): bool {
    w.board.whiteToMove
  }

  function FenOf(w: Wrapper): string {
    GetFen(w.board)
  }

  function ZobristHash(w: Wrapper): Hash {
    w.board.hash
  }

  // ---------------------------------------------------------------------------
  // What the calls promise together

  /** On a consistent board under the corrected rules, a push that succeeds is undone by the next pop. */
  lemma PushPopRoundTrip(k: KeyTable, w: Wrapper, uci: string)
    requires Undoable(w) && Consistent(w.board) && Push(k, Corrected, w, uci).0 == Done
    ensures var p := Pop(k, Corrected, Push(k, Corrected, w, uci).1);
            p.0 == Done && p.1.board == w.board && !p.1.hasLast
  {
    var b := w.board;
    var m := Push(k, Corrected, w, uci).1.last;
    LegalMovesExact(k, b, m);
    PseudoLegalFits(b, Corrected, m);
    FixedRoundTrip(k, b, m);
  }

  /** A pop that succeeds leaves nothing to pop: the next pop raises and changes nothing. */
  lemma PopTwice(k: KeyTable, rules: Rules, w: Wrapper)
    requires Undoable(w) && Pop(k, rules, w).0 == Done
    ensures var p := Pop(k, rules, w).1;
            Pop(k, rules, p) == (Raised(RuntimeError("no move to undo")), p)
  {
  }

  /** set_fen leaves nothing to pop. */
  lemma PopAfterSetFen(k: KeyTable, rules: Rules, w: Wrapper, fen: string)
    ensures var s := SetFen(k, w, fen);
            Pop(k, rules, s) == (Raised(RuntimeError("no move to undo")), s)
  {
  }

  /** On a consistent board under the corrected rules, a push of a text no legal move has changes nothing. */
  lemma FailedPushKeeps(k: KeyTable, w: Wrapper, uci: string)
    requires Undoable(w) && Consistent(w.board)
    requires forall m <- GenerateLegalMoves(k, w.board, Corrected).0 :: MoveToUci(m) != uci
    ensures Push(k, Corrected, w, uci) == (Raised(InvalidArgument("move not legal: " + uci)), w)
  {
    LegalMovesExact(k, w.board, DefaultMove);
  }

  /** The text fen() returns reads back, through set_fen, as the same board with a fresh hash and no undo records. */
  lemma FenReadsBack(k: KeyTable, w: Wrapper)
    requires Position.WellFormed(w.board.bits)
    ensures SetFen(k, w, FenOf(w)).board == w.board.(hash := ComputeHash(k, w.board), undo := [])
  {
    FenRoundTrip(k, w.board);
  }

  // ---------------------------------------------------------------------------
  // run_mcts

  /** The Python callables run_mcts is given; each is absent when it is None or not callable. */
  datatype Callables = Callables(
    prior: SearchTree.Option<(string, seq<string>) -> seq<real>>,
    value: SearchTree.Option<string -> real>,
    batchEval: bool,
    batchPrior: SearchTree.Option<(seq<string>, seq<seq<string>>) -> seq<seq<real>>>,
    batchValue: SearchTree.Option<seq<string> -> seq<real>>)

  /** Split batch mode: both batch_prior and batch_value are callable. */
  predicate SplitBatch(c: Callables) {
    c.batchPrior.Some? && c.batchValue.Some?
  }

  /** Some batch callable is in use, so the per-position callables are not installed. */
  predicate UsesBatch(c: Callables) {
    c.batchEval || SplitBatch(c)
  }

  /**
   * The options run_mcts builds: batch_size clamped to [1, 1024], the noise
   * parameters as given, the split batch evaluators when batch_eval is not
   * callable, and the per-position evaluators on FEN and UCI texts when no
   * batch callable is in use.
   */
  function RunMctsOptions(c: Callables, batchSize: int, alpha: real, epsilon: real): (o: Options<Board>)
    ensures 1 <= o.batchSize <= BatchSearch.MaxWorkers && (1 <= batchSize <= BatchSearch.MaxWorkers ==> o.batchSize == batchSize)
    ensures o.cPuct == DefaultOptions<Board>().cPuct && o.dirichletAlpha == alpha && o.dirichletEpsilon == epsilon
    ensures Mcts.BatchMode(o) <==> !c.batchEval && SplitBatch(c)
    ensures o.priorFn.Some? <==> !UsesBatch(c) && c.prior.Some?
    ensures o.valueFn.Some? <==> !UsesBatch(c) && c.value.Some?
    ensures o.priorFn.Some? ==> forall b, ms :: o.priorFn.value(b, ms) == c.prior.value(GetFen(b), MovesToUci(ms))
    ensures o.valueFn.Some? ==> forall b :: o.valueFn.value(b) == c.value.value(GetFen(b))
  {
    var split := !c.batchEval && SplitBatch(c);
    var prior := if !UsesBatch(c) && c.prior.Some?
      then SearchTree.Some((b: Board, ms: seq<Move>) => c.prior.value(GetFen(b), MovesToUci(ms)))
      else SearchTree.None;
    var value := if !UsesBatch(c) && c.value.Some?
      then SearchTree.Some((b: Board) => c.value.value(GetFen(b)))
      else SearchTree.None;
    Options(prior, value,
            if split then c.batchPrior else SearchTree.None,
            if split then c.batchValue else SearchTree.None,
            BatchSearch.WorkerCount(batchSize), DefaultOptions<Board>().cPuct, alpha, epsilon)
  }

  /** The tuple run_mcts returns: the root moves' texts, their visit counts, the root value and the root visits. */
  datatype Reply = Reply(ucis: seq<string>, visits: seq<nat>, rootValue: real, rootVisits: nat)

  /** The search result as run_mcts hands it back. */
  function ReplyOf(res: SearchResult): (r: Reply)
    ensures |r.ucis| == |res.visits| == |r.visits|
    ensures forall i :: 0 <= i < |res.visits| ==> r.ucis[i] == MoveToUci(res.visits[i].0) && r.visits[i] == res.visits[i].1
    ensures r.rootValue == res.rootValue && r.rootVisits == res.rootVisits
  {
    Reply(MovesToUci(seq(|res.visits|, i requires 0 <= i < |res.visits| => res.visits[i].0)),
          seq(|res.visits|, i requires 0 <= i < |res.visits| => res.visits[i].1),
          res.rootValue, res.rootVisits)
  }

  /** run_mcts on the wrapper's board; the random generator is the draws and playouts, and the board is left as it was. */
  function RunMcts(k: KeyTable, rules: Rules, w: Wrapper, iterations: int, c: Callables, batchSize: int,
                   alpha: real, epsilon: real, sqrt: int -> real, draw: nat -> real, playout: (nat, Board) -> GameResult,
                   rule: BatchSearch.TerminalCount, fuel: nat): (r: SearchTree.Option<Reply>)
    ensures iterations <= 0 ==> r == SearchTree.Some(Reply([], [], 0.0, 0))
    ensures !SplitBatch(c) || c.batchEval ==> r.Some?
  {
    var o := RunMctsOptions(c, batchSize, alpha, epsilon);
    var res := Mcts.RunMCTS(Mcts.ChessGame(k, rules), o, sqrt, draw, playout, rule, w.board, iterations, fuel);
    EmptyReply();
    if res.None? then SearchTree.None else SearchTree.Some(ReplyOf(res.value))
  }

  /** The search that does not run hands back empty lists and zeros. */
  lemma EmptyReply()
    ensures ReplyOf(EmptyResult()) == Reply([], [], 0.0, 0)
  {
  }
}
