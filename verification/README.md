# bitboard-chess-cpp in Dafny

A model of the chess engine's core, with proofs:

- the board and rules kernel: twelve piece bitboards, side to move, the 4-bit castling mask, the en-passant square, the halfmove clock, the undo stack and the incremental Zobrist hash, together with `MakeMove`/`UnmakeMove`, FEN read and write, and square names;
- move generation: the precomputed king, knight, pawn and sliding tables, ray casting that stops at blockers, the pseudo-legal generator, the make/in-check/unmake filter, the sort, and the game-result classifier;
- the MCTS statistics engine: expansion, prior normalisation, PUCT selection of the first best child, and signed backup. There is a one-walker (sync) search and a batched search that uses virtual loss, groups waiting leaves by FEN and caps flush completions at the iteration budget;
- the Python binding logic: `move_to_uci`, `find_move_from_uci`, the `BoardWrapper` push/pop/set_fen/result state machine, and the options `run_mcts` builds.

Modules, bottom up:

- `Text` holds the C-locale character classes, decimal text and the stream tokenizer.
- `Squares` holds square arithmetic and `SquareToStr`/`StrToSquare`.
- `Pieces` holds the piece and result codes, `Move` and the UCI text.
- `Zobrist` holds the key tables, the masked lookups and `Init`.
- `Position` holds the board, the occupancy queries, the hash and the start position.
- `Fen` holds `GetFen` and `SetFromFen`.
- `Tables` holds the move tables and the sliding rays.
- `Attacks` holds `IsSquareAttacked` and `IsInCheck`.
- `MakeUnmake` holds `MakeMove` and `UnmakeMove`.
- `MoveOrder` holds the move comparator and the sort.
- `MoveGen` holds the generator, the legality filter and `GetGameResult`.
- `SearchTree` holds the node arena, normalisation, Dirichlet mixing, selection and backup.
- `SearchSetup` holds the options, the result and the game interface.
- `SyncSearch` holds the one-walker `RunMCTS`.
- `FenOrder` holds the order of the keys of a `std::map` keyed by FEN.
- `BatchSearch` holds `RunMCTSBatch`.
- `Mcts` holds the mode choice, `GetBestMoveMCTS` and the chess game.
- `Bindings` holds the binding layer.

How the model represents the source:

- **Pieces.** A piece placement is a set of `Bit(plane, square)` entries: bit `square` of bitboard `plane`, in the Zobrist column order (white P N B R Q K, then black). A set may hold two planes on one square, as the bitboards may. `WellFormed` says it does not.
- **Hash.** A Zobrist hash is 64 booleans, and XOR is pointwise.
- **Keys.** The key tables are a parameter, because their values come from a seeded generator that is not modelled.
- **Search.** The search is generic over a `Game` record: the move generator, the result reader, `MakeMove`, the side to move and `GetFen`. `Mcts.ChessGame` instantiates it with the board model.
- **Randomness.** `sqrt`, the gamma draws and the random playout are function parameters.
- **Numbers.** Doubles are reals.
- **Rules.** `MoveGen.Rules` selects between the generator and undo as written (`AsWritten`) and their correction (`Corrected`).
- **Batch terminals.** `BatchSearch.TerminalCount` selects between uncapped terminal completions, as written, and capped ones.

Where the documented behaviour and the code differ, the model follows the code:

- A root with no legal moves is backed up once per iteration, so `rootVisits == iterations` and not 0.
- An evaluator result of the wrong length falls back to uniform priors or zero values, silently.
- Selection ties go to the first child with the best score; no randomness is involved.
- `include/board.hpp` does not declare `GetFen`, which `src/board.cpp` defines and the search calls.

## Model

| member | source | states |
|---|---|---|
| Squares.Rank | src/move.cpp:6 | the rank of a square is in 0..7 |
| Squares.At | src/board.cpp:102 | rank*8+file is the square with that rank and file |
| Squares.SquareToStr | src/move.cpp:4-8 | two characters: a file letter a-h, then a rank digit 1-8 |
| Squares.StrToSquare | src/move.cpp:10-16 | A1 for text shorter than two characters or out of range; otherwise the named square, with the file letter read case-blind |
| Squares.SquareNameRoundTrip | src/move.cpp:4-16 | reading the name of every square gives back that square |
| Squares.SquareNameRoundTripText | src/move.cpp:10-16 | a text naming a square is read and written back as its lower-cased first two characters |
| Squares.StrToSquareIgnoresCaseAndTail | src/move.cpp:12-13 | texts that agree on the case-folded file and the rank read as the same square, whatever follows |
| Text.NatToString | src/board.cpp:161 | the clock is written as a non-empty run of decimal digits |
| Text.DecimalRoundTrip | src/board.cpp:118-122 | the leading-digit reader gives back every written clock value |
| Text.ReadDecimalAppend | src/board.cpp:120 | reading digits then more text continues from the value of the digits |
| Text.TokensOfJoin | src/board.cpp:70-72 | the stream extraction splits space-joined non-blank fields back into those fields |
| Text.SplitOfJoin | src/board.cpp:75-80 | splitting slash-joined rank texts gives the ranks back |
| Text.RunLength | src/board.cpp:72 | the length of a run stops at the first stop character |
| Pieces.ResultCodeInjective | src/python_bindings.cpp:64-70 | the codes 1, -1, 0 and 2 identify the four game results |
| Pieces.ResultCode | include/move.hpp:17 | the code lies in -1..2 and is 2 exactly for an unfinished game |
| Pieces.MoveToUci | src/python_bindings.cpp:12-22 | four characters naming origin and destination, plus a fifth promotion letter exactly when there is a promotion |
| Pieces.MovesToUci | src/mcts.cpp:63-68 | one text per move, in order; each is four characters, five with a promotion, and its first two and next two characters decode to the move's origin and destination |
| Pieces.UciDecodesSquares | src/mcts.cpp:51-61 | the first and second square names of a move's text read back as its origin and destination |
| Pieces.UciInjective | src/python_bindings.cpp:12-29 | for standard promotions, two moves share a text exactly when origin, destination and promotion agree |
| Zobrist.XorLaws | src/board.cpp:319-332 | XOR has 0 as identity, is self-inverse, commutative and associative |
| Zobrist.PieceIndexInRangeAndInjective | src/zobrist.cpp:22-25 | the column (type-1)+(black?6:0) is in 0..11 and distinct for distinct (type, colour) |
| Zobrist.PieceIndex | src/zobrist.cpp:22-25 | a real piece gets one of the twelve columns, white's in 0..5 and black's in 6..11 |
| Zobrist.CastlingKey | src/zobrist.cpp:31-33 | an index in 0..3 selects its own castling key |
| Zobrist.EnPassantKey | src/zobrist.cpp:35-37 | an index in 0..15 selects its own en-passant key |
| Zobrist.MaskedLookups | src/zobrist.cpp:31-37 | the masks wrap: indices that differ by 4 (castling) or 16 (en passant) select the same key |
| Zobrist.KeysFromStream | src/zobrist.cpp:10-20 | the piece table is filled square by square, then the side key, the castling keys and the en-passant keys |
| Zobrist.SlotsDistinct | src/zobrist.cpp:12-18 | every key takes its own draw of the stream, in that order |
| Zobrist.Init | src/zobrist.cpp:10-20 | after Init the tables are set; a second Init leaves the state as it was |
| Zobrist.InitIdempotent | src/zobrist.cpp:11 | Init twice is Init once, whatever the second stream |
| Zobrist.XorPrefixUpdate | src/board.cpp:44-60 | changing one square's key changes the XOR of the keys by the old and new keys |
| Position.PlaneCorrespondence | src/board.cpp:279-313 | planes and (piece type, colour) pairs correspond one to one |
| Position.ClearPiece | src/board.cpp:279-295 | ClearPieceAt removes the piece's bit on the square and no other; NO_PIECE changes nothing |
| Position.SetPiece | src/board.cpp:297-313 | SetPieceAt adds the piece's bit on the square and no other; NO_PIECE changes nothing |
| Position.Occupant | src/board.cpp:219-233 | the first plane holding the square, scanning white pawns first, or -1 exactly when the square is empty |
| Position.OccupantOfWellFormed | src/board.cpp:219-233 | on a well-formed placement the occupant is the one plane that holds the square |
| Position.GetPieceAt | src/board.cpp:219-233 | NO_PIECE exactly when no bitboard holds the square, else the type of the first plane in scan order (white pawn to black king) that holds it |
| Position.AllPieces | src/board.cpp:165-188 | the all-pieces board is the union of the white and black aggregates |
| Position.AggregatesMatchOccupant | src/board.cpp:165-188 | a square is in the aggregates exactly when GetPieceAt sees a piece there, of the aggregate's colour |
| Position.ClearSetSingleBit | src/board.cpp:279-313 | setting a piece on a square its bitboard does not hold and clearing it again gives back the same placement |
| Position.SquareKeyIsPieceKey | src/board.cpp:46-60 | a square's key is GetPieceKey of the piece GetPieceAt reports, in the occupant's colour |
| Position.RemoveHash | src/board.cpp:327-336 | removing a piece XORs exactly its key out of the recomputed hash |
| Position.AddHash | src/board.cpp:330-337 | placing a piece on an empty square XORs exactly its key in |
| Position.CastlingEpHashKeys | src/board.cpp:29-41 | CastlingEpHash is the castling keys of the set bits, plus en-passant key f for a target on file f of rank index 2, or key 8+f on rank index 5; no target, or one on another rank, adds nothing |
| Position.ComputeHashDependsOnPosition | src/board.cpp:44-63 | ComputeHash ignores the undo stack and the clock; flipping the side XORs the side key |
| Position.StartBoard | src/board.cpp:8-26 | the constructor: the initial placement, white to move, all four rights, no en-passant target |
| Position.StartPosition | src/board.cpp:10-22 | the twelve constructor masks form a well-formed placement whose every square holds its initial-position piece |
| Position.StartMaskBits | src/board.cpp:10-22 | each constructor mask holds exactly the squares of its piece in the initial position |
| Fen.LetterRoundTrip | src/board.cpp:90-100 | reading a written piece letter gives back its type and colour |
| Fen.EmptyRun | src/board.cpp:146-148 | an empty run is written as its count only when it is non-empty |
| Fen.RankText | src/board.cpp:131-148 | a rank's text is non-empty and made of piece letters and digits |
| Fen.ParseRunText | src/board.cpp:84-104 | parsing the text written for the rest of a rank adds exactly the visible pieces from that file on |
| Fen.PlacementRoundTrip | src/board.cpp:75-105 | parsing the written placement gives back the visible pieces, the first plane on each square |
| Fen.CastlingRoundTrip | src/board.cpp:107-115 | reading the written castling field gives back the mask |
| Fen.EpRoundTrip | src/board.cpp:116 | reading the written en-passant field gives back the target, -1 included |
| Fen.HalfMoveRoundTrip | src/board.cpp:117-122 | reading the written clock gives back the clock |
| Fen.FenRoundTrip | src/board.cpp:65-163 | SetFromFen(GetFen(b)) keeps the visible pieces, the side, castling, en passant and clock, and empties the undo stack; on a well-formed board it is b with the hash recomputed |
| Fen.GetFen | src/board.cpp:128-163 | the FEN splits at its spaces back into the six fields written, the last always "1" |
| Fen.SetFromFen | src/board.cpp:65-126 | the board read has an empty undo stack and the hash recomputed from the position, and white is to move exactly when the side field is missing or starts with 'w' |
| Fen.SetFromFenWellFormed | src/board.cpp:81-105 | any FEN text gives a well-formed placement: a later letter never lands on an earlier piece's square |
| Fen.EmptyFen | src/board.cpp:65-126 | the empty text gives an empty board, white to move, no rights, no target and clock 0 |
| Fen.ParseRightsAppend | src/board.cpp:108-115 | the castling field is read left to right: reading a+c continues from the rights read from a |
| Fen.Visible | src/board.cpp:134-146 | the pieces GetFen can see are a subset of the placement, all of it when well-formed |
| Tables.KingTableExact | movegen.cpp:108-117 | the king table holds exactly the squares at Chebyshev distance 1, never wrapping an edge |
| Tables.KnightTableExact | movegen.cpp:120-129 | the knight table holds exactly the squares at rank and file distance (2,1) or (1,2) |
| Tables.PawnTablesExact | movegen.cpp:131-172 | a pawn pushes one rank forward, two only from its start rank, and captures one rank forward on an adjacent file |
| Tables.PawnTablesMirror | movegen.cpp:154-170 | the black tables are the white ones with the board turned round |
| Tables.KingMoves | movegen.cpp:108-117 | a king table entry holds only neighbouring squares, never the origin |
| Tables.KnightMoves | movegen.cpp:120-129 | a knight table entry holds only squares a (2,1) or (1,2) jump away |
| Tables.PawnMoves | movegen.cpp:131-172 | a pawn push stays on its file and moves one or two ranks forward for its colour |
| Tables.PawnCaptures | movegen.cpp:131-172 | a pawn capture moves to an adjacent file, one rank forward for its colour |
| Tables.SlideFree | movegen.cpp:41-72 | the precomputed slider table equals the blocked generation on an empty board |
| Tables.RookMoves | movegen.cpp:218-222 | GetRookMoves, zero-occupancy shortcut included, is blocked generation over the rook directions |
| Tables.BishopMoves | movegen.cpp:224-228 | GetBishopMoves, zero-occupancy shortcut included, is blocked generation over the diagonals |
| Tables.QueenMoves | movegen.cpp:234-238 | GetQueenMoves, zero-occupancy shortcut included, is blocked generation over all eight directions |
| Tables.RayFromExact | movegen.cpp:81-102 | a ray from distance d holds a target exactly when it lies on the ray and nothing before it is occupied |
| Tables.SlideExact | movegen.cpp:74-106 | blocked generation over several directions takes exactly the squares one of them reaches |
| Tables.SlidingExact | movegen.cpp:74-106 | a slider reaches a square exactly when some direction reaches it, stopping at and including the first blocker |
| Tables.StepExact | movegen.cpp:84-98 | the edge test accepts a step exactly when it stays on the board along the direction |
| Tables.ReachesLine | movegen.cpp:92-98 | a reached square shares the origin's rank, file or diagonal |
| Tables.RookLines | movegen.cpp:174-180 | rook targets share the origin's rank or file |
| Tables.BishopLines | movegen.cpp:182-188 | bishop targets share a diagonal with the origin |
| Tables.QueenIsRookOrBishop | movegen.cpp:190-196 | the queen reaches exactly what a rook or a bishop reaches |
| Attacks.AttacksFromExact | src/board.cpp:239-255 | the table test from one square agrees with the geometric attack relation |
| Attacks.IsSquareAttacked | src/board.cpp:235-258 | IsSquareAttacked holds exactly when some piece of the side attacks the target in board geometry: pawn diagonals, knight jumps, king steps, sliders up to the first blocker |
| Attacks.AttackedExact | src/board.cpp:235-258 | the loop's table test finds an attacker of the target exactly when some piece of the side attacks it geometrically |
| Attacks.Lowest | src/board.cpp:262 | the lowest square of a set, -1 exactly when it is empty |
| Attacks.Least | src/board.cpp:262 | every non-empty set of squares has a least element |
| Attacks.IsInCheck | src/board.cpp:260-265 | a side in check has a king on an attacked square; a side with no king is never in check |
| Attacks.SingleKingCheck | src/board.cpp:260-265 | with one king (the king bitboard's squares being exactly that one), check is exactly that the king's square is attacked |
| Attacks.LowestKingDecides | src/board.cpp:262-264 | with several kings only the lowest counts: another attacked king does not give check |
| MakeUnmake.MoverCastling | src/board.cpp:361-368 | a king move clears both of the mover's bits, a rook leaving a corner clears that corner's bit, nothing else changes |
| MakeUnmake.CapturedRookCastling | src/board.cpp:369-374 | capturing a rook on a corner clears that corner's bit |
| MakeUnmake.NextCastling | src/board.cpp:361-374 | the mask only loses bits, exactly the revoked ones |
| MakeUnmake.NextEpTarget | src/board.cpp:353-359 | a target exactly after a pawn's double step from rank index 1 or 6: the skipped square, from+8 or from-8 |
| MakeUnmake.NextHalfMove | src/board.cpp:378-381 | the clock resets exactly on a capture or pawn move and otherwise grows by one |
| MakeUnmake.MakeMove | src/board.cpp:315-384 | the side flips, the undo stack grows by the old rights, target and clock, and the new rights, target and clock are as above |
| MakeUnmake.MakeMoveSquares | src/board.cpp:333-350 | after a fitting move the destination holds the placed piece, the origin and an en-passant square are empty, and castling moves the rook |
| MakeUnmake.CastleSetsEffect | src/board.cpp:338-350 | castling moves the rook from its corner to the square beside the king and touches nothing else |
| MakeUnmake.MoveSets | src/board.cpp:333-337 | the piece steps empty the origin and the capture square, occupy the destination and keep the rest |
| MakeUnmake.MakeHashConsistent | src/board.cpp:319-347 | after a fitting move on a well-formed board with a correct hash, the incremental hash equals the recomputed one |
| MakeUnmake.UnmakeWith | src/board.cpp:386-429 | unmaking flips the side, pops the undo stack and restores the rights, target and clock it held |
| MakeUnmake.UnmakeMove | src/board.cpp:386-429 | the as-written undo, classifying en passant by destination rank, is defined on every move with a piece |
| MakeUnmake.UnmakeMoveFixed | src/board.cpp:386-429 | the corrected undo flips the side and pops the undo stack |
| MakeUnmake.RoundTripBits | src/board.cpp:333-350 | undoing the piece steps with the capture square of the make restores the placement |
| MakeUnmake.RoundTripKeys | src/board.cpp:319-347 | the undo's key updates cancel the make's |
| MakeUnmake.RoundTripHolds | src/board.cpp:315-429 | make then unmake restores the board when the undo finds the make's capture square |
| MakeUnmake.RoundTripFails | src/board.cpp:321-325 | when it does not, the captured piece is missing from its square afterwards |
| MakeUnmake.RoundTripIff | src/board.cpp:315-429 | make then unmake restores the board exactly when the move is quiet or the undo's en-passant verdict matches the make's |
| MakeUnmake.AsWrittenRoundTrip | src/board.cpp:393-397 | UnmakeMove as written restores the board exactly when its rank test agrees with the make's empty-destination test |
| MakeUnmake.FixedRoundTrip | src/board.cpp:386-429 | the corrected UnmakeMove restores every fitting, coherent move |
| MakeUnmake.AsWrittenCounterexample | src/board.cpp:393-397 | e2xd3 against a pawn on d3: UnmakeMove as written restores it on d2, and the corrected one restores the board |
| MakeUnmake.CounterexampleMakes | src/board.cpp:321-337 | the counterexample move fits its board and is not en passant for MakeMove |
| MakeUnmake.CaptureNotRestored | src/board.cpp:415-421 | an undo using another capture square does not put the captured piece back |
| MoveOrder.BeforeIsOrder | movegen.cpp:324-327 | the comparator is a strict weak order whose ties are equal (from, to, promotion) keys |
| MoveOrder.Before | movegen.cpp:324-327 | a move sorts before another only from a lower or equal origin, and never before a move with its own key |
| MoveOrder.Insert | movegen.cpp:324-327 | inserting into a sorted list keeps it sorted and adds the move |
| MoveOrder.SortMoves | movegen.cpp:324-327 | the sort returns a sorted permutation of its input |
| MoveOrder.SortMovesMembers | movegen.cpp:324-327 | the sort keeps exactly the moves it was given |
| MoveOrder.StrictlySorted | movegen.cpp:324-327 | a sorted list with distinct keys is strictly increasing |
| MoveOrder.SortedUnique | movegen.cpp:324-327 | two sorted permutations of a list with distinct keys are equal |
| MoveOrder.SortDeterminate | movegen.cpp:324-327 | with distinct keys the sort's result is the only sorted permutation |
| MoveOrder.DistinctKeysPermutation | movegen.cpp:324-327 | distinct keys survive a permutation |
| MoveGen.CastlingMovesExact | movegen.cpp:253-264 | castling is generated exactly when the right is set and the squares between are empty; check is not consulted |
| MoveGen.ScanTargetsMembers | movegen.cpp:300-316 | a move comes from the destination scan exactly when its destination is a target at or after the scan point and its fields are shaped |
| MoveGen.ScanSquaresMembers | movegen.cpp:265-317 | a move comes from the square scan exactly when it starts on an own piece at or after the scan point and goes to one of its targets |
| MoveGen.PseudoLegalMembers | movegen.cpp:252-317 | PseudoLegal's candidates are exactly the castling moves and the scanned moves |
| MoveGen.MovesToMembers | movegen.cpp:302-315 | the moves pushed for one target: captured piece from the ep rule or the board, and four promotions on the last rank |
| MoveGen.PromotionsComeInFours | movegen.cpp:307-313 | a promotion candidate comes with the queen, rook, bishop and knight versions |
| MoveGen.DoublePushIgnoresSkippedSquare | movegen.cpp:137-161 | for either colour, a pawn on its home rank has the double push as a target whenever the landing square is empty, whatever stands on the skipped square |
| MoveGen.DoublePushOverPiece | movegen.cpp:271 | on a consistent board, a double push over an occupied square is generated, and making it gives a board that is no longer consistent |
| MoveGen.PseudoLegalGenerated | movegen.cpp:265-317 | every candidate of PseudoLegal has a piece, and a pawn never lands behind its own first rank |
| MoveGen.PawnTargetRank | movegen.cpp:270-279 | pawn targets lie forward of the back rank of the pawn's side |
| MoveGen.Unmake | movegen.cpp:322 | the undo the generator calls, as written or corrected, flips the side and pops the stack |
| MoveGen.Try | movegen.cpp:318-323 | one make/check/unmake keeps the side and the undo stack |
| MoveGen.TryKeeps | movegen.cpp:320-321 | a candidate is kept exactly when the mover's king is safe after it |
| MoveGen.TryCorrected | movegen.cpp:318-323 | under the corrected undo the board comes back unchanged |
| MoveGen.TryAsWritten | movegen.cpp:318-323 | under the undo as written the board comes back exactly when the two en-passant tests agree |
| MoveGen.LegalFilter | movegen.cpp:318-323 | the filter keeps the side and the undo stack |
| MoveGen.LegalFilterSubset | movegen.cpp:318-323 | every kept move is a candidate |
| MoveGen.SafeMovesMembers | movegen.cpp:320-321 | the reference filter keeps exactly the safe candidates |
| MoveGen.CorrectedFilter | movegen.cpp:318-323 | under the corrected undo the filter equals the reference filter and restores the board |
| MoveGen.AsWrittenFilter | movegen.cpp:318-323 | as written, the same holds while no candidate splits the two en-passant tests |
| MoveGen.AsWrittenFilterDiverges | movegen.cpp:318-323 | as written, a candidate that splits them corrupts the board the rest of the filter sees |
| MoveGen.PseudoLegalFits | movegen.cpp:252-317 | on a consistent board every candidate's fields match the board |
| MoveGen.GenerateLegalMoves | movegen.cpp:244-328 | the legal moves are sorted candidates, and the side and undo stack survive; on a board whose held castling rights have king and rook at home, no two moves share a (from, to, promotion) key, so the order is strict |
| MoveGen.PseudoLegalDistinctKeys | movegen.cpp:252-317 | on such a board no two candidates share a (from, to, promotion) key |
| MoveGen.LegalFilterSubMultiset | movegen.cpp:318-323 | the filter keeps a sub-multiset of the candidates, in either undo |
| MoveGen.LegalFilterDistinct | movegen.cpp:318-323 | candidates with distinct keys give kept moves with distinct keys |
| MoveGen.StartConsistent | src/board.cpp:8-26 | the starting position is consistent: well formed, every right with its king and rook at home, and no en-passant target |
| MoveGen.LegalMovesExact | movegen.cpp:244-328 | on a consistent board, corrected, the legal moves are exactly the safe candidates and the board comes back unchanged |
| MoveGen.Outcome | movegen.cpp:333-337 | the side to move never wins by having no moves |
| MoveGen.GetGameResult | movegen.cpp:330-338 | the classifier never reports a win for the side to move, and keeps the side |
| MoveGen.NoLegalMoves | movegen.cpp:330-333 | the legal list is empty exactly when no candidate is safe |
| MoveGen.GameResultOngoing | movegen.cpp:333 | Ongoing exactly when some candidate is safe |
| MoveGen.GameResultCheckmate | movegen.cpp:334-336 | a loss for the side to move exactly when no candidate is safe and it is in check; there is no 50-move or repetition rule |
| MoveGen.GameResultStalemate | movegen.cpp:337 | Draw exactly when no candidate is safe and the side is not in check |
| MoveGen.GameResultBoard | movegen.cpp:330-332 | on a consistent board, corrected, classifying leaves the board unchanged |
| MoveGen.WhiteNeverCapturesEnPassant | movegen.cpp:275 | as written, white never gets the en-passant target MakeMove sets after a black double step |
| MoveGen.BlackEnPassantJumpsTwoRanks | movegen.cpp:277 | as written, a black en-passant target lies two ranks down and is no pawn capture |
| MoveGen.BlackEnPassantExample | movegen.cpp:277 | after e2-e4 a black pawn on d5 is offered the target e3 |
| MoveGen.CorrectedEnPassantIsCapture | movegen.cpp:273-279 | corrected, the en-passant target is added exactly when it is a pawn capture square on rank index 5 for white or 2 for black |
| MoveGen.CorrectedEnPassantAfterDoublePush | movegen.cpp:273-279 | corrected, a pawn beside a double-stepped pawn is offered the skipped square |
| SearchTree.SameShapeWellFormed | src/mcts.cpp:170-175 | changing only the statistics keeps the tree well formed |
| SearchTree.ResultToValue | src/mcts.cpp:37-42 | 0 for a draw or Ongoing, +1 for the root side's win, -1 for its loss |
| SearchTree.ResultToValueAntisymmetric | src/mcts.cpp:37-42 | seen from the other side, the value changes sign |
| SearchTree.Normalise | src/mcts.cpp:126-137 | one prior per child, every prior positive |
| SearchTree.NormaliseWithoutWeights | src/mcts.cpp:124-137 | a missing or wrong-length weight list gives every child 1/n, summing to 1 |
| SearchTree.NormalisePositive | src/mcts.cpp:126-137 | all-positive weights are divided by their sum, and the priors sum to 1 |
| SearchTree.NormaliseShares | src/mcts.cpp:132-137 | with some positive weight, a positive weight gets its share of the positive sum and any other gets 1/n |
| SearchTree.NormaliseNonePositive | src/mcts.cpp:126-136 | without a positive weight every child gets 1/n |
| SearchTree.SumScaled | src/mcts.cpp:31-32 | dividing every entry by d divides the sum by d |
| SearchTree.Noise | src/mcts.cpp:17-22 | one noise draw per child, none below 1e-10 |
| SearchTree.Dirichlet | src/mcts.cpp:13-33 | the noise keeps the number of priors |
| SearchTree.DirichletOff | src/mcts.cpp:14 | with alpha <= 0 the priors are unchanged |
| SearchTree.MixAllPositive | src/mcts.cpp:25-28 | mixing positive priors with positive noise keeps every prior positive |
| SearchTree.ScaleToOne | src/mcts.cpp:30-32 | renormalising positive priors gives positive priors summing to 1 |
| SearchTree.DirichletPositive | src/mcts.cpp:13-33 | with noise on, positive priors stay positive and sum to 1 |
| SearchTree.Expand | src/mcts.cpp:141-149 | expansion appends one child per move, in order, with N=0, W=0 and its prior, and points the node at them |
| SearchTree.Path | src/mcts.cpp:171 | the backup path of a node holds only it and nodes before it |
| SearchTree.Backup | src/mcts.cpp:170-175 | backup changes only the statistics |
| SearchTree.BackupVisits | src/mcts.cpp:170-175 | backup adds 1 to N exactly on the path to the root |
| SearchTree.BackupValues | src/mcts.cpp:113-175 | backup adds the value to W along the path: unsigned, or with the sign alternating from + at the leaf |
| SearchTree.BackupVirtual | src/mcts.cpp:300 | batch backup lowers N_virtual by one, floored at 0, on every non-root node of the path |
| SearchTree.BackupCountsRoot | src/mcts.cpp:170-175 | every backup visits the root once |
| SearchTree.BackupBounded | src/mcts.cpp:170-175 | a backup of a value in [-1,1] keeps every W within [-N, N] |
| SearchTree.BackupKeepsRootSum | src/mcts.cpp:170-175 | a backup below the root adds one to N at the root and one to its children's visits |
| SearchTree.ExpandRoot | src/mcts.cpp:141-149 | expanding the root keeps its N and starts its children's visits at 0 |
| SearchTree.ExpandBelowRoot | src/mcts.cpp:141-149 | expanding a lower node leaves the root's statistics unchanged |
| SearchTree.RootChildOnPath | src/mcts.cpp:171 | the path of a non-root node passes through exactly one child of the root |
| SearchTree.ScanBest | src/mcts.cpp:153-161 | the scan keeps the earliest strictly greater score |
| SearchTree.FirstBest | src/mcts.cpp:150-162 | the first child with the greatest score, or -1 when no score beats -1e99 |
| SearchTree.SelectBest | src/mcts.cpp:179-191 | selection returns -1 or a child of the node |
| SearchTree.SelectBestNone | src/mcts.cpp:179-191 | selection fails exactly when no child scores above -1e99 |
| SearchTree.SelectBestIsFirstMax | src/mcts.cpp:179-190 | the selected child has the greatest score, and every child before it scores strictly less |
| SearchTree.ScoreAboveFloor | src/mcts.cpp:154-156 | with positive priors and bounded values every score is at least -1 |
| SearchTree.VirtualLossLowersScore | src/mcts.cpp:309-311 | with non-negative c_puct, prior and square root, counting N_virtual never raises a child's score, and lowers it when walkers are in flight and the exploration term is positive |
| SearchTree.SelectsSomeChild | src/mcts.cpp:150-162 | a node with children always selects one |
| SearchSetup.DefaultOptions | include/mcts.hpp:31-46 | no evaluators, batch size 32, alpha 0, epsilon 0.25, and c_puct √2, pinned between 1.414 and 1.415 |
| SearchSetup.Report | src/mcts.cpp:197-200 | the root's children in creation order with their visits, root N as root visits, and a mean in [-1,1] |
| SearchSetup.ReportVisitTotal | src/mcts.cpp:199-200 | the listed visits add up to the visits of the root's children |
| SearchSetup.MeanBounded | src/mcts.cpp:198 | W/N lies in [-1,1] when W lies in [-N,N] |
| SyncSearch.SyncPriors | src/mcts.cpp:121-140 | one prior per legal move |
| SyncSearch.SyncPriorsUniform | src/mcts.cpp:121-140 | without a usable prior list and without root noise every prior is 1/n |
| SyncSearch.SyncPriorsFollowWeights | src/mcts.cpp:126-137 | all-positive evaluator weights become their shares, summing to 1 |
| SyncSearch.SyncPriorsPositive | src/mcts.cpp:121-140 | every prior is positive |
| SyncSearch.Grow | src/mcts.cpp:121-176 | expanding and backing up keeps the tree well formed and adds at most one root visit |
| SyncSearch.Descend | src/mcts.cpp:109-194 | one descent keeps the tree well formed and adds at most one root visit |
| SyncSearch.SyncLoop | src/mcts.cpp:105-195 | the loop adds at most one root visit per iteration |
| SyncSearch.RunSync | src/mcts.cpp:87-204 | no iterations give the empty result, and the root is visited at most once per iteration |
| SyncSearch.ExpandKept | src/mcts.cpp:141-149 | expansion with positive priors keeps the tree well formed, bounded and positive |
| SyncSearch.BackupKept | src/mcts.cpp:170-175 | backup of a value in [-1,1] keeps the same |
| SyncSearch.LeafCounts | src/mcts.cpp:110-176 | at a leaf, one iteration adds exactly one root visit |
| SyncSearch.GrowCounts | src/mcts.cpp:121-176 | expanding a node with moves adds exactly one root visit |
| SyncSearch.DescendCounts | src/mcts.cpp:109-194 | each descent adds exactly one root visit |
| SyncSearch.SyncLoopCounts | src/mcts.cpp:105-195 | the loop adds exactly one root visit per iteration |
| SyncSearch.RunSyncExact | src/mcts.cpp:105-198 | rootVisits == iterations, and rootValue lies in [-1,1] |
| SyncSearch.DescendBelowRoot | src/mcts.cpp:109-194 | a descent below the root adds to the root's children as much as to the root |
| SyncSearch.GrowBelowRoot | src/mcts.cpp:121-176 | the same for an expansion below the root |
| SyncSearch.DescendFromRoot | src/mcts.cpp:109-194 | a descent from a root with moves keeps root N equal to its children's visits |
| SyncSearch.SyncLoopAccount | src/mcts.cpp:105-195 | the whole loop keeps it |
| SyncSearch.RunSyncVisitsAddUp | src/mcts.cpp:197-200 | for a root with legal moves the listed visits add up to rootVisits |
| SyncSearch.DescendTerminalRoot | src/mcts.cpp:113-118 | at a root without moves, an iteration adds one visit and the unsigned result value |
| SyncSearch.SyncLoopTerminalRoot | src/mcts.cpp:105-119 | at such a root, every iteration adds the same value |
| SyncSearch.RunSyncTerminalRoot | src/mcts.cpp:105-200 | a root without moves gives no visits, rootVisits == iterations, and the result's value |
| FenOrder.LexLessIrreflexive | src/mcts.cpp:229 | no FEN precedes itself in the map's order |
| FenOrder.LexLessTransitive | src/mcts.cpp:229 | the map's order is transitive |
| FenOrder.LexLessTotal | src/mcts.cpp:229 | two different FENs are ordered one way or the other |
| FenOrder.InsertKey | src/mcts.cpp:234 | adding a key keeps the keys increasing and adds exactly it |
| FenOrder.MapKeys | src/mcts.cpp:229-242 | the map's keys are increasing and exactly the FENs inserted |
| FenOrder.IncreasingUnique | src/mcts.cpp:241-242 | the key list is determined by the set of keys |
| FenOrder.IncreasingDistinct | src/mcts.cpp:241-242 | every key appears once |
| BatchSearch.WorkerCount | src/mcts.cpp:208 | the batch size clamped to [1,1024] |
| BatchSearch.Start | src/mcts.cpp:211-224 | W walkers at the root in state RUN, no completions, an unvisited root |
| BatchSearch.AddVirtual | src/mcts.cpp:367 | a selection adds one to the chosen child's N_virtual and changes nothing else |
| BatchSearch.Pending | src/mcts.cpp:230-235 | the waiting walkers, in index order, each once |
| BatchSearch.Group | src/mcts.cpp:234 | a FEN's group holds exactly the waiting walkers at that FEN |
| BatchSearch.KeysHaveGroups | src/mcts.cpp:229-244 | every map key has a non-empty group |
| BatchSearch.Entries | src/mcts.cpp:291 | the walkers in map order, each with its key |
| BatchSearch.EntriesCover | src/mcts.cpp:291 | every waiting walker appears with its key |
| BatchSearch.EntriesCount | src/mcts.cpp:229-235 | the entries are exactly as many as the waiting walkers |
| BatchSearch.GroupSizesCount | src/mcts.cpp:229-235 | the group sizes add up to the number of waiting walkers |
| BatchSearch.OccursOnce | src/mcts.cpp:229 | an increasing key list holds each key once |
| BatchSearch.Ucis | src/mcts.cpp:241-244 | for every FEN key, the UCI texts of the legal moves of a waiting walker at that FEN: the first walker of its group |
| BatchSearch.Evaluate | src/mcts.cpp:245-248 | one call per key: the prior lists when there is one per key, none otherwise; the values when there is one per key, zeros otherwise |
| BatchSearch.GroupPriors | src/mcts.cpp:250-268 | one prior per move |
| BatchSearch.GroupPriorsUniform | src/mcts.cpp:251-265 | without a matching prior list and root noise every prior is 1/n |
| BatchSearch.GroupPriorsPositive | src/mcts.cpp:250-268 | every prior is positive |
| BatchSearch.Fit | src/mcts.cpp:282 | the group's priors, one per child of the entry's own move list |
| BatchSearch.ExpandOnce | src/mcts.cpp:270-285 | a node already expanded keeps its children; a node with moves gets children |
| BatchSearch.ExpandEntries | src/mcts.cpp:271-285 | expansion of a group keeps every expanded node's children and never touches root N |
| BatchSearch.ExpandGroups | src/mcts.cpp:250-286 | expanding the groups keeps the tree well formed and root N unchanged; a node that already has children keeps their number, so no node is expanded twice in a flush; and every waiting walker whose FEN is a remaining key and which has moves ends at a node with children |
| BatchSearch.GroupStepCovers | src/mcts.cpp:270-285 | after one group's expansion and the later groups', every waiting walker of that group with moves sits at a node with children |
| BatchSearch.Finish | src/mcts.cpp:296-319 | a completion adds one root visit and one completion, and parks no walker |
| BatchSearch.MoveOn | src/mcts.cpp:357-369 | selection moves one walker and adds virtual loss, without visits or completions |
| BatchSearch.Complete | src/mcts.cpp:288-321 | the flush completes min(remaining, entries) leaves, each adding one root visit |
| BatchSearch.Release | src/mcts.cpp:322-328 | every walker still waiting goes back to the root in state RUN |
| BatchSearch.Flush | src/mcts.cpp:227-329 | completions and root visits grow together, never past the budget |
| BatchSearch.FlushCompletes | src/mcts.cpp:288-304 | a flush completes min(budget left, waiting walkers) leaves |
| BatchSearch.Conclude | src/mcts.cpp:288-328 | the same for the completion phase |
| BatchSearch.Step | src/mcts.cpp:332-369 | one walker's advance adds completions and root visits together, at most one |
| BatchSearch.Advance | src/mcts.cpp:331-370 | the advance phase adds completions and root visits together, at most one per walker |
| BatchSearch.StepParked | src/mcts.cpp:334 | a step keeps every waiting walker at a childless node that has moves to expand it |
| BatchSearch.BatchLoop | src/mcts.cpp:226-371 | the rounds keep completions equal to root visits, at or past the budget when they finish; from a root without legal moves the root is never expanded |
| BatchSearch.RunBatch | src/mcts.cpp:206-381 | a finished batch search visits the root at least iterations times and at most iterations plus W; with capped terminals, exactly iterations times |
| BatchSearch.TerminalsOvercount | src/mcts.cpp:336-351 | two walkers and a root without moves: one requested iteration visits the root twice |
| BatchSearch.TerminalsCapped | src/mcts.cpp:336-351 | with the terminal completions capped, the same search visits the root once |
| Mcts.RunMCTS | src/mcts.cpp:87-95 | no iterations give the empty result; both batch evaluators select the batch search, otherwise the sync search runs |
| Mcts.RunMctsExact | src/mcts.cpp:87-204 | the root is visited exactly once per iteration in sync mode, and in batch mode with capped terminals |
| Mcts.ScanVisits | src/mcts.cpp:390-392 | the scan keeps the earliest strictly greater visit count |
| Mcts.MostVisited | src/mcts.cpp:390-393 | the first entry with the most visits |
| Mcts.BestMove | src/mcts.cpp:389-393 | the default move for an empty list, else the first most-visited move |
| Mcts.GetBestMoveMCTS | src/mcts.cpp:387-394 | no iterations give the default move; in sync mode there is always an answer |
| Mcts.NoMovesGiveDefault | include/mcts.hpp:51-53 | a root without legal moves gives the default move in either mode; in batch mode the only other answer is None, for rounds run out |
| BatchSearch.RunBatchNoMoves | src/mcts.cpp:206-381 | from a root without legal moves, a finished batch search leaves the root without children, so it has no visits to report |
| BatchSearch.StepStuck | src/mcts.cpp:332-369 | from a root without legal moves, no step parks a walker at the root while iterations remain, so the root stays a leaf |
| BatchSearch.AdvanceStuck | src/mcts.cpp:331-370 | the same for the whole advance phase |
| BatchSearch.RoundStuck | src/mcts.cpp:226-371 | the same for one flush and advance round |
| Mcts.PlayGenerated | src/mcts.cpp:192 | Play applies MakeMove to every move the search plays: a generated move MakeMove is defined on |
| Mcts.ChessGame | src/mcts.cpp:109-194 | the chess game the search runs is unfinished exactly when it has legal moves, and MakeMove is defined on every move it generates |
| Bindings.FirstMatch | src/python_bindings.cpp:24-27 | the position of the first move with the text, or -1 exactly when none has it |
| Bindings.FindMove | src/python_bindings.cpp:24-29 | the first legal move with the text, and invalid_argument("move not legal: "+uci) exactly when there is none |
| Bindings.NewWrapper | src/python_bindings.cpp:185-189 | the starting position, or the given FEN, with nothing to pop |
| Bindings.SetFen | src/python_bindings.cpp:36-39 | the board read from the FEN, and the last-move record cleared |
| Bindings.LegalMoves | src/python_bindings.cpp:41-48 | the texts of the generated moves, in order |
| Bindings.Push | src/python_bindings.cpp:50-56 | success exactly when a legal move has the text: it is recorded and made; otherwise invalid_argument and the record untouched |
| Bindings.Pop | src/python_bindings.cpp:58-62 | success exactly when a move is recorded; the record is always clear afterwards; without one, runtime_error and nothing changes |
| Bindings.Result | src/python_bindings.cpp:64-70 | a code in {1,-1,0,2}, 2 exactly when there are legal moves |
| Bindings.OngoingCode | src/python_bindings.cpp:64-70 | the code of the outcome is 2 exactly when there are moves |
| Bindings.PushPopRoundTrip | src/python_bindings.cpp:50-62 | on a consistent board, corrected, a successful push then pop restores the board and clears the record |
| Bindings.PopTwice | src/python_bindings.cpp:58-62 | a second consecutive pop raises runtime_error |
| Bindings.PopAfterSetFen | src/python_bindings.cpp:36-62 | a pop after set_fen raises runtime_error |
| Bindings.FailedPushKeeps | src/python_bindings.cpp:50-56 | on a consistent board, under the corrected rules, a push with a text no legal move has raises and leaves board and record unchanged |
| Bindings.FenReadsBack | src/python_bindings.cpp:36-74 | on a well-formed board, set_fen(fen()) keeps the position and clears the undo stack |
| Bindings.RunMctsOptions | src/python_bindings.cpp:88-162 | batch size clamped; split batch mode exactly when both split callables are set and batch_eval is not; per-position callables only when no batch callable is set, called with the FEN and the move texts |
| Bindings.ReplyOf | src/python_bindings.cpp:164-173 | the move texts and visit counts in order, the root value and the root visits |
| Bindings.RunMcts | src/python_bindings.cpp:84-173 | no iterations give empty lists, 0.0 and 0; outside split batch mode there is always a reply |
| Bindings.EmptyReply | src/python_bindings.cpp:164-173 | the empty search result becomes empty lists, 0.0 and 0 |

## Left out

- Random numbers: the std::mt19937 generator, the gamma draws of the Dirichlet noise and `DoRandomPlayout` (movegen.cpp:340-348) are parameters. The playout is an oracle returning a game result, so no statement depends on its values.
- `sqrt` is an uninterpreted function, and doubles are reals, so rounding is not modelled.
- The Zobrist key values from std::mt19937_64 with seed 12345 are abstract: only their fill order and indexing are modelled.
- The Bitboard class (`bitboard.hpp`) is not part of this model. `GetLSB` is modelled as the lowest set square, or -1.
- `Board::Print`, console output, the drivers (`src/main.cpp`, `main.cpp`) and the legacy root copies `board.cpp`, `board.h`, `bitboard.*` and `movegen.h` are out of scope; they are I/O or superseded.
- Memory management (`deleteTree`, heap-allocated nodes) is left out. The tree is an index arena.
- pybind11 glue is left out: the GIL, argument casting and `py::hasattr`. A callable is modelled as an optional function.
- `batch_eval` is modelled as installing nothing. `src/python_bindings.cpp:93,101` assign `pfu_scale` and `batch_eval_fn`, which `include/mcts.hpp` does not declare in `MCTSOptions`, so that code does not compile against the header shown. With `batch_eval` set, neither split callable is installed.
- `pfu_scale` is likewise not modelled.
- BatchSearch.BatchLoop: the source loop has no bound and can run forever when no walker can select a child. The model carries a round count (`fuel`) and returns None when it runs out, so non-termination is not modelled.
- BatchSearch.ExpandEntries: the per-group `std::set` of expanded nodes (src/mcts.cpp:270-285) is modelled as the test "the node has no children yet". At the start of a flush every waiting walker sits at a node without children (RoundParked), so within one group the two tests agree. Across groups they agree because walkers at one node reached it by the same moves from the root, so they share a board, a FEN and therefore a group (src/mcts.cpp:229-235). The model does not prove this path invariant.
- BatchSearch.Fit: an entry whose move list is longer than the group's prior vector reads past its end (undefined behaviour) in the source. The model gives such entries the prior 1/n, n being the entry's move count, and the contract speaks only of the entries in range.
- Mcts.Play: `MakeMove` on a move without a piece is not defined in the model, so the chess game's play function returns the board unchanged there. The search only plays generated moves (`Mcts.PlayGenerated`).
- MakeUnmake.MakeMove: the halfmove clock is an unbounded natural, so a 32-bit overflow is not modelled.
- Fen.SetFromFen: the halfmove digits accumulate in a 32-bit `int` (src/board.cpp:119-121). A field of ten or more digits can overflow it, which is undefined behaviour. The model reads the field's full decimal value.
- MakeUnmake.UnmakeMove: the as-written undo's board contents are stated through RoundTripIff and AsWrittenRoundTrip, not in its own contract.
- MoveGen.GenerateLegalMoves: it is stated for any board, but the exact membership (LegalMovesExact) only for consistent boards under the corrected undo. Under the undo as written, the filter can corrupt the board (finding 1).
- MoveGen.GenerateLegalMoves: the strict order is promised only when every held castling right has its king and rook at home (`RightsAtHome`), which the starting position and every consistent board meet. A FEN can grant a right with another piece on the king's square, for example a white queen on e1 with K set; castling then duplicates the key of a queen move, and the two moves tie.
- MoveGen.Consistent: it is not preserved by every generated move. A double push over an occupied square (DoublePushOverPiece) gives a board that is not consistent, so the exact legality theorems (LegalMovesExact and those built on it) do not cover positions reached that way.
- SyncSearch.RunSync: exact visit counts assume sound options (`Sound`: `c_puct >= 0`, evaluator values in [-1,1], a non-negative `sqrt`, epsilon in [0,1] when noise is on); the source promises nothing for other values.
- BatchSearch.RunBatch: the batch result is `Option`, and None stands for the rounds running out.
- Bindings.RunMcts: in split batch mode it may return None for the same reason.
- Bindings.WhiteToMove, Bindings.FenOf and Bindings.ZobristHash read one field each and carry no contract.
- Zobrist.PieceKey, Position.ComputeHash, Position.CastlingEpHash, MoveGen.PseudoLegal, Tables.RayFrom, Tables.FreeRayFrom and Tables.SlideBlocked carry no contract of their own. Lemmas state their properties: SquareKeyIsPieceKey, ComputeHashDependsOnPosition with MakeHashConsistent, CastlingEpHashKeys, PseudoLegalMembers with PseudoLegalGenerated, RayFromExact, FreeRayIsEmptyBoardRay and SlideExact.
- Text is a sequence of characters, and the character classes (`IsDigit`, `IsUpper`, `IsSpace`, the piece letters) are those of ASCII. `std::string` holds bytes, so a non-ASCII character spans several bytes in the source and is one character here. For example, a FEN token "ép6" reads differently in the two. Inputs outside ASCII are not modelled.
- Castling through or out of check is generated, as the source does (movegen.cpp:253-264). `MoveGen.CastlingMovesExact` states this; the model does not correct it.
- The 50-move and repetition rules do not exist in the source and are not modelled.

## Findings

| source | as written | input that shows it | evidently intended | confidence | as-written member | corrected member |
|---|---|---|---|---|---|---|
| src/board.cpp:393-397 | UnmakeMove takes any pawn-takes-pawn landing on rank index 2 or 5 for en passant | white pawn e2 takes a black pawn on d3 (Move(12, 19, PAWN, PAWN)): the undo restores the black pawn on d2 | en passant exactly when MakeMove found the destination empty, i.e. the destination is the restored en-passant target | high, not executed | MakeUnmake.AsWrittenCounterexample | MakeUnmake.FixedRoundTrip |
| movegen.cpp:275, 277 | the en-passant square is added for white pawns on rank index 3 with the target on 4, and for black on 4 with the target on 2 | after e2-e4 (target e3, index 20) a black pawn on d5 is offered e3, two ranks down; white is never offered a target MakeMove sets | white pawns on rank index 4 with the target on 5, black on 3 with the target on 2 | high, not executed | MoveGen.BlackEnPassantExample | MoveGen.CorrectedEnPassantAfterDoublePush |
| src/mcts.cpp:336-351 | advance-phase terminal completions are not checked against the iteration budget | batch size 2, one iteration, a root without legal moves: both walkers complete, and rootVisits is 2 | stop completing once completed reaches iterations, as the flush does | medium, not executed | BatchSearch.TerminalsOvercount | BatchSearch.TerminalsCapped |
