# Hibrid-Chess-AI in Dafny

A model of the core of Hibrid-Chess-AI, a chess engine trained first on
master games and then by self-play. The model covers:

- **Moves** (`moves.dfy`): the fixed table of 8064 move indices and the move
  mirroring helpers.
- **Encoding** (`encoding.dfy`): the 64 x 18 feature planes of a position and
  the eight-frame history input of the transformer.
- **Evaluator** (`evaluator.dfy`): how a network policy becomes a distribution
  over the legal moves. There are three variants: the MCTS, the benchmark bot
  and the self-play worker.
- **Mcts** (`mcts.dfy`): the Monte-Carlo tree search. It covers expansion,
  PUCT selection, signed back-up with a running mean, whole simulations, the
  visit-count move distribution and re-rooting.
- **SelfPlay** (`selfplay.dfy`): self-play data generation. It covers the split
  of the games over worker processes, one game with its policy targets and
  outcome labels, the worker loop and its statistics, and the merge of the
  worker outputs.
- **Training** (`training.dfy`): the bookkeeping of the reinforcement training
  loop. It covers resume, per-iteration partition and seeds, statistics merge,
  best-checkpoint and periodic-checkpoint rules.
- **Benchmark** (`benchmark.dfy`): the benchmark of two bots. It covers the
  opening-book choice, raw-policy and search moves, the game loop and the
  winner tally.
- **Pipeline** (`pipeline.dfy`): the supervised PGN pipeline. It covers header
  filters, samples with mirrored copies, opening-book counts, batches, the
  read loop with its game limit, the 80/10/10 split and the final book filter.
- **DataPreparation** (`dataprep.dfy`): the engine-labelled data-preparation
  worker. It covers score scaling, sample extraction, counters, histograms,
  the write buffer and the split.
- **Evaluation** (`evaluation.dfy`): the evaluation metrics. They are
  accuracy, top-5 accuracy, the ten most frequent classes, the confusion
  matrix, and per-class and averaged precision, recall and F1.

`common.dfy` holds shared sequence helpers: sums, counts, means, distinctness
and the first arg-max. `chess.dfy` holds the chess vocabulary: squares, moves,
pieces, an abstract board and the result tag.

The rules of chess, the neural network, the chess engine, the square root and
the exponential are not modelled. Legal-move generation, making a move,
game-over detection, the result string, the network's policy and value, the
engine's score, sqrt and exp enter as function parameters (oracles). Floating
point is modelled as exact `real` arithmetic. Files, HDF5 and JSON output, the
clock, randomness, process pools and the Qt signals are left out.

Where the network is consulted, a model parameter stands for what the code
computes from it: a policy vector, a value, a sampled move.

Python dictionaries built by iteration are modelled as sequences of pairs in
insertion order. Parent links of the search tree become paths of child
positions from the root.

The search's terminal leaf value and the self-play outcome labels are
modelled as the source writes them (`Mcts.Simulate`, `SelfPlay.GameOutcome`).
Both look like defects; the corrected versions sit beside them
(`Mcts.SimulateIntended`, `SelfPlay.GameOutcomeIntended`) and the section
"Findings" below explains each.

## Model

| member | source | states |
|---|---|---|
| Moves.IndexOf | src/utils/chess_utils.py:14-27 | A move has no index exactly when it does one of three things: uses the same square twice, promotes to a pawn or a king, or promotes onto a square that is not on the first or last rank. |
| Moves.MoveByIndex | src/utils/chess_utils.py:23-26 | get_move_by_index finds a move exactly for 0 <= i < 8064, and the move it finds has index i again. |
| Moves.IndexOfMoveAt | src/utils/chess_utils.py:23-27 | Round trip over the whole index range: the index of the move at position i is i. |
| Moves.MoveAtIndexOf | src/utils/chess_utils.py:23-27 | Round trip over the moves: every indexed move is found again at its index. |
| Moves.MoveByIndexOfMove | src/utils/chess_utils.py:26-27 | get_move_by_index(get_index_by_move(m)) == m for every move that has an index. |
| Moves.IndexInjective | src/utils/chess_utils.py:24 | Two moves with the same index are the same move, so INDEX_MAPPING loses no entry of MOVE_MAPPING. |
| Moves.EnumerationMatches | src/utils/chess_utils.py:16-25 | The product enumeration over the square list has exactly 8064 entries, and they are pairwise distinct. Entry i is the move the closed-form decoder gives for i. |
| Moves.EnumerationAt | src/utils/chess_utils.py:16-23 | Position i of the enumeration is within the table and holds the decoded move of i. |
| Moves.SquareMirror | src/utils/chess_utils.py:41 | square_mirror keeps the file and mirrors the rank. |
| Moves.FlipMove | src/utils/chess_utils.py:40-41 | flip_move mirrors the rank of both squares, keeps their files and keeps the promotion. |
| Moves.FlipMoveInvolution | src/utils/chess_utils.py:40-41 | Flipping a move twice gives the move back. |
| Moves.FlipMoveMapped | src/utils/chess_utils.py:40-41 | A move has an index exactly when its flipped move has one. |
| Moves.MirrorMoveRank | src/utils/chess_utils.py:49-54 | mirror_move_rank mirrors the ranks, exchanges origin and destination, and keeps the promotion. |
| Moves.MirrorMoveRankInvolution | src/utils/chess_utils.py:49-54 | mirror_move_rank applied twice gives the move back. |
| Encoding.PieceCode | src/utils/chess_utils.py:58-61 | The plane of a piece is below 12, and below 6 exactly for a white piece. |
| Encoding.PieceCodeInverse | src/utils/chess_utils.py:58-61 | The piece map is injective: the plane number determines the piece type and colour. |
| Encoding.PiecePlanesOneHot | src/utils/chess_utils.py:62-65 | An occupied square has exactly its own piece's plane set among planes 0..11, and an empty square has none. |
| Encoding.SetColumnIf | src/utils/chess_utils.py:66-82 | x[:, i] = 1 sets column i on every square when the flag holds and changes nothing else. |
| Encoding.SetEnPassant | src/utils/chess_utils.py:68-70 | Only plane 13 of the en-passant square is set, and only when there is one. |
| Encoding.PiecePlanes | src/utils/chess_utils.py:57-65 | After the loop over the piece map, planes 0..11 of each square hold the one-hot piece code and the other planes are 0. |
| Encoding.ConvertSingleBoard | src/utils/chess_utils.py:56-83 | convert_single_board yields the 64 x 18 planes: pieces, side to move, en passant and the four castling rights. |
| Encoding.PlanesInjective | src/utils/chess_utils.py:56-83 | The encoding loses nothing: two boards with the same planes are equal. |
| Encoding.FramesShape | src/utils/chess_utils.py:85-95 | The eight frames end with the current position. With eight or more positions they are the last eight. With fewer, the oldest is repeated at the front. |
| Encoding.HistoryFrames | src/utils/chess_utils.py:86-95 | The pop-then-pad loops collect exactly those eight frames. |
| Encoding.PaddedFrames | src/utils/chess_utils.py:94-95 | Padding the popped positions with copies of the oldest until there are eight gives the frames. |
| Encoding.TransformerInputLayout | src/utils/chess_utils.py:96 | The concatenation has 64 rows of 144 values, and column 18k + i of square s is plane i of frame k. |
| Encoding.TransformerInputDeterminesCurrent | src/utils/chess_utils.py:85-96 | Two histories with the same transformer input end in the same current position. |
| Evaluator.Floored | src/training/reinforcement/mcts.py:48-49 | Every legal move gets at least 1e-8, whether it is mapped or not. |
| Evaluator.SearchPriors | src/training/reinforcement/mcts.py:42-58 | _policy_value_fn gives each legal move, in order, a positive prior. With a legal move the priors sum to 1. |
| Evaluator.RawPositive | src/training/reinforcement/mcts.py:52-57 | The floored total is positive whenever there is a legal move, so the uniform fallback is never reached. |
| Evaluator.NormaliseSum | src/training/reinforcement/mcts.py:52-54 | Dividing each weight by the total divides their sum by the total. |
| Evaluator.SearchPriorsMonotone | src/training/reinforcement/mcts.py:47-54 | A larger floored policy value never gets a smaller prior. |
| Evaluator.BoardActionProbs | src/analysis/benchmark/benchmark_worker.py:47-89 | The bot's action probabilities are empty exactly without a model or without a legal move. Otherwise they range over the legal moves and sum to 1. |
| Evaluator.WorkerPriors | src/reinforcement/reinforcement_training_worker.py:54-71 | The self-play worker's priors range over the legal moves and are all positive. |
| Evaluator.WorkerPriorsSum | src/reinforcement/reinforcement_training_worker.py:57-68 | Unmapped moves get 1e-8 but are left out of the total. So with a mapped move the priors sum to 1 + 1e-8 n / total, and that is 1 exactly when no legal move is unmapped. |
| Evaluator.WorkerPriorsUniform | src/reinforcement/reinforcement_training_worker.py:63-70 | With no mapped legal move the total is 0 and every legal move gets 1 / n, which sums to 1. |
| Mcts.AddChild | src/training/reinforcement/mcts.py:9-13 | A child is added only for a new move with a positive prior. The new child is a fresh node on the position after the move, the old children are kept, and the child moves stay distinct. |
| Mcts.ExpandChildrenAdded | src/training/reinforcement/mcts.py:8-13 | Every child that expand adds is a fresh node for a move that was not a child before. It has a positive prior, and the pair is an entry of the priors. |
| Mcts.ExpandChildrenComplete | src/training/reinforcement/mcts.py:8-13 | Every entry of the priors with a positive prior is a child after expand. |
| Mcts.Expand | src/training/reinforcement/mcts.py:8-13 | expand changes only the children: prior, visits, Q and board are kept. |
| Mcts.Select | src/training/reinforcement/mcts.py:15-25 | select returns nothing exactly for a childless node. Otherwise it returns the first child of maximal Q + c P sqrt(N_parent) / (1 + N). |
| Mcts.Descend | src/training/reinforcement/mcts.py:66-69 | The selection loop follows a valid path to a node without children, and the path is empty exactly when the root has none. |
| Mcts.QUpdateMean | src/training/reinforcement/mcts.py:30-31 | The incremental update keeps Q equal to the mean of every value the node has received. |
| Mcts.Backup | src/training/reinforcement/mcts.py:27-31 | update_recursive gives every node on the path one more visit. Values alternate in sign from the leaf up. Nodes off the path and all child moves are unchanged. |
| Mcts.BackupAlongPath | src/training/reinforcement/mcts.py:27-31 | The node at depth d of the path gains one visit and is updated with v signed by its distance to the leaf. |
| Mcts.TerminalValueAsWrittenWrong | src/training/reinforcement/mcts.py:73-76 | As written, a position White has just mated is backed up as -1 for White's mating move. |
| Mcts.TerminalValueIntended | src/training/reinforcement/mcts.py:71-76 | With the side-to-move terminal value, the backed-up leaf value is the outcome for the player who made the last move. |
| Mcts.ExpandAt | src/training/reinforcement/mcts.py:71-72 | Expanding the leaf at the end of a path changes nothing above it. The root's child moves and child visit counts are kept. |
| Mcts.Playout | src/training/reinforcement/mcts.py:70-76 | The root gains one visit. Along a non-empty path the root keeps its children's moves, the child on the path gains one visit and every other child is unchanged. |
| Mcts.Simulate | src/training/reinforcement/mcts.py:66-76 | One simulation adds one visit to the root, and one to its children in total, without changing the root's child moves. |
| Mcts.SimulateOver | src/training/reinforcement/mcts.py:70-76 | When the leaf is a finished game, the simulation does not expand it and only backs up minus the result in White's view. |
| Mcts.SimulateTerminalLeaf | src/training/reinforcement/mcts.py:70-76 | When the leaf is a finished game, the leaf gains one visit and its Q moves toward minus the result in White's view, whoever moved into it. |
| Mcts.SimulateIntended | src/training/reinforcement/mcts.py:66-76 | The corrected simulation keeps the same visit accounting as the one written. |
| Mcts.SimulateIntendedTerminalLeaf | src/training/reinforcement/mcts.py:70-76 | With the corrected terminal value, a finished leaf's Q moves toward the outcome for the player who moved into it. |
| Mcts.PlayoutOver | src/training/reinforcement/mcts.py:70-76 | A finished game is not expanded; the play-out only backs up minus the terminal value. |
| Mcts.BackupLeaf | src/training/reinforcement/mcts.py:27-31 | The node at the end of the path gains one visit and is updated with v itself. |
| Mcts.RunConservation | src/training/reinforcement/mcts.py:66-76 | After n simulations on a root with children, the root has n more visits and so do its children together. |
| Mcts.SetRootNode | src/training/reinforcement/mcts.py:60-63 | set_root_node makes an unvisited root with prior 1 on the board. Its children are unvisited legal moves, and every legal move is a child. |
| Mcts.FreshRootConservation | src/training/reinforcement/mcts.py:60-76 | After set_root_node and n simulations, the root's visits and its children's visit counts both add up to n. |
| Mcts.FindChild | src/training/reinforcement/mcts.py:91-92 | The lookup finds the first child reached by the move, and nothing exactly when the move is not a child. |
| Mcts.UpdateWithMove | src/training/reinforcement/mcts.py:90-97 | An existing child becomes the root with its statistics and subtree untouched. Otherwise the root is a fresh node on the position after the move. |
| Mcts.UpdateWithMoveChild | src/training/reinforcement/mcts.py:90-93 | With distinct child moves, the new root is the child for that move. |
| Mcts.ExpWeights | src/training/reinforcement/mcts.py:86 | The tempered visit weights are positive, one per child. |
| Mcts.MoveProbs | src/training/reinforcement/mcts.py:77-88 | get_move_probs returns one entry per root child and sums to 1 when there is a child. At low temperature all mass is on the first most visited child; otherwise every child gets a positive share. |
| Mcts.MoveProbsMonotone | src/training/reinforcement/mcts.py:85-87 | Above the low temperature, more visits never give a smaller probability. |
| SelfPlay.Split | src/reinforcement/reinforcement_training_worker.py:369-388 | The per-process game counts add up to the games of the iteration and differ by at most one. The extra games go to the lowest indices. |
| SelfPlay.Seeds | src/reinforcement/reinforcement_training_worker.py:384 | The worker seeds are distinct and start at random_seed. |
| SelfPlay.PolicyTarget | src/reinforcement/reinforcement_training_worker.py:93-100 | The dense policy target has one entry per move of the table. |
| SelfPlay.PolicyTargetUnmapped | src/reinforcement/reinforcement_training_worker.py:93-100 | An index no returned move maps to stays 0. |
| SelfPlay.PolicyTargetMapped | src/reinforcement/reinforcement_training_worker.py:93-100 | With distinct moves, each mapped move's probability sits at its index. |
| SelfPlay.Labels | src/reinforcement/reinforcement_training_worker.py:110-118 | Corrected labels: without checkmate every label is 0. On checkmate the winner's positions are labelled 1 and the loser's -1. |
| SelfPlay.LabelsAsWrittenWrong | src/reinforcement/reinforcement_training_worker.py:110-118 | As written, after Black mates, Black's positions are labelled -1 and White's +1. |
| SelfPlay.LabelsAgreeWhenWhiteMates | src/reinforcement/reinforcement_training_worker.py:110-118 | When White mates, the written labels equal the corrected ones. |
| SelfPlay.LabelsAlternate | src/reinforcement/reinforcement_training_worker.py:110-118 | When the players alternate, consecutive labels alternate in sign, both as written and corrected. |
| SelfPlay.PlayLoop | src/reinforcement/reinforcement_training_worker.py:85-108 | The game loop only appends to the records, records no finished position, and stops early only at game over. |
| SelfPlay.PlayGame | src/reinforcement/reinforcement_training_worker.py:77-108 | A game records at most 200 positions, each with a full policy target and a side-to-move flag. A game that ends before the cap ends at game over. A game over at the start records nothing. |
| SelfPlay.GameOutcome | src/reinforcement/reinforcement_training_worker.py:110-122 | The result is 1, -1 or 0 and the length is at most 200. Labels are 0 without checkmate. On checkmate, as written, White's positions are labelled 1 and Black's -1, whoever mated. |
| SelfPlay.GameOutcomeIntended | src/reinforcement/reinforcement_training_worker.py:110-122 | With the corrected labels, on checkmate the mating side's positions are labelled 1 and the mated side's -1. |
| SelfPlay.LabelsAsWritten | src/reinforcement/reinforcement_training_worker.py:110-118 | Labels are 0 without checkmate. On checkmate White's positions get 1 and Black's -1, whichever side mated. |
| SelfPlay.WorkerLoop | src/reinforcement/reinforcement_training_worker.py:73-75 | The worker plays at most its share of games, and stops early only when the stop flag is set. |
| SelfPlay.WorkerLoopGames | src/reinforcement/reinforcement_training_worker.py:73-75 | The j-th game returned is the j-th game played, and its stop flag was clear. |
| SelfPlay.Collect | src/reinforcement/reinforcement_training_worker.py:124-129 | The extend/append calls keep the lists aligned, with one result and one length per game, in game order. |
| SelfPlay.StatsPartition | src/reinforcement/reinforcement_training_worker.py:131-144 | Wins, losses and draws add up to total_games. Without games both averages are 0. |
| SelfPlay.WorkerStatsOf | src/reinforcement/reinforcement_training_worker.py:73-144 | At most the assigned games are counted, wins + losses + draws is total_games, and avg_mcts_visits is the mean of the played games' own averages (0 without games). |
| SelfPlay.RunWorker | src/reinforcement/reinforcement_training_worker.py:73-129 | A worker returns aligned lists for at most its assigned games, and result j is game j's. |
| SelfPlay.MergeAligned | src/reinforcement/reinforcement_training_worker.py:413-419 | Merging aligned worker outputs keeps inputs, policy targets and value targets aligned. |
| SelfPlay.MergeAppend | src/reinforcement/reinforcement_training_worker.py:413-421 | The merge is concatenation in worker order: merging two runs of workers joins their merges. |
| SelfPlay.MergeResults | src/reinforcement/reinforcement_training_worker.py:413-421 | The merged results hold at most one result per game assigned. |
| SelfPlay.Worker | src/self_play/self_play_trainer.py:245-259 | Worker i returns aligned lists for at most its share of the games: nothing when its stop flag is set throughout, its whole share when the flag stays clear. |
| SelfPlay.Round | src/self_play/self_play_trainer.py:247-263 | The pool has one aligned output per process, each within that process's share. |
| SelfPlay.RoundBound | src/self_play/self_play_trainer.py:247-263 | An iteration never collects more games than were requested. |
| SelfPlay.Generate | src/self_play/self_play_trainer.py:270-291 | Results and lengths are appended to the running lists. Without positions no data is returned and the counter is unchanged. Otherwise the merged data is returned and the counter grows by the requested games. |
| SelfPlay.RoundCountsGames | src/self_play/self_play_trainer.py:236-290 | The pool's stop event is copied from the trainer's once, before the pool starts. So a round either collects nothing and leaves the counter unchanged, or collects every requested game and the counter grows by exactly the games collected. |
| SelfPlay.RunWorkerUniform | src/reinforcement/reinforcement_training_worker.py:73-75 | A worker whose stop flag is set throughout returns nothing; one whose flag stays clear plays every game it was given. |
| SelfPlay.MergeEmpty | src/self_play/self_play_trainer.py:270-286 | Merging workers that returned nothing gives no positions. |
| SelfPlay.MergeResultsExact | src/self_play/self_play_trainer.py:270-279 | When each worker returns exactly its share, the merged results number the total of the shares. |
| Training.StartIteration | src/training/reinforcement/reinforcement_training_worker.py:91-106 | A fresh start, or a checkpoint without an iteration, starts at 1. A resume starts after the checkpoint's iteration. |
| Training.Iterations | src/training/reinforcement/reinforcement_training_worker.py:122-127 | A start past the configured number raises. Otherwise the iterations run from start to num in order. |
| Training.ResumeRunsTheRest | src/training/reinforcement/reinforcement_training_worker.py:105-127 | A fresh run trains every iteration when there is one, and resuming from iteration c runs exactly c + 1 .. num. |
| Training.ResumeAfterFinishRaises | src/training/reinforcement/reinforcement_training_worker.py:262-268 | The final save records iteration num, so resuming from it raises. |
| Training.Partition | src/training/reinforcement/reinforcement_training_worker.py:131-141 | The games of min(threads, cpus) processes add up to the total and differ by at most one. No process means the divmod raises. |
| Training.IterationSeeds | src/training/reinforcement/reinforcement_training_worker.py:134-137 | The seeds of an iteration are pairwise distinct, and seed i is offset by i. |
| Training.MergeReports | src/training/reinforcement/reinforcement_training_worker.py:165-181 | total_games is the number of merged results. The average length times the number of lengths is their total, it is non-negative, and it is 0 without games. |
| Training.AccumulateAppend | src/training/reinforcement/reinforcement_training_worker.py:165-175 | Merging one more report appends its results and lengths and adds its wins, losses and draws. |
| Training.AccumulateConsistent | src/training/reinforcement/reinforcement_training_worker.py:165-177 | Merging consistent reports gives counters that count the merged results. |
| Training.AccumulateOrder | src/training/reinforcement/reinforcement_training_worker.py:165-175 | The merged results and lengths extend those of any prefix of the workers. |
| Training.MergeReportsBounds | src/training/reinforcement/reinforcement_training_worker.py:171-181 | The average length is at most the move cap, and wins + losses + draws == total_games. |
| Training.TrackIsFirstMinimum | src/training/reinforcement/reinforcement_training_worker.py:239-249 | best_metric is the minimum of the metrics and best_iteration the first iteration reaching it. Without a finite metric best_metric stays inf and no best checkpoint is saved. |
| Training.TrackNonIncreasing | src/training/reinforcement/reinforcement_training_worker.py:244-246 | best_metric never increases from one iteration to the next. |
| Training.TrackSaves | src/training/reinforcement/reinforcement_training_worker.py:244-249 | Best checkpoints are saved at increasing iterations of the run, and the last one saved is best_iteration. |
| Training.PeriodicSaves | src/training/reinforcement/reinforcement_training_worker.py:251-254 | Only iterations divisible by a positive interval save a periodic checkpoint. |
| Training.PeriodicSaveCount | src/training/reinforcement/reinforcement_training_worker.py:251-254 | A run of n iterations saves n / interval periodic checkpoints, and none for an interval <= 0. |
| Benchmark.BookScore | src/analysis/benchmark/benchmark_worker.py:171-176 | The score of a book move is in [0, 1], and exactly 1 when it never drew or lost. |
| Benchmark.BookScan | src/analysis/benchmark/benchmark_worker.py:162-186 | The loop picks a valid legal move of highest score, the first on a tie, and nothing exactly when no entry is a candidate. |
| Benchmark.BookMove | src/analysis/benchmark/benchmark_worker.py:156-186 | The book move is legal and scores highest among the position's candidates. It is null when the position or every candidate is missing. |
| Benchmark.PthMove | src/analysis/benchmark/benchmark_worker.py:91-109 | The raw-policy move is null exactly without a model or a legal move, and is legal otherwise. |
| Benchmark.PthMoveIsPolicyArgMax | src/analysis/benchmark/benchmark_worker.py:102-108 | Normalising does not move the arg-max: the choice is the first legal move of maximal floored policy. |
| Benchmark.MctsMove | src/analysis/benchmark/benchmark_worker.py:115-135 | The searched move is null exactly without a search tree or without root children. Otherwise it is a root child. |
| Benchmark.MctsMoveAsWritten | src/analysis/benchmark/benchmark_worker.py:115-135 | As written, get_move_mcts raises exactly when a search bot has a model, the game is not over and the timed loop runs; otherwise it returns the intended move. |
| Benchmark.MctsMoveAsWrittenRaises | src/analysis/benchmark/benchmark_worker.py:121-126 | With time for one simulation and a legal move, the search bot as written raises, where the intended search returns a legal move. |
| Benchmark.MctsMoveMostVisited | src/analysis/benchmark/benchmark_worker.py:128-134 | With a legal move, the searched move is legal and is the first most visited root child. |
| Benchmark.SearchedRootMoves | src/analysis/benchmark/benchmark_worker.py:120-128 | With a legal move, the searched root has children and all of them are legal moves. |
| Benchmark.LowTemperatureChoice | src/training/reinforcement/mcts.py:82-84 | At temperature 1e-3 the arg-max of the distribution is the first most visited child. |
| Benchmark.GetMove | src/analysis/benchmark/benchmark_worker.py:137-154 | get_move falls back in order: book then search, search only, book only, raw policy. |
| Benchmark.GetMoveLegal | src/analysis/benchmark/benchmark_worker.py:137-154 | Every move a bot plays is legal. A bot failing validation never moves, and neither does a search-only bot without a model. |
| Benchmark.PlayGame | src/analysis/benchmark/benchmark_worker.py:311-323 | The loop stops only at game over, on the stop flag or on a null move. |
| Benchmark.HeaderMatchesWinner | src/analysis/benchmark/benchmark_worker.py:283-288 | The Result header and _determine_winner agree. Bot1 wins exactly on 1-0, and an unfinished game is recorded as a draw. |
| Benchmark.Aggregate | src/analysis/benchmark/benchmark_worker.py:290-296 | Bot1 wins, Bot2 wins and draws add up to the games recorded, and total_games is the configured number. |
| Benchmark.GamesFrom | src/analysis/benchmark/benchmark_worker.py:235-260 | A stop before any remaining game ends without a tally. Otherwise every game's winner is recorded in order. |
| Benchmark.RunBenchmark | src/analysis/benchmark/benchmark_worker.py:226-268 | A tally is emitted exactly when both bots are valid and no stop is seen. |
| Benchmark.RunBenchmarkComplete | src/analysis/benchmark/benchmark_worker.py:259-268 | An emitted tally covers every configured game. |
| Pipeline.GameValue | src/pipelines/data.py:98-102 | A result has a value exactly when it is 1-0, 0-1 or 1/2-1/2, and the value is 1, -1 or 0. |
| Pipeline.Screen | src/pipelines/data.py:87-102 | A game is accepted exactly when all of these hold: it is no variant, neither player is a BOT, both Elos parse and lie in range, and the result is decisive or drawn. |
| Pipeline.Extract | src/pipelines/data.py:114-163 | At most two samples per move. Book positions are recorded only within the first opening_max_moves and only when a book is generated. |
| Pipeline.ExtractLabels | src/pipelines/data.py:134-138 | Each sample's value is the game value for the side to move of the encoded board, and its policy is the move's index. |
| Pipeline.ExtractPaired | src/pipelines/data.py:140-159 | With augmentation each sample is followed by its mirror (mirrored move, negated value). Without augmentation there is none. |
| Pipeline.ExtractSteps | src/pipelines/data.py:119-132 | An illegal move ends the game. An unmapped legal move adds no sample and play continues after it. |
| Pipeline.ProcessGame | src/pipelines/data.py:86-201 | A game is processed exactly when it passes the screen, and then carries its two in-range ratings. A skipped game yields nothing. |
| Pipeline.MoverSideMeaning | src/pipelines/data.py:172-188 | The mover's outcome is a win for the winner's moves, a loss for the loser's, and a draw otherwise. |
| Pipeline.RecordAllCounts | src/pipelines/data.py:170-197 | Each recorded position adds exactly one game to its move's entry, and an ECO or name once set is never replaced. |
| Pipeline.RecordOneEntry | src/pipelines/data.py:179-197 | Recording a position changes only its own move's entry. |
| Pipeline.RecordOneSide | src/pipelines/data.py:185-190 | After 1-0, White's positions gain a win and Black's a loss. |
| Pipeline.BumpKeeps | src/pipelines/data.py:192-197 | A non-empty ECO or opening name is kept. |
| Pipeline.FilterBook | src/pipelines/data.py:452-462 | The filtered book holds exactly the moves with at least opening_min_games games, unchanged, and no empty position. |
| Pipeline.ProcessBatch | src/pipelines/data.py:215-225 | Processed and skipped games add up to the batch size. |
| Pipeline.ProcessBatchContents | src/pipelines/data.py:203-227 | The batch holds every game's samples in order and two ratings per processed game, and processed counts the accepted games. |
| Pipeline.WriteBatch | src/pipelines/data.py:229-268 | An empty or failed write leaves the dataset size alone, and a successful one grows it by the batch size. |
| Pipeline.Reading | src/pipelines/data.py:342-380 | Every game read is processed or skipped, and reading stops before the end of the file only once the limit is reached. |
| Pipeline.Flush | src/pipelines/data.py:382-402 | The last partial batch accounts for every pending game. |
| Pipeline.Run | src/pipelines/data.py:342-402 | The whole read processes fewer than max_games + 50 games (one batch past the limit at most), and stops before the end of the file only at the limit. |
| Pipeline.CreateSplits | src/pipelines/data.py:270-286 | No split for an empty dataset. Otherwise the permutation splits into consecutive parts of floor(0.8 n), then up to floor(0.9 n), then the rest. |
| Pipeline.SplitsPartition | src/pipelines/data.py:276-286 | The three parts together hold the permutation exactly, as multisets. |
| DataPreparation.ClampCp | src/data_processing/data_preparation/data_preparation_worker.py:156 | The clamp keeps a score in [-1000, 1000] and saturates outside. |
| DataPreparation.ScoreValue | src/data_processing/data_preparation/data_preparation_worker.py:148-157 | A value is in [-1, 1]. A mate is 1 for the side to move and -1 against it. |
| DataPreparation.EvaluatePosition | src/data_processing/data_preparation/data_preparation_worker.py:142-157 | Without an engine the value is 0. Otherwise it is the scaled score from the side to move's view. |
| DataPreparation.CentipawnsScaled | src/data_processing/data_preparation/data_preparation_worker.py:155-157 | A score within ±1000 is kept exactly (value × 1000 gives it back), and a score beyond saturates. |
| DataPreparation.CentipawnsMonotone | src/data_processing/data_preparation/data_preparation_worker.py:150-157 | Better centipawns never give a lower value, and no centipawn score outranks a mate. |
| DataPreparation.ExtractMoveDataCount | src/data_processing/data_preparation/data_preparation_worker.py:203-235 | Every mapped move gives two samples and an unmapped one none. A game has no sample exactly when no move is mapped. |
| DataPreparation.ExtractMoveDataShape | src/data_processing/data_preparation/data_preparation_worker.py:208-233 | Each policy target is its move's index, and each sample carries its position's value. Each is followed by its mirror with the flipped move and negated value. |
| DataPreparation.ExtractMoveDataBounded | src/data_processing/data_preparation/data_preparation_worker.py:215-231 | Every value target lies in [-1, 1]. |
| DataPreparation.ProcessGame | src/data_processing/data_preparation/data_preparation_worker.py:159-201 | An entry has samples, the game's length, its parsed result and the mean of the two ratings. |
| DataPreparation.ProcessGameAccepts | src/data_processing/data_preparation/data_preparation_worker.py:165-197 | An entry exists exactly when both ratings are integers, the result parses and some move is mapped. |
| DataPreparation.Arange | src/data_processing/data_preparation/data_preparation_worker.py:36-38 | np.arange lists start + k step for every k up to, but not including, stop. |
| DataPreparation.Digitize | src/data_processing/data_preparation/data_preparation_worker.py:292 | np.digitize counts the edges not above x. |
| DataPreparation.DigitizeBin | src/data_processing/data_preparation/data_preparation_worker.py:292-294 | digitize - 1 is a bin exactly when x lies between the first and last edge, and then that bin's edges enclose x. |
| DataPreparation.LengthBinIndex | src/data_processing/data_preparation/data_preparation_worker.py:290-294 | The length bin is n / 5 below 195 moves, and 39 (past the histogram) from 195 on. |
| DataPreparation.RatingBinIndex | src/data_processing/data_preparation/data_preparation_worker.py:296-300 | A mean rating has a bin exactly in [1000, 2950), and bin k covers [1000 + 50k, 1050 + 50k). |
| DataPreparation.AddToBinCounts | src/data_processing/data_preparation/data_preparation_worker.py:293-294 | The histogram total grows by one exactly when the index names a bin, and only that bin changes. |
| DataPreparation.UpdateHistogramsCounts | src/data_processing/data_preparation/data_preparation_worker.py:290-300 | A game counts in the length histogram exactly below 195 moves, and in the rating histogram exactly for a mean rating in [1000, 2950). |
| DataPreparation.UpdateHistogramsPlace | src/data_processing/data_preparation/data_preparation_worker.py:290-300 | Only the bins enclosing the game's length and rating change, each by one. |
| DataPreparation.Tally | src/data_processing/data_preparation/data_preparation_worker.py:251 | Counting a result adds exactly one to the three counters together. |
| DataPreparation.Record | src/data_processing/data_preparation/data_preparation_worker.py:249-257 | The counters take the game and its samples join the buffer, keeping the bookkeeping consistent. |
| DataPreparation.WriteBuffer | src/data_processing/data_preparation/data_preparation_worker.py:263-288 | On a successful write the buffer is appended to the dataset and cleared, and the size grows by its length. On a failed write nothing but the attempt count changes. |
| DataPreparation.ProcessDataEntry | src/data_processing/data_preparation/data_preparation_worker.py:237-261 | An entry without samples changes nothing. Otherwise written + buffered grows by exactly its samples and the result is tallied. A buffer that reaches the batch size is written, and is empty afterwards exactly when that write succeeds. |
| DataPreparation.Reading | src/data_processing/data_preparation/data_preparation_worker.py:80-117 | The loop never counts past max_games, keeps the bookkeeping consistent, and tallies one result per counted game. |
| DataPreparation.ReadingKeepsAll | src/data_processing/data_preparation/data_preparation_worker.py:80-117 | Without a stop and within the limit, every admitted, processed game is counted and its samples are stored in file order. |
| DataPreparation.KeptAdmitted | src/data_processing/data_preparation/data_preparation_worker.py:95-116 | Every counted entry comes from a game that passed the rating check. |
| DataPreparation.RunTask | src/data_processing/data_preparation/data_preparation_worker.py:48-134 | Every counted sample is written or still buffered. Samples stay buffered only when the last write failed, so when every write succeeds the dataset size equals total_samples. At most max_games games are counted, results add up to them, and the split runs exactly when not stopped. |
| DataPreparation.SplitCoversOnce | src/data_processing/data_preparation/data_preparation_worker.py:322-336 | Every shuffled index lands in exactly one of train, validation and test. |
| Evaluation.TopKAtLeastMatches | src/evaluation/evaluation_worker.py:103-106 | When each arg-max prediction is in its top-k list, exact matches are at most top-k hits. |
| Evaluation.TopKAccuracyAtLeast | src/evaluation/evaluation_worker.py:103-106 | Under that condition top-k accuracy is at least accuracy. |
| Evaluation.Classes | src/evaluation/evaluation_worker.py:109 | The Counter's keys are the distinct actual classes, in order of first occurrence. |
| Evaluation.MostCommon | src/evaluation/evaluation_worker.py:109-110 | most_common(10) keeps min(10, #classes) distinct classes by non-increasing count, and no class left out is more frequent than one kept. |
| Evaluation.SelectRanked | src/evaluation/evaluation_worker.py:110 | Selecting n of distinct candidates gives distinct candidates by non-increasing count, none left out counting more than one kept. |
| Evaluation.SelectWithin | src/evaluation/evaluation_worker.py:110 | Only candidates are selected. |
| Evaluation.SelectTies | src/evaluation/evaluation_worker.py:110 | When the candidates are listed in order of first occurrence, selected candidates of equal count keep that order, and a candidate left out occurs after every selected one of its count. |
| Evaluation.MostCommonTies | src/evaluation/evaluation_worker.py:109-110 | most_common breaks ties by first occurrence in the actuals: of two kept classes with the same count the earlier one comes first, and a class left out occurs after every kept class of its count. |
| Evaluation.RemoveAtInOrder | src/evaluation/evaluation_worker.py:110 | Taking one candidate out keeps the others in order and leaves out only that one. |
| Evaluation.FilterSupport | src/evaluation/evaluation_worker.py:111-113 | Filtering keeps every occurrence of a kept class and none of the others. |
| Evaluation.LabelIndex | src/evaluation/evaluation_worker.py:150 | label_to_index finds a position of the label exactly for a label in the list. |
| Evaluation.ConfusionCell | src/evaluation/evaluation_worker.py:149-155 | Cell (i, j) counts the pairs with actual label i and predicted label j. |
| Evaluation.ConfusionTotals | src/evaluation/evaluation_worker.py:149-155 | The matrix holds every pair with both classes kept, and its diagonal the correct ones. |
| Evaluation.TalliesCount | src/evaluation/evaluation_worker.py:159-169 | tp, fp and fn of each label count the pairs it got right, wrongly predicted and missed. |
| Evaluation.SupportSplit | src/evaluation/evaluation_worker.py:159-169 | tp + fn equals the label's support. |
| Evaluation.Ratio | src/evaluation/evaluation_worker.py:174-175 | A guarded ratio is in [0, 1], 0 exactly when the numerator is 0, and n / d otherwise. |
| Evaluation.F1 | src/evaluation/evaluation_worker.py:176-179 | F1 satisfies f (p + r) = 2 p r, and is 0 when p + r is 0. |
| Evaluation.F1Between | src/evaluation/evaluation_worker.py:176-179 | F1 lies between precision and recall, so in [0, 1]. |
| Evaluation.ClassRow | src/evaluation/evaluation_worker.py:173-179 | Precision times (tp + fp) is tp, recall times (tp + fn) is tp, and every score is in [0, 1]. |
| Evaluation.WeightedMean | src/evaluation/evaluation_worker.py:183-186 | A support-weighted mean of scores in [0, 1] is in [0, 1], 0 without support, and otherwise times the total support equals the sum of score times support. |
| Evaluation.Averages | src/evaluation/evaluation_worker.py:180-186 | The macro row holds the plain means and the weighted row the support-weighted means; both are in range and their support is the total. |
| Evaluation.ClassificationReport | src/evaluation/evaluation_worker.py:157-206 | One in-range row per label with its support, the macro row of plain means and the weighted row of support-weighted means. |
| Evaluation.ReportRow | src/evaluation/evaluation_worker.py:159-179 | Each report row is the row of the label's true tp, fp and fn, with support tp + fn. |
| Evaluation.SupportsTotal | src/evaluation/evaluation_worker.py:183 | With distinct labels that cover every pair, the supports add up to the number of pairs. |
| Evaluation.ReportCoverage | src/evaluation/evaluation_worker.py:183-198 | Each row's support is the label's count among all actuals, and total support is the number of filtered pairs. |
| Evaluation.ComputeMetrics | src/evaluation/evaluation_worker.py:99-116 | With no position the division fails. Otherwise accuracy and top-k accuracy are the hit rates, over the ten most common classes with a square confusion matrix and one row per class. |
| Evaluation.MetricsCoverage | src/evaluation/evaluation_worker.py:108-116 | The report and the matrix cover every filtered position of the kept classes, with the correct ones on the diagonal. |

## Left out

- The neural networks (ChessModel, TransformerChessModel), softmax and the tensors are not modelled. A policy vector and a value are oracle results, and a recorded sample keeps the board it encodes instead of its tensor.
- The rules of chess (python-chess) are oracles: legal moves, push, game over, checkmate, result, FEN and mirroring the board. So are the UCI engine's score, math.sqrt and np.exp.
- Floating point is modelled as exact reals. The 1e-8 floor, the float32 arrays and the rounding of int(n * 0.8) and int(n * 0.9) (taken as n * 8 / 10 and n * 9 / 10) are therefore not bit-exact.
- Files, HDF5 resizing, JSON and PGN output, wandb, logging, progress and Qt signals are left out. Whether an HDF5 write succeeds is an input: a flag for the pipeline's writes, and for the data-preparation worker an oracle on the attempt number (DataPreparation.Settings.writeOk), where a failed write leaves the dataset size and the buffer unchanged. The data-preparation worker's every-500-games statistics emit is not modelled.
- Process pools, Manager events and the pause event are not modelled. Workers run one after the other, and the stop event is a function of the worker and the game index that a worker reads before each game. The trainer copies its own stop event into the pool's event once per round, before the pool starts (src/self_play/self_play_trainer.py:236-237); SelfPlay.RoundCountsGames takes that as a flag with one value for the whole round, so a stop set while the pool runs is not modelled.
- The ThreadPoolExecutor of process_batch (src/pipelines/data.py:212-213) is not modelled. The batch's games are processed one after the other in batch order; executor.map returns the results in that order, so the merged lists agree with the source. The opening-book updates of concurrent threads are not modelled: the model's counts assume no lost `+= 1` and its first ECO and name are those of the first game in batch order, where the source takes whichever thread writes first.
- Pipeline.RecordAllCounts: states the book's counts and ECO/name for sequential processing of the batch. Under the source's thread pool, interleaved updates could lose a count or record another game's ECO and name first; this is not modelled.
- The random move choice, the random permutations and the clock are not modelled. Permutations and seeds are inputs; the clock enters the iteration seeds as a number.
- src/utils/chess.py (BoardHistory, board_to_input, get_move_map) is not part of this model. The supervised pipeline's move map is modelled by the table of src/utils/chess_utils.py.
- src/utils/mcts.py, src/self_play/self_play.py and src/training/reinforcement/play_and_collect_worker.py are not part of this model. Their search and game play are oracles or inputs (SelfPlay.GameOracles, Training.Report).
- src/utils/common_utils.py (parse_game_result, get_game_result, estimate_total_games) is not part of this model. The parsed result is an input; get_game_result is modelled like the worker's own version.
- The timed loop of get_move_mcts calls MCTS.simulate, which the MCTS class in src/training/reinforcement/mcts.py does not define, so as written it raises AttributeError (Benchmark.MctsMoveAsWritten, and the Findings table). How many iterations fit in the time per move is an input.
- Benchmark.MctsMove: models the search as evidently intended, reading each simulate call as one more simulation, followed by the 100 simulations get_move_probs runs itself. As written it returns a move only when the timed loop does not run (no time for a simulation, or the game is over).
- Benchmark.MctsMoveMostVisited: states the intended search's move. As written, a loaded search bot with time for one simulation raises instead of moving.
- Benchmark.SearchedRootMoves: states the root after the intended search. As written, that root is only reached when the timed loop does not run.
- Benchmark.RunBenchmark: its "a tally exactly when both bots are valid and no stop is seen" assumes that no game raises. A raising get_move (as the search bot's does as written) ends run_task without a tally; this is not modelled.
- Training.TrackIsFirstMinimum, Training.TrackNonIncreasing, Training.TrackSaves: take each iteration's metric as an input. In the source, current_metric (src/training/reinforcement/reinforcement_training_worker.py:239-242) reads train_metrics after the epoch loop, so it is the last epoch's losses. With epochs_per_iteration 0 the loop never binds train_metrics and the line raises UnboundLocalError; this is not modelled.
- Benchmark.PlayGame: the source loop has no move cap. The model bounds it by a fuel parameter and states the stopping conditions only for a game that ends before the fuel runs out.
- Move.uci() failures in the opening-book loop, opening-book JSON decode errors, and book entries whose statistics are not dictionaries are modelled as absent entries (None). The exceptions themselves are not modelled.
- The top-5 lists of the evaluation are inputs, and ties inside torch.topk are not modelled. np.mean of an empty list (nan) cannot occur: ComputeMetrics returns None for an empty dataset, where the source's division raises.
- The evaluation's class_labels (UCI strings for display) and the time-control counts of the pipeline are not modelled.
- The GUI tabs, visualisations, datasets and model definitions in the repository are outside the core and are not modelled.

## Findings

| source | as written | input that shows it | evidently intended | confidence | as-written member | corrected member |
|---|---|---|---|---|---|---|
| src/analysis/benchmark/benchmark_worker.py:121-126 | The timed loop calls self.mcts.simulate(), which the MCTS class does not define. | A bot with use_mcts and a model, a position with a legal move, and time_per_move long enough for one turn of the loop: the first call raises AttributeError and run_task ends without a tally. | Each turn should run one simulation of the search tree before get_move_probs picks the move. | not executed | Benchmark.MctsMoveAsWrittenRaises | Benchmark.MctsMove |
| src/training/reinforcement/mcts.py:71-76 | (Mcts.Simulate keeps this; Mcts.SimulateIntended uses the correction.) At a finished game the leaf value is the result from White's view (1-0 → 1). It is then backed up negated, as the network value (side to move) is. | A position where White has just mated: Black to move, result 1-0. The leaf's Q becomes -1, so selection steers White away from the mating move. | The terminal value should be from the side to move's view, so that the leaf's Q is the mover's outcome, as for non-terminal leaves. | not executed | Mcts.TerminalValueAsWrittenWrong | Mcts.TerminalValueIntended |
| src/reinforcement/reinforcement_training_worker.py:110-118 | (SelfPlay.GameOutcome keeps this; SelfPlay.GameOutcomeIntended uses the correction.) On checkmate, a position whose side to move is last_player gets result, where result is from White's view; the others get -result. | Black mates (result -1, last player Black): Black's positions are labelled -1 and White's +1. | The winner's positions should be +1 and the loser's -1, i.e. result for White's positions and -result for Black's. | not executed | SelfPlay.LabelsAsWrittenWrong | SelfPlay.Labels |
