/** Self-play data assembly, shared by the two self-play trainers: the split
    of an iteration's games across worker processes, the per-worker seeds,
    one game of the worker (positions, dense policy targets, side-to-move
    flags, outcome labels), the worker's loop with its stop check, its
    statistics, and the ordered merge of the worker outputs.

    The processes run one after the other here; the shared stop event is
    the flag a worker sees before each of its games, and the search, the
    random move choice and the rules of chess are oracles. */
module SelfPlay {
  import opened Common
  import opened Chess
  import opened Moves
  import opened Evaluator
  import opened Mcts

  /** The move cap of one self-play game. */
  const MAX_MOVES: nat := 200

  // ---- splitting the games over the workers -------------------------------

  /** games_per_process + (1 if i < remainder else 0). */
  function Share(total: nat, p: nat, i: nat): nat
    requires p > 0
  {
    total / p + (if i < total % p then 1 else 0)
  }

  function Min(a: int, b: int): int
  {
    if a < b then a else b
  }

  /** The games of each of the p workers: they add up to the total, no two
      differ by more than one, and the extra games go to the lowest
      indices. */
  function Split(total: nat, p: nat): (r: seq<nat>)
    requires p > 0
    ensures |r| == p && SumNat(r) == total
    ensures forall i, j | 0 <= i < p && 0 <= j < p :: r[i] <= r[j] + 1
    ensures forall i, j | 0 <= i < j < p :: r[j] <= r[i]
  {
    var r := seq(p, i requires 0 <= i < p => Share(total, p, i));
    SplitPrefix(total, p, r, p);
    assert r[..p] == r;
    assert p * (total / p) + Min(p, total % p) == total by {
      assert total % p < p;
    }
    assert forall i | 0 <= i < p :: total / p <= r[i] <= total / p + 1;
    r
  }

  lemma {:induction false} SplitPrefix(total: nat, p: nat, r: seq<nat>, k: nat)
    requires p > 0 && |r| == p && k <= p
    requires forall i | 0 <= i < p :: r[i] == Share(total, p, i)
    ensures SumNat(r[..k]) == k * (total / p) + Min(k, total % p)
    decreases k
  {
    if k > 0 {
      SplitPrefix(total, p, r, k - 1);
      assert r[..k][..k - 1] == r[..k - 1];
      assert k * (total / p) == (k - 1) * (total / p) + total / p;
    }
  }

  /** seeds = [random_seed + i for i in range(num_processes)]. */
  function Seeds(base: int, p: nat): (r: seq<int>)
    ensures |r| == p && Distinct(r)
    ensures p > 0 ==> r[0] == base
  {
    seq(p, i requires 0 <= i < p => base + i)
  }

  // ---- dense policy targets ---------------------------------------------

  /** prob_array: zeros of length TOTAL_MOVES with each returned move's
      probability written at its table index, in dictionary order. */
  function PolicyTarget(probs: Dist): (r: seq<real>)
    ensures |r| == TOTAL_MOVES
    decreases |probs|
  {
    if |probs| == 0 then seq(TOTAL_MOVES, i => 0.0)
    else
      var init := PolicyTarget(probs[..|probs| - 1]);
      var (m, p) := probs[|probs| - 1];
      match IndexOf(m)
      case Some(i) => if i < TOTAL_MOVES then init[i := p] else init
      case None => init
  }

  /** An index no returned move maps to stays 0. */
  lemma {:induction false} PolicyTargetUnmapped(probs: Dist, i: nat)
    requires i < TOTAL_MOVES
    requires forall k | 0 <= k < |probs| :: IndexOf(probs[k].0) != Some(i)
    ensures PolicyTarget(probs)[i] == 0.0
    decreases |probs|
  {
    if |probs| > 0 {
      PolicyTargetUnmapped(probs[..|probs| - 1], i);
    }
  }

  /** With distinct moves, the index of each mapped move holds its
      probability. */
  lemma {:induction false} PolicyTargetMapped(probs: Dist, k: nat)
    requires Distinct(Keys(probs)) && k < |probs| && IndexOf(probs[k].0).Some?
    ensures IndexOf(probs[k].0).value < TOTAL_MOVES
    ensures PolicyTarget(probs)[IndexOf(probs[k].0).value] == probs[k].1
    decreases |probs|
  {
    MoveAtIndexOf(probs[k].0);
    var n := |probs| - 1;
    if k < n {
      var init := probs[..n];
      assert Keys(init) == Keys(probs)[..n];
      PolicyTargetMapped(init, k);
      assert Keys(probs)[k] != Keys(probs)[n];
      if IndexOf(probs[n].0) == IndexOf(probs[k].0) {
        IndexInjective(probs[n].0, probs[k].0);
      }
    }
  }

  // ---- outcome labels ---------------------------------------------------

  /** The labels as the reinforcement worker writes them: on checkmate,
      result (White's view) for the positions whose side to move made the
      last move and -result for the others; 0 for any other ending. Since
      result is already White's view, every checkmate labels White's
      positions 1 and Black's -1, whoever delivered it. */
  function LabelsAsWritten(players: seq<bool>, checkmate: bool, result: real, lastPlayer: bool)
    : (r: seq<real>)
    ensures |r| == |players|
    ensures !checkmate ==> forall k | 0 <= k < |r| :: r[k] == 0.0
    ensures checkmate && MateResult(result, lastPlayer) ==>
      forall k | 0 <= k < |r| :: r[k] == (if players[k] then 1.0 else -1.0)
  {
    seq(|players|, k requires 0 <= k < |players| =>
      if !checkmate then 0.0 else if players[k] == lastPlayer then result else -result)
  }

  /** On a checkmate the last mover is the winner: result is 1 when White
      mated and -1 when Black did. */
  predicate MateResult(result: real, lastPlayer: bool)
  {
    result == (if lastPlayer then 1.0 else -1.0)
  }

  /** The labels in the convention of the other value targets (the value of
      the side to move): result for White's positions, -result for Black's;
      0 for any ending other than checkmate. On a checkmate the winner's
      positions are labelled 1 and the loser's -1. */
  function Labels(players: seq<bool>, checkmate: bool, result: real, lastPlayer: bool)
    : (r: seq<real>)
    ensures |r| == |players|
    ensures !checkmate ==> forall k | 0 <= k < |r| :: r[k] == 0.0
    ensures checkmate && MateResult(result, lastPlayer) ==>
      forall k | 0 <= k < |r| :: r[k] == (if players[k] == lastPlayer then 1.0 else -1.0)
  {
    seq(|players|, k requires 0 <= k < |players| =>
      if !checkmate then 0.0 else if players[k] then result else -result)
  }

  /** When White mates, the written labels are the intended ones. */
  lemma LabelsAgreeWhenWhiteMates(players: seq<bool>, result: real)
    requires MateResult(result, true)
    ensures LabelsAsWritten(players, true, result, true) == Labels(players, true, result, true)
  {
  }

  /** When Black mates, the written labels give Black's positions -1 and
      White's +1: the loser's positions are marked as won. */
  lemma LabelsAsWrittenWrong()
    ensures LabelsAsWritten([true, false], true, -1.0, false) == [1.0, -1.0]
    ensures Labels([true, false], true, -1.0, false) == [-1.0, 1.0]
  {
  }

  /** Players alternate from move to move, so consecutive written labels
      alternate in sign. */
  lemma LabelsAlternate(players: seq<bool>, checkmate: bool, result: real, lastPlayer: bool, k: nat)
    requires k + 1 < |players| && players[k + 1] == !players[k]
    ensures LabelsAsWritten(players, checkmate, result, lastPlayer)[k + 1] ==
      -LabelsAsWritten(players, checkmate, result, lastPlayer)[k]
    ensures Labels(players, checkmate, result, lastPlayer)[k + 1] ==
      -Labels(players, checkmate, result, lastPlayer)[k]
  {
  }

  // ---- one game -----------------------------------------------------------

  /** What the game loop consults: the rules of chess, and the search. The
      search is a function of the positions played so far (the tree it
      reuses and the seeded random choice are determined by them): it gives
      the move distribution of get_move_probs and the sampled move, and the
      visit count of the root after re-rooting on that move. */
  datatype GameOracles = GameOracles(
    gameOver: Board -> bool,
    checkmate: Board -> bool,
    result: Board -> ResultTag,
    push: (Board, Move) -> Board,
    search: seq<Board> -> (Dist, Move),
    rootVisits: seq<Board> -> nat)

  /** The recorded positions, policy targets, side-to-move flags and root
      visit counts of a game, and its final position. */
  datatype Game = Game(states: seq<Board>, targets: seq<seq<real>>, players: seq<bool>,
                       visits: seq<nat>, final: Board)

  predicate Recorded(g: Game)
  {
    |g.states| == |g.targets| == |g.players| == |g.visits| <= MAX_MOVES
    && (forall k | 0 <= k < |g.targets| :: |g.targets[k]| == TOTAL_MOVES)
    && (forall k | 0 <= k < |g.players| :: g.players[k] == g.states[k].whiteToMove)
  }

  /** The while loop of a game from position b on, with the records so far
      in acc: it stops at game over or after MAX_MOVES moves. */
  function PlayLoop(o: GameOracles, b: Board, acc: Game): (g: Game)
    requires Recorded(acc)
    ensures Recorded(g)
    ensures |acc.states| <= |g.states|
    ensures g.states[..|acc.states|] == acc.states
    ensures |g.states| < MAX_MOVES ==> o.gameOver(g.final)
    ensures forall k | |acc.states| <= k < |g.states| :: !o.gameOver(g.states[k])
    decreases MAX_MOVES - |acc.states|
  {
    if o.gameOver(b) || |acc.states| >= MAX_MOVES then acc.(final := b)
    else
      var history := acc.states + [b];
      var (probs, mv) := o.search(history);
      var next := Append(acc, b, PolicyTarget(probs), o.rootVisits(history));
      var g := PlayLoop(o, o.push(b, mv), next);
      assert g.states[..|acc.states|] == g.states[..|history|][..|acc.states|];
      assert g.states[|acc.states|] == g.states[..|history|][|acc.states|] == b;
      g
  }

  /** The records of one more position. */
  function Append(acc: Game, b: Board, target: seq<real>, visits: nat): (r: Game)
    requires Recorded(acc) && |acc.states| < MAX_MOVES && |target| == TOTAL_MOVES
    ensures Recorded(r) && r.states == acc.states + [b]
  {
    Game(acc.states + [b], acc.targets + [target], acc.players + [b.whiteToMove], acc.visits + [visits], b)
  }

  /** One game from the start position: at most MAX_MOVES positions, one
      policy target and one side-to-move flag per position, none of them a
      finished game, and a game that ends early ends at game over. */
  function PlayGame(o: GameOracles, start: Board): (g: Game)
    ensures Recorded(g)
    ensures |g.states| < MAX_MOVES ==> o.gameOver(g.final)
    ensures forall k | 0 <= k < |g.states| :: !o.gameOver(g.states[k])
    ensures o.gameOver(start) ==> |g.states| == 0
  {
    PlayLoop(o, start, Game([], [], [], [], start))
  }

  /** The per-game tuple a worker collects. */
  datatype Outcome = Outcome(states: seq<Board>, targets: seq<seq<real>>, values: seq<real>,
                             length: nat, result: real, avgVisits: real)

  predicate WellFormed(x: Outcome)
  {
    |x.states| == |x.targets| == |x.values| == x.length
  }

  /** get_game_result of the final position, the labels as written, the
      game length and total_visits / num_moves (0 for a game without
      moves). On a checkmate every White position is labelled 1 and every
      Black one -1, so a game Black wins teaches the loser's positions as
      won. */
  function GameOutcome(o: GameOracles, g: Game): (x: Outcome)
    requires Recorded(g)
    ensures WellFormed(x) && x.length <= MAX_MOVES
    ensures x.result in {1.0, -1.0, 0.0}
    ensures !o.checkmate(g.final) ==> forall k | 0 <= k < |x.values| :: x.values[k] == 0.0
    ensures o.checkmate(g.final) && MateResult(x.result, !g.final.whiteToMove) ==>
      forall k | 0 <= k < |x.values| && k < |g.players| :: x.values[k] == (if g.players[k] then 1.0 else -1.0)
    ensures x.avgVisits >= 0.0 && (|g.visits| == 0 ==> x.avgVisits == 0.0)
  {
    var result := ResultValue(o.result(g.final));
    var n := |g.visits|;
    Outcome(g.states, g.targets,
            LabelsAsWritten(g.players, o.checkmate(g.final), result, !g.final.whiteToMove),
            |g.states|, result,
            if n > 0 then (SumNat(g.visits) as real) / (n as real) else 0.0)
  }

  /** The same outcome with the corrected labels: on a checkmate the
      mating side's positions are labelled 1 and the mated side's -1. */
  function GameOutcomeIntended(o: GameOracles, g: Game): (x: Outcome)
    requires Recorded(g)
    ensures WellFormed(x) && x.length <= MAX_MOVES
    ensures x.result in {1.0, -1.0, 0.0}
    ensures !o.checkmate(g.final) ==> forall k | 0 <= k < |x.values| :: x.values[k] == 0.0
    ensures o.checkmate(g.final) && MateResult(x.result, !g.final.whiteToMove) ==>
      forall k | 0 <= k < |x.values| && k < |g.players| ::
        x.values[k] == (if g.players[k] == !g.final.whiteToMove then 1.0 else -1.0)
    ensures x.avgVisits >= 0.0 && (|g.visits| == 0 ==> x.avgVisits == 0.0)
  {
    var result := ResultValue(o.result(g.final));
    var n := |g.visits|;
    Outcome(g.states, g.targets,
            Labels(g.players, o.checkmate(g.final), result, !g.final.whiteToMove),
            |g.states|, result,
            if n > 0 then (SumNat(g.visits) as real) / (n as real) else 0.0)
  }

  // ---- the worker ---------------------------------------------------------

  /** The worker's loop from game k on: before each game the stop flag is
      read, and a set flag ends the loop; game(k) is the k-th game. */
  function WorkerLoop(games: nat, stop: nat -> bool, game: nat -> Outcome, k: nat): (r: seq<Outcome>)
    requires k <= games
    ensures |r| <= games - k
    ensures k + |r| < games ==> stop(k + |r|)
    decreases games - k
  {
    if k >= games || stop(k) then []
    else [game(k)] + WorkerLoop(games, stop, game, k + 1)
  }

  /** The j-th game the loop returns is game k + j, and its stop flag was
      clear. */
  lemma {:induction false} WorkerLoopGames(games: nat, stop: nat -> bool, game: nat -> Outcome, k: nat, j: nat)
    requires k <= games && j < |WorkerLoop(games, stop, game, k)|
    ensures WorkerLoop(games, stop, game, k)[j] == game(k + j) && !stop(k + j)
    decreases games - k
  {
    if j > 0 {
      WorkerLoopGames(games, stop, game, k + 1, j - 1);
    }
  }

  /** The lists a worker returns. */
  datatype WorkerOutput = WorkerOutput(inputs: seq<Board>, policies: seq<seq<real>>,
                                       values: seq<real>, results: seq<real>, lengths: seq<nat>)

  predicate Aligned(w: WorkerOutput)
  {
    |w.inputs| == |w.policies| == |w.values| == SumNat(w.lengths) && |w.results| == |w.lengths|
  }

  function Empty(): WorkerOutput
  {
    WorkerOutput([], [], [], [], [])
  }

  function Join(a: WorkerOutput, b: WorkerOutput): WorkerOutput
  {
    WorkerOutput(a.inputs + b.inputs, a.policies + b.policies, a.values + b.values,
                 a.results + b.results, a.lengths + b.lengths)
  }

  lemma JoinAligned(a: WorkerOutput, b: WorkerOutput)
    requires Aligned(a) && Aligned(b)
    ensures Aligned(Join(a, b))
  {
    SumNatAppend(a.lengths, b.lengths);
  }

  /** The extend/append calls of the loop over the games played: each game
      adds its positions and one result and one length. */
  function Collect(xs: seq<Outcome>): (w: WorkerOutput)
    requires forall i | 0 <= i < |xs| :: WellFormed(xs[i])
    ensures Aligned(w)
    ensures |w.results| == |xs|
    ensures forall i | 0 <= i < |xs| :: w.results[i] == xs[i].result && w.lengths[i] == xs[i].length
    decreases |xs|
  {
    if |xs| == 0 then Empty()
    else
      var x := xs[|xs| - 1];
      assert forall i | 0 <= i < |xs| - 1 :: xs[..|xs| - 1][i] == xs[i];
      var init := Collect(xs[..|xs| - 1]);
      var last := WorkerOutput(x.states, x.targets, x.values, [x.result], [x.length]);
      assert [x.length][..0] == [];
      assert SumNat([x.length]) == x.length;
      assert WellFormed(x);
      JoinAligned(init, last);
      Join(init, last)
  }

  /** The statistics a worker reports. */
  datatype WorkerStats = WorkerStats(totalGames: nat, wins: nat, losses: nat, draws: nat,
                                     avgGameLength: real, avgVisits: real)

  function Stats(w: WorkerOutput, visits: seq<real>): (s: WorkerStats)
  {
    var n := |w.lengths|;
    WorkerStats(|w.results|, Count(w.results, 1.0), Count(w.results, -1.0), Count(w.results, 0.0),
                if n > 0 then (SumNat(w.lengths) as real) / (n as real) else 0.0,
                Mean(visits))
  }

  /** Every game is a win, a loss or a draw, and without games both
      averages are 0. */
  lemma StatsPartition(w: WorkerOutput, visits: seq<real>)
    requires forall i | 0 <= i < |w.results| :: w.results[i] in {1.0, -1.0, 0.0}
    ensures Stats(w, visits).wins + Stats(w, visits).losses + Stats(w, visits).draws ==
      Stats(w, visits).totalGames
    ensures |w.lengths| == 0 ==> Stats(w, visits).avgGameLength == 0.0
    ensures |visits| == 0 ==> Stats(w, visits).avgVisits == 0.0
  {
    CountPartition(w.results, 1.0, -1.0, 0.0);
  }

  /** _play_and_collect_wrapper: at most the assigned number of games, all
      of them complete, and the positions of the games in order. */
  function RunWorker(games: nat, stop: nat -> bool, game: nat -> Outcome): (w: WorkerOutput)
    requires forall k: nat :: WellFormed(game(k))
    ensures Aligned(w) && |w.results| <= games
    ensures forall j | 0 <= j < |w.results| :: w.results[j] == game(j).result
  {
    var played := WorkerLoop(games, stop, game, 0);
    assert forall j | 0 <= j < |played| :: played[j] == game(j) by {
      forall j | 0 <= j < |played|
        ensures played[j] == game(j)
      {
        WorkerLoopGames(games, stop, game, 0, j);
      }
    }
    Collect(played)
  }

  /** A worker whose flag is set from the start returns nothing, and one
      whose flag is never set plays every game it was given. */
  lemma RunWorkerUniform(games: nat, stop: nat -> bool, game: nat -> Outcome)
    requires forall k: nat :: WellFormed(game(k))
    ensures (forall k: nat :: stop(k)) ==> RunWorker(games, stop, game) == Empty()
    ensures (forall k: nat :: !stop(k)) ==> |RunWorker(games, stop, game).results| == games
  {
    var played := WorkerLoop(games, stop, game, 0);
    PlayedGames(games, stop, game);
    assert |Collect(played).results| == |played|;
    if stop(0) {
      assert played == [];
    }
  }

  /** The per-game average visit counts the loop appends, in game order. */
  function VisitAverages(xs: seq<Outcome>): seq<real>
  {
    seq(|xs|, i requires 0 <= i < |xs| => xs[i].avgVisits)
  }

  /** The average visit counts of games 0 .. n - 1. */
  function GameVisits(game: nat -> Outcome, n: nat): (r: seq<real>)
    ensures |r| == n && forall j | 0 <= j < n :: r[j] == game(j).avgVisits
  {
    seq(n, j requires 0 <= j < n => game(j).avgVisits)
  }

  /** The statistics the worker puts on its queue, computed from the games
      it played: every game a win, a loss or a draw, and avg_mcts_visits the
      mean of the played games' own averages (0 without games). */
  function WorkerStatsOf(games: nat, stop: nat -> bool, game: nat -> Outcome): (s: WorkerStats)
    requires forall k: nat :: WellFormed(game(k)) && game(k).result in {1.0, -1.0, 0.0}
    ensures s.totalGames <= games
    ensures s.wins + s.losses + s.draws == s.totalGames
    ensures s.totalGames == 0 ==> s.avgGameLength == 0.0 && s.avgVisits == 0.0
    ensures s.avgVisits == Mean(GameVisits(game, s.totalGames))
  {
    var played := WorkerLoop(games, stop, game, 0);
    PlayedGames(games, stop, game);
    var w := Collect(played);
    var visits := VisitAverages(played);
    StatsPartition(w, visits);
    Stats(w, visits)
  }

  /** The games the worker loop plays from the first on are games 0, 1, ...,
      and so are their visit averages. */
  lemma PlayedGames(games: nat, stop: nat -> bool, game: nat -> Outcome)
    ensures var played := WorkerLoop(games, stop, game, 0);
      |played| <= games
      && (forall j | 0 <= j < |played| :: played[j] == game(j))
      && VisitAverages(played) == GameVisits(game, |played|)
  {
    var played := WorkerLoop(games, stop, game, 0);
    forall j | 0 <= j < |played|
      ensures played[j] == game(j)
    {
      WorkerLoopGames(games, stop, game, 0, j);
    }
  }

  // ---- merging the workers' outputs --------------------------------------

  /** The loop over the pool's results, in worker order. */
  function Merge(outs: seq<WorkerOutput>): (r: WorkerOutput)
    ensures |outs| == 0 ==> r == Empty()
    decreases |outs|
  {
    if |outs| == 0 then Empty()
    else Join(Merge(outs[..|outs| - 1]), outs[|outs| - 1])
  }

  /** Merged outputs of aligned workers are aligned: as many inputs as
      policy targets and value targets, one per position of each game. */
  lemma {:induction false} MergeAligned(outs: seq<WorkerOutput>)
    requires forall i | 0 <= i < |outs| :: Aligned(outs[i])
    ensures Aligned(Merge(outs))
    decreases |outs|
  {
    if |outs| > 0 {
      var n := |outs| - 1;
      MergeAligned(outs[..n]);
      JoinAligned(Merge(outs[..n]), outs[n]);
    }
  }

  /** Merging is concatenation: the merge of two runs of workers is the
      join of their merges, and a single worker's output is kept as is. */
  lemma {:induction false} MergeAppend(a: seq<WorkerOutput>, b: seq<WorkerOutput>)
    ensures Merge(a + b) == Join(Merge(a), Merge(b))
    decreases |b|
  {
    if |b| == 0 {
      assert a + b == a;
    } else {
      var b', z := b[..|b| - 1], b[|b| - 1];
      assert (a + b)[..|a + b| - 1] == a + b' && (a + b)[|a + b| - 1] == z;
      assert Merge(b) == Join(Merge(b'), z);
      MergeAppend(a, b');
      JoinAssociative(Merge(a), Merge(b'), z);
    }
  }

  lemma JoinAssociative(x: WorkerOutput, y: WorkerOutput, z: WorkerOutput)
    ensures Join(Join(x, y), z) == Join(x, Join(y, z))
  {
  }

  /** The merged lists hold one result per game played over all workers. */
  lemma {:induction false} MergeResults(outs: seq<WorkerOutput>, games: seq<nat>)
    requires |games| == |outs|
    requires forall i | 0 <= i < |outs| :: |outs[i].results| <= games[i]
    ensures |Merge(outs).results| <= SumNat(games)
    decreases |outs|
  {
    if |outs| > 0 {
      var n := |outs| - 1;
      MergeResults(outs[..n], games[..n]);
      assert games[..n] == games[..|games| - 1];
    }
  }

  // ---- one iteration's self-play data ----------------------------------------

  /** Worker i of an iteration: it plays its share of the games with seed
      base + i; stop(i, k) is the stop flag it reads before its k-th game,
      game(s, k) the k-th game played with seed s. */
  function Worker(games: seq<nat>, seeds: seq<int>, stop: (nat, nat) -> bool,
                  game: (int, nat) -> Outcome, i: nat): (w: WorkerOutput)
    requires i < |games| && i < |seeds|
    requires forall s: int, k: nat :: WellFormed(game(s, k))
    ensures Aligned(w) && |w.results| <= games[i]
    ensures (forall k: nat :: stop(i, k)) ==> w == Empty()
    ensures (forall k: nat :: !stop(i, k)) ==> |w.results| == games[i]
  {
    var s := seeds[i];
    assert forall k: nat :: WellFormed(game(s, k));
    var play := (k: nat) => game(s, k);
    assert forall k: nat :: play(k) == game(s, k);
    var flag := (k: nat) => stop(i, k);
    assert forall k: nat :: flag(k) == stop(i, k);
    RunWorkerUniform(games[i], flag, play);
    RunWorker(games[i], flag, play)
  }

  /** The pool of one iteration: one worker per process. */
  function Round(total: nat, p: nat, base: int, stop: (nat, nat) -> bool, game: (int, nat) -> Outcome)
    : (outs: seq<WorkerOutput>)
    requires p > 0
    requires forall s: int, k: nat :: WellFormed(game(s, k))
    ensures |outs| == p
    ensures forall i | 0 <= i < p :: Aligned(outs[i]) && |outs[i].results| <= Split(total, p)[i]
  {
    var games := Split(total, p);
    var seeds := Seeds(base, p);
    seq(p, i requires 0 <= i < p => Worker(games, seeds, stop, game, i))
  }

  /** The running totals of the trainer. */
  datatype Totals = Totals(gamesPlayed: nat, results: seq<real>, lengths: seq<nat>)

  /** _generate_self_play_data after the pool has run: results and lengths
      are appended to the running lists; with no position at all the
      iteration yields no data and the games counter is left alone,
      otherwise the counter grows by the number of games requested. */
  function Generate(t: Totals, requested: nat, outs: seq<WorkerOutput>): (r: (Totals, WorkerOutput))
    ensures r.0.results == t.results + Merge(outs).results
    ensures r.0.lengths == t.lengths + Merge(outs).lengths
    ensures |Merge(outs).inputs| == 0 ==> r.1 == Empty() && r.0.gamesPlayed == t.gamesPlayed
    ensures |Merge(outs).inputs| > 0 ==> r.1 == Merge(outs) && r.0.gamesPlayed == t.gamesPlayed + requested
  {
    var m := Merge(outs);
    var t' := t.(results := t.results + m.results, lengths := t.lengths + m.lengths);
    if |m.inputs| == 0 then (t', Empty())
    else (t'.(gamesPlayed := t.gamesPlayed + requested), m)
  }

  /** An iteration never collects more games than were requested. */
  lemma RoundBound(total: nat, p: nat, base: int, stop: (nat, nat) -> bool, game: (int, nat) -> Outcome)
    requires p > 0
    requires forall s: int, k: nat :: WellFormed(game(s, k))
    ensures |Merge(Round(total, p, base, stop, game)).results| <= total
  {
    MergeResults(Round(total, p, base, stop, game), Split(total, p));
  }

  /** The workers read a copy of the trainer's stop event that is set, if
      at all, before the pool starts, so within a round the flag has one
      value. Then either no worker plays and the round yields nothing, or
      every worker plays its whole share; whenever the round yields data,
      the games counter grows by exactly the number of games collected. */
  lemma RoundCountsGames(t: Totals, total: nat, p: nat, base: int, stopped: bool,
                         stop: (nat, nat) -> bool, game: (int, nat) -> Outcome)
    requires p > 0
    requires forall s: int, k: nat :: WellFormed(game(s, k))
    requires forall i: nat, k: nat :: stop(i, k) == stopped
    ensures var outs := Round(total, p, base, stop, game);
      (stopped ==> Merge(outs) == Empty())
      && (!stopped ==> |Merge(outs).results| == total)
      && (|Merge(outs).inputs| > 0 ==>
            Generate(t, total, outs).0.gamesPlayed == t.gamesPlayed + |Merge(outs).results|)
      && (|Merge(outs).inputs| == 0 ==> Generate(t, total, outs).0.gamesPlayed == t.gamesPlayed)
  {
    var outs := Round(total, p, base, stop, game);
    var games := Split(total, p);
    var seeds := Seeds(base, p);
    if stopped {
      forall i | 0 <= i < p
        ensures outs[i] == Empty()
      {
        assert outs[i] == Worker(games, seeds, stop, game, i);
      }
      MergeEmpty(outs);
    } else {
      forall i | 0 <= i < p
        ensures |outs[i].results| == games[i]
      {
        assert outs[i] == Worker(games, seeds, stop, game, i);
      }
      MergeResultsExact(outs, games);
    }
  }

  /** Merging workers that returned nothing gives nothing. */
  lemma {:induction false} MergeEmpty(outs: seq<WorkerOutput>)
    requires forall i | 0 <= i < |outs| :: outs[i] == Empty()
    ensures Merge(outs) == Empty()
    decreases |outs|
  {
    if |outs| > 0 {
      MergeEmpty(outs[..|outs| - 1]);
    }
  }

  /** When worker i returns exactly games[i] results, the merge holds
      their total. */
  lemma {:induction false} MergeResultsExact(outs: seq<WorkerOutput>, games: seq<nat>)
    requires |games| == |outs|
    requires forall i | 0 <= i < |outs| :: |outs[i].results| == games[i]
    ensures |Merge(outs).results| == SumNat(games)
    decreases |outs|
  {
    if |outs| > 0 {
      var n := |outs| - 1;
      MergeResultsExact(outs[..n], games[..n]);
      assert games[..n] == games[..|games| - 1];
    }
  }
}
