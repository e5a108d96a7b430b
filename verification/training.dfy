/** The bookkeeping of the reinforcement training loop: the start iteration
    taken from a resumed checkpoint and the check against the configured
    number of iterations, the split of each iteration's games over the
    self-play processes, the merge of the workers' statistics, the
    best-metric rule that decides which iterations save a checkpoint, and
    the periodic checkpoint rule.

    The network, its training epochs and the losses they report, the
    checkpoint files, the clock and the CPU count are not modelled: the
    loss of each iteration and the CPU count are inputs. */
module Training {
  import opened Common
  import opened SelfPlay

  // ---- start iteration and the iterations of a run -------------------------

  /** The checkpoint found at model_path, if any: None for no file or a
      failed load; iteration is None when the checkpoint has no
      "iteration" key. */
  datatype Checkpoint = Checkpoint(iteration: Option<int>)

  /** 1 on a fresh start; the checkpoint's iteration + 1 on a resume. */
  function StartIteration(loaded: Option<Checkpoint>): (r: int)
    ensures loaded.None? || loaded.value.iteration.None? ==> r == 1
    ensures loaded.Some? && loaded.value.iteration.Some? ==> r - 1 == loaded.value.iteration.value
  {
    match loaded
    case Some(Checkpoint(Some(it))) => it + 1
    case _ => 1
  }

  /** run: a start iteration past the configured number raises; otherwise
      the iterations start, start + 1, ..., num in order. */
  function Iterations(start: int, num: int): (r: Option<seq<int>>)
    ensures r.None? <==> start > num
    ensures r.Some? ==> |r.value| == num - start + 1
    ensures r.Some? ==> forall k | 0 <= k < |r.value| :: r.value[k] == start + k
  {
    if start > num then None
    else Some(seq(num - start + 1, k requires 0 <= k < num - start + 1 => start + k))
  }

  /** A run from scratch trains every configured iteration (when there is
      at least one), and resuming from the checkpoint of iteration c runs
      exactly the iterations after c. */
  lemma ResumeRunsTheRest(c: int, num: int)
    requires c < num
    ensures Iterations(StartIteration(None), num).Some? <==> num >= 1
    ensures Iterations(StartIteration(Some(Checkpoint(Some(c)))), num).Some?
    ensures |Iterations(StartIteration(Some(Checkpoint(Some(c)))), num).value| == num - c
    ensures Iterations(StartIteration(Some(Checkpoint(Some(c)))), num).value[0] == c + 1
  {
  }

  /** The final save stores iteration num, so resuming from it raises. */
  lemma ResumeAfterFinishRaises(num: int)
    ensures Iterations(StartIteration(Some(Checkpoint(Some(num)))), num).None?
  {
  }

  // ---- the split over processes -------------------------------------------

  /** min(num_selfplay_threads, cpu_count()) processes share the games;
      with no process the divmod raises (None). */
  function Partition(total: nat, threads: nat, cpus: nat): (r: Option<seq<nat>>)
    ensures r.None? <==> threads == 0 || cpus == 0
    ensures r.Some? ==> |r.value| == Min(threads, cpus) && SumNat(r.value) == total
    ensures r.Some? ==> forall i, j | 0 <= i < j < |r.value| :: r.value[j] <= r.value[i] <= r.value[j] + 1
  {
    var p := Min(threads, cpus);
    if p <= 0 then None else Some(Split(total, p))
  }

  /** The seeds of an iteration: random_seed + 1000 * iteration + i plus the
      clock reading now, one per process; they are pairwise distinct. */
  function IterationSeeds(base: int, iteration: int, now: int, p: nat): (r: seq<int>)
    ensures |r| == p && Distinct(r)
    ensures forall i | 0 <= i < p :: r[i] - i == base + iteration * 1000 + now
  {
    Seeds(base + iteration * 1000 + now, p)
  }

  // ---- merging the worker statistics --------------------------------------

  /** The statistics dictionary of one self-play worker. */
  datatype Report = Report(wins: nat, losses: nat, draws: nat, lengths: seq<nat>, results: seq<real>)

  /** The iteration's merged statistics. */
  datatype IterationStats = IterationStats(wins: nat, losses: nat, draws: nat, lengths: seq<nat>,
                                           results: seq<real>, totalGames: nat, avgGameLength: real)

  /** The counters of a report agree with its results list. */
  predicate Consistent(w: Report)
  {
    w.wins == Count(w.results, 1.0) && w.losses == Count(w.results, -1.0)
    && w.draws == Count(w.results, 0.0)
  }

  function Accumulate(ws: seq<Report>): (r: Report)
    decreases |ws|
  {
    if |ws| == 0 then Report(0, 0, 0, [], [])
    else
      var acc := Accumulate(ws[..|ws| - 1]);
      var w := ws[|ws| - 1];
      Report(acc.wins + w.wins, acc.losses + w.losses, acc.draws + w.draws,
             acc.lengths + w.lengths, acc.results + w.results)
  }

  /** The loop over the worker results, then total_games and
      avg_game_length (0.0 when no game was played). */
  function MergeReports(ws: seq<Report>): (s: IterationStats)
    ensures s.totalGames == |s.results|
    ensures |s.lengths| == 0 ==> s.avgGameLength == 0.0
    ensures |s.lengths| > 0 ==> s.avgGameLength * (|s.lengths| as real) == SumNat(s.lengths) as real
    ensures s.avgGameLength >= 0.0
  {
    var acc := Accumulate(ws);
    var n := |acc.lengths|;
    IterationStats(acc.wins, acc.losses, acc.draws, acc.lengths, acc.results, |acc.results|,
                   if n > 0 then (SumNat(acc.lengths) as real) / (n as real) else 0.0)
  }

  /** Merging consistent reports gives consistent counters: the merged
      wins, losses and draws count the concatenated results. */
  lemma {:induction false} AccumulateConsistent(ws: seq<Report>)
    requires forall i | 0 <= i < |ws| :: Consistent(ws[i])
    ensures Consistent(Accumulate(ws))
    decreases |ws|
  {
    if |ws| > 0 {
      var init := ws[..|ws| - 1];
      AccumulateConsistent(init);
      var acc, w := Accumulate(init), ws[|ws| - 1];
      CountAppend(acc.results, w.results, 1.0);
      CountAppend(acc.results, w.results, -1.0);
      CountAppend(acc.results, w.results, 0.0);
    }
  }

  /** The merged results are the workers' results in worker order, and so
      are the lengths: the merge of a longer list extends the merge of a
      prefix. */
  lemma {:induction false} AccumulateOrder(ws: seq<Report>, k: nat)
    requires k <= |ws|
    ensures Accumulate(ws[..k]).results <= Accumulate(ws).results
    ensures Accumulate(ws[..k]).lengths <= Accumulate(ws).lengths
    decreases |ws| - k
  {
    if k < |ws| {
      var n := |ws| - 1;
      assert ws[..n][..k] == ws[..k];
      AccumulateOrder(ws[..n], k);
    } else {
      assert ws[..k] == ws;
    }
  }

  /** Merging one more report appends its results and lengths to the
      merged lists and adds its counters to the merged ones. */
  lemma AccumulateAppend(ws: seq<Report>, w: Report)
    ensures Accumulate(ws + [w]).results == Accumulate(ws).results + w.results
    ensures Accumulate(ws + [w]).lengths == Accumulate(ws).lengths + w.lengths
    ensures Accumulate(ws + [w]).wins == Accumulate(ws).wins + w.wins
    ensures Accumulate(ws + [w]).losses == Accumulate(ws).losses + w.losses
    ensures Accumulate(ws + [w]).draws == Accumulate(ws).draws + w.draws
  {
    assert (ws + [w])[..|ws|] == ws;
  }

  /** Each worker plays games of at most MAX_MOVES moves, so the average
      game length lies between 0 and MAX_MOVES; wins, losses and draws
      add up to total_games when every result is one of 1, -1, 0. */
  lemma MergeReportsBounds(ws: seq<Report>)
    requires forall i | 0 <= i < |ws| :: Consistent(ws[i])
    requires forall i, j | 0 <= i < |ws| && 0 <= j < |ws[i].lengths| :: ws[i].lengths[j] <= MAX_MOVES
    requires forall i, j | 0 <= i < |ws| && 0 <= j < |ws[i].results| ::
      ws[i].results[j] in {1.0, -1.0, 0.0}
    ensures MergeReports(ws).avgGameLength <= MAX_MOVES as real
    ensures MergeReports(ws).wins + MergeReports(ws).losses + MergeReports(ws).draws ==
      MergeReports(ws).totalGames
  {
    var acc := Accumulate(ws);
    AccumulateConsistent(ws);
    AccumulateBounded(ws, MAX_MOVES);
    CountPartition(acc.results, 1.0, -1.0, 0.0);
    SumNatBound(acc.lengths, MAX_MOVES);
    var n := |acc.lengths|;
    if n > 0 {
      assert (SumNat(acc.lengths) as real) <= (n as real) * (MAX_MOVES as real);
      DivBound(SumNat(acc.lengths) as real, n as real, MAX_MOVES as real);
    }
  }

  /** Every merged length is at most m when every worker's is, and every
      merged result is a win, a loss or a draw when every worker's is. */
  lemma {:induction false} AccumulateBounded(ws: seq<Report>, m: nat)
    requires forall i, j | 0 <= i < |ws| && 0 <= j < |ws[i].lengths| :: ws[i].lengths[j] <= m
    requires forall i, j | 0 <= i < |ws| && 0 <= j < |ws[i].results| ::
      ws[i].results[j] in {1.0, -1.0, 0.0}
    ensures forall j | 0 <= j < |Accumulate(ws).lengths| :: Accumulate(ws).lengths[j] <= m
    ensures forall j | 0 <= j < |Accumulate(ws).results| :: Accumulate(ws).results[j] in {1.0, -1.0, 0.0}
    decreases |ws|
  {
    if |ws| > 0 {
      var n := |ws| - 1;
      var init := ws[..n];
      assert forall i | 0 <= i < n :: init[i] == ws[i];
      AccumulateBounded(init, m);
      var acc, w := Accumulate(init), ws[n];
      assert forall j | |acc.lengths| <= j < |acc.lengths| + |w.lengths| ::
        (acc.lengths + w.lengths)[j] == w.lengths[j - |acc.lengths|];
      assert forall j | |acc.results| <= j < |acc.results| + |w.results| ::
        (acc.results + w.results)[j] == w.results[j - |acc.results|];
    }
  }

  lemma {:induction false} SumNatBound(xs: seq<nat>, m: nat)
    requires forall j | 0 <= j < |xs| :: xs[j] <= m
    ensures SumNat(xs) <= |xs| * m
    decreases |xs|
  {
    if |xs| > 0 {
      SumNatBound(xs[..|xs| - 1], m);
    }
  }

  lemma DivBound(s: real, n: real, m: real)
    requires n > 0.0 && s <= n * m
    ensures s / n <= m
  {
  }

  // ---- the best metric ----------------------------------------------------

  /** An iteration's metric: inf when it produced no training data. */
  datatype Metric = Inf | Finite(value: real)

  predicate Less(a: Metric, b: Metric)
  {
    a.Finite? && (b.Inf? || a.value < b.value)
  }

  /** best_metric and best_iteration, and the iterations that saved a
      checkpoint for a new best. */
  datatype Best = Best(metric: Metric, iteration: int, saves: seq<int>)

  /** The strict-decrease rule of one iteration. */
  function Improve(b: Best, m: Metric, iteration: int): Best
  {
    if Less(m, b.metric) then Best(m, iteration, b.saves + [iteration]) else b
  }

  /** best_metric, best_iteration and the best-checkpoint iterations after
      the iterations start, ..., start + |ms| - 1 with metrics ms, starting
      from inf and iteration 0. */
  function Track(ms: seq<Metric>, start: int): Best
    decreases |ms|
  {
    if |ms| == 0 then Best(Inf, 0, [])
    else Improve(Track(ms[..|ms| - 1], start), ms[|ms| - 1], start + |ms| - 1)
  }

  /** best_metric is the minimum of the metrics so far and best_iteration
      the first iteration that reached it; without a finite metric nothing
      changes and nothing is saved. */
  lemma {:induction false} TrackIsFirstMinimum(ms: seq<Metric>, start: int)
    ensures forall k | 0 <= k < |ms| :: !Less(ms[k], Track(ms, start).metric)
    ensures Track(ms, start).metric.Inf? ==> Track(ms, start) == Best(Inf, 0, [])
    ensures Track(ms, start).metric.Finite? ==>
      var k := Track(ms, start).iteration - start;
      0 <= k < |ms| && ms[k] == Track(ms, start).metric
      && forall j | 0 <= j < k :: Less(Track(ms, start).metric, ms[j])
    decreases |ms|
  {
    if |ms| > 0 {
      var n := |ms| - 1;
      var init := ms[..n];
      TrackIsFirstMinimum(init, start);
      assert forall k | 0 <= k < n :: ms[k] == init[k];
    }
  }

  /** best_metric never increases from one iteration to the next. */
  lemma {:induction false} TrackNonIncreasing(ms: seq<Metric>, start: int, k: nat)
    requires k <= |ms|
    ensures !Less(Track(ms[..k], start).metric, Track(ms, start).metric)
    decreases |ms| - k
  {
    if k < |ms| {
      var n := |ms| - 1;
      assert ms[..n][..k] == ms[..k];
      TrackNonIncreasing(ms[..n], start, k);
      assert ms[..n] == ms[..|ms| - 1];
    } else {
      assert ms[..k] == ms;
    }
  }

  /** A best checkpoint is saved exactly at the iterations that improved on
      all earlier ones, in increasing order, and the last one saved is
      best_iteration. */
  lemma {:induction false} TrackSaves(ms: seq<Metric>, start: int)
    ensures |Track(ms, start).saves| <= |ms|
    ensures forall j | 0 <= j < |Track(ms, start).saves| ::
      start <= Track(ms, start).saves[j] < start + |ms|
    ensures forall i, j | 0 <= i < j < |Track(ms, start).saves| ::
      Track(ms, start).saves[i] < Track(ms, start).saves[j]
    ensures |Track(ms, start).saves| > 0 ==>
      Track(ms, start).saves[|Track(ms, start).saves| - 1] == Track(ms, start).iteration
    ensures |Track(ms, start).saves| == 0 <==> Track(ms, start).metric.Inf?
    decreases |ms|
  {
    if |ms| > 0 {
      TrackSaves(ms[..|ms| - 1], start);
    }
  }

  // ---- periodic checkpoints -------------------------------------------------

  /** checkpoint_interval > 0 and iteration % checkpoint_interval == 0; the
      interval is positive whenever the remainder is taken, where Python's
      remainder agrees with Dafny's. */
  predicate ShouldSave(interval: int, iteration: int)
  {
    interval > 0 && iteration % interval == 0
  }

  /** The iterations 1, ..., n that save a periodic checkpoint. */
  function PeriodicSaves(interval: int, n: nat): (r: seq<int>)
    ensures forall j | 0 <= j < |r| :: 1 <= r[j] <= n && ShouldSave(interval, r[j])
    decreases n
  {
    if n == 0 then []
    else PeriodicSaves(interval, n - 1) + (if ShouldSave(interval, n) then [n] else [])
  }

  /** A run of n iterations saves n / interval periodic checkpoints, and
      none with a zero or negative interval. */
  lemma {:induction false} PeriodicSaveCount(interval: int, n: nat)
    ensures interval <= 0 ==> |PeriodicSaves(interval, n)| == 0
    ensures interval > 0 ==> |PeriodicSaves(interval, n)| == n / interval
    decreases n
  {
    if n > 0 {
      PeriodicSaveCount(interval, n - 1);
      if interval > 0 {
        DivStep(n, interval);
      }
    }
  }

  /** n / k grows by one exactly when k divides n. */
  lemma DivStep(n: nat, k: nat)
    requires n > 0 && k > 0
    ensures n / k == (n - 1) / k + (if n % k == 0 then 1 else 0)
  {
    var q, r := (n - 1) / k, (n - 1) % k;
    assert n == q * k + r + 1;
    if r + 1 == k {
      assert n == (q + 1) * k;
      DivModUnique(n, k, q + 1, 0);
    } else {
      DivModUnique(n, k, q, r + 1);
    }
  }

  lemma DivModUnique(n: int, k: int, q: int, r: int)
    requires k > 0 && 0 <= r < k && n == q * k + r
    ensures n / k == q && n % k == r
  {
    var d := n / k - q;
    assert d * k == r - n % k;
    MulSign(d, k);
  }

  lemma MulSign(d: int, k: int)
    requires k > 0
    ensures d >= 1 ==> d * k >= k
    ensures d <= -1 ==> d * k <= -k
  {
  }
}
