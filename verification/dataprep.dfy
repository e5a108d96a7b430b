/** The data-preparation worker: it reads PGN games up to a game limit,
    skips games whose Elo headers are missing, unparsable or below the
    minimum, turns the main line of a game into samples whose value target
    is the engine's score of the position (and a mirrored copy with the
    value negated), buffers the samples and writes them out once the
    buffer reaches the batch size, keeps counters and two histograms, and
    finally splits the written indices 80/10/10.

    The engine, the rules (making a move) and the parser of the Result
    header are oracles; the file, the HDF5 dataset and the random shuffle
    are left out, and the written dataset is modelled as the list of its
    samples. Samples reuse the record of the supervised pipeline: the
    position, the move whose index is the policy target, whether the
    encoding is of the mirrored board, the index and the value. */
module DataPreparation {
  import opened Common
  import opened Chess
  import opened Moves
  import Pipeline

  type Sample = Pipeline.Sample

  // ---- the engine's score as a value target -----------------------------------

  /** The engine's score from the side to move's point of view: a forced
      mate in n moves (n <= 0 when the side to move is mated) or centipawns. */
  datatype Score = MateIn(moves: int) | Centipawns(cp: int)

  /** max(min(cp, 1000), -1000) */
  function ClampCp(cp: int): (r: int)
    ensures -1000 <= r <= 1000
    ensures -1000 <= cp <= 1000 ==> r == cp
    ensures cp > 1000 ==> r == 1000
    ensures cp < -1000 ==> r == -1000
  {
    var hi := if cp < 1000 then cp else 1000;
    if hi > -1000 then hi else -1000
  }

  /** A mate for the side to move is 1, a mate against it -1; centipawns
      are clamped to 1000 either way and scaled to [-1, 1]. */
  function ScoreValue(s: Score): (r: real)
    ensures -1.0 <= r <= 1.0
    ensures s.MateIn? ==> (r == 1.0 <==> s.moves > 0) && (r == -1.0 <==> s.moves <= 0)
  {
    match s
    case MateIn(n) => if n > 0 then 1.0 else -1.0
    case Centipawns(cp) => (ClampCp(cp) as real) / 1000.0
  }

  /** evaluate_position: 0 without an engine, else the value of the
      engine's score of the position. */
  function EvaluatePosition(engine: Option<Board -> Score>, b: Board): (r: real)
    ensures -1.0 <= r <= 1.0
    ensures engine.None? ==> r == 0.0
    ensures engine.Some? ==> r == ScoreValue(engine.value(b))
  {
    match engine
    case None => 0.0
    case Some(analyse) => ScoreValue(analyse(b))
  }

  /** A centipawn score inside [-1000, 1000] is kept exactly (value times
      1000 gives it back), and a score beyond it saturates at -1 or 1. */
  lemma CentipawnsScaled(cp: int)
    ensures -1000 <= cp <= 1000 <==> ScoreValue(Centipawns(cp)) * 1000.0 == cp as real
    ensures cp >= 1000 ==> ScoreValue(Centipawns(cp)) == 1.0
    ensures cp <= -1000 ==> ScoreValue(Centipawns(cp)) == -1.0
  {
  }

  /** A better centipawn score never gives a lower value, and no
      centipawn score beats a mate for the side to move. */
  lemma CentipawnsMonotone(a: int, b: int, n: int)
    requires a <= b
    ensures ScoreValue(Centipawns(a)) <= ScoreValue(Centipawns(b))
    ensures n > 0 ==> ScoreValue(Centipawns(b)) <= ScoreValue(MateIn(n))
    ensures n <= 0 ==> ScoreValue(MateIn(n)) <= ScoreValue(Centipawns(a))
  {
    assert ClampCp(a) <= ClampCp(b);
  }

  // ---- the samples of a game ----------------------------------------------------

  /** The samples of one position and its move: none for an unmapped move;
      otherwise the position with the engine's value, then, when the
      mirrored move is mapped, the mirrored position with the value negated. */
  function PositionSamples(value: Board -> real, b: Board, m: Move): seq<Sample>
  {
    match IndexOf(m)
    case None => []
    case Some(id) =>
      var v := value(b);
      var f := FlipMove(m);
      [Pipeline.Sample(b, m, false, id, v)]
        + (if IndexOf(f).Some? then [Pipeline.Sample(b, f, true, IndexOf(f).value, -v)] else [])
  }

  /** _extract_move_data: every move of the main line is played; the
      samples of a position come before those of the positions after it.
      The three output lists of the source are the fields of one list of
      samples, so they have equal length by construction. */
  function ExtractMoveData(value: Board -> real, push: (Board, Move) -> Board, b: Board, moves: seq<Move>)
    : (r: seq<Sample>)
    ensures |r| <= 2 * |moves|
    decreases |moves|
  {
    if |moves| == 0 then []
    else PositionSamples(value, b, moves[0]) + ExtractMoveData(value, push, push(b, moves[0]), moves[1..])
  }

  /** The number of moves that have an index in the move table. */
  function MappedMoves(moves: seq<Move>): nat
    decreases |moves|
  {
    if |moves| == 0 then 0 else (if IndexOf(moves[0]).Some? then 1 else 0) + MappedMoves(moves[1..])
  }

  lemma {:induction false} MappedMovesNone(moves: seq<Move>)
    ensures MappedMoves(moves) == 0 <==> forall i | 0 <= i < |moves| :: IndexOf(moves[i]).None?
    decreases |moves|
  {
    if |moves| > 0 {
      MappedMovesNone(moves[1..]);
      assert forall i | 1 <= i < |moves| :: moves[i] == moves[1..][i - 1];
    }
  }

  /** Every mapped move gives two samples (its mirror is mapped too), an
      unmapped one none: the game yields no sample exactly when none of
      its moves is in the table. */
  lemma {:induction false} ExtractMoveDataCount(value: Board -> real, push: (Board, Move) -> Board, b: Board,
                                                moves: seq<Move>)
    ensures |ExtractMoveData(value, push, b, moves)| == 2 * MappedMoves(moves)
    ensures ExtractMoveData(value, push, b, moves) == [] <==>
      forall i | 0 <= i < |moves| :: IndexOf(moves[i]).None?
    decreases |moves|
  {
    MappedMovesNone(moves);
    if |moves| > 0 {
      FlipMoveMapped(moves[0]);
      ExtractMoveDataCount(value, push, push(b, moves[0]), moves[1..]);
    }
  }

  /** The policy target is the index of the recorded move, and an
      unmirrored sample carries the value of its own position. */
  predicate Targeted(s: Sample, value: Board -> real)
  {
    IndexOf(s.move) == Some(s.policy) && (!s.flipped ==> s.value == value(s.board))
  }

  predicate AllTargeted(ss: seq<Sample>, value: Board -> real)
  {
    forall i | 0 <= i < |ss| :: Targeted(ss[i], value)
  }

  lemma AllTargetedAppend(a: seq<Sample>, c: seq<Sample>, value: Board -> real)
    requires AllTargeted(a, value) && AllTargeted(c, value)
    ensures AllTargeted(a + c, value)
  {
    assert forall i | |a| <= i < |a + c| :: (a + c)[i] == c[i - |a|];
  }

  lemma PositionSamplesShape(value: Board -> real, b: Board, m: Move)
    ensures AllTargeted(PositionSamples(value, b, m), value)
    ensures Pipeline.Paired(PositionSamples(value, b, m), true)
    ensures |PositionSamples(value, b, m)| > 0 ==> !PositionSamples(value, b, m)[0].flipped
  {
    FlipMoveMapped(m);
  }

  /** Every sample's policy target is its move's index and every
      unmirrored sample carries its position's value; each unmirrored
      sample is followed by its mirror, which has the mirrored move and the
      negated value. */
  lemma {:induction false} ExtractMoveDataShape(value: Board -> real, push: (Board, Move) -> Board, b: Board,
                                                moves: seq<Move>)
    ensures AllTargeted(ExtractMoveData(value, push, b, moves), value)
    ensures Pipeline.Paired(ExtractMoveData(value, push, b, moves), true)
    ensures |ExtractMoveData(value, push, b, moves)| > 0 ==> !ExtractMoveData(value, push, b, moves)[0].flipped
    decreases |moves|
  {
    if |moves| > 0 {
      var here := PositionSamples(value, b, moves[0]);
      var rest := ExtractMoveData(value, push, push(b, moves[0]), moves[1..]);
      ExtractMoveDataShape(value, push, push(b, moves[0]), moves[1..]);
      PositionSamplesShape(value, b, moves[0]);
      AllTargetedAppend(here, rest, value);
      Pipeline.PairedAppend(here, rest, true);
    }
  }

  /** With the engine's evaluation every value target lies in [-1, 1]. */
  lemma ExtractMoveDataBounded(engine: Option<Board -> Score>, push: (Board, Move) -> Board, b: Board,
                               moves: seq<Move>)
    ensures var r := ExtractMoveData(b' => EvaluatePosition(engine, b'), push, b, moves);
      forall i | 0 <= i < |r| :: -1.0 <= r[i].value <= 1.0
  {
    var value := b' => EvaluatePosition(engine, b');
    var r := ExtractMoveData(value, push, b, moves);
    ExtractMoveDataShape(value, push, b, moves);
    forall i | 0 <= i < |r|
      ensures -1.0 <= r[i].value <= 1.0
    {
      if r[i].flipped {
        assert r[i].value == -r[i - 1].value && !r[i - 1].flipped;
        assert r[i - 1].value == EvaluatePosition(engine, r[i - 1].board);
      } else {
        assert r[i].value == EvaluatePosition(engine, r[i].board);
      }
    }
  }

  // ---- games and their entries ----------------------------------------------

  /** The key of game_results_counter: 1.0, -1.0 or 0.0. */
  datatype GameResult = WhiteWins | BlackWins | Drawn

  /** A game as read from the file: its two Elo headers (Absent also
      stands for an empty header), the parsed Result header (None when the
      parser rejects it), the start position and the main line. */
  datatype Game = Game(whiteElo: Pipeline.EloHeader, blackElo: Pipeline.EloHeader, result: Option<GameResult>,
                       start: Board, moves: seq<Move>)

  /** The dictionary _process_game returns. */
  datatype Entry = Entry(samples: seq<Sample>, gameLength: nat, avgRating: real, result: GameResult)

  /** The check of run_task before a game is processed: both ratings
      present, integers, and at least the minimum. */
  predicate Admitted(g: Game, minElo: int)
  {
    g.whiteElo.Number? && g.blackElo.Number? && g.whiteElo.value >= minElo && g.blackElo.value >= minElo
  }

  /** _process_game: no entry without both ratings, with an unparsable
      result, or with no sample; otherwise the samples, the number of
      moves, the mean rating and the result. */
  function ProcessGame(engine: Option<Board -> Score>, push: (Board, Move) -> Board, g: Game): (r: Option<Entry>)
    ensures r.Some? ==> r.value.samples != [] && r.value.gameLength == |g.moves|
    ensures r.Some? ==> g.result == Some(r.value.result)
    ensures r.Some? ==> (g.whiteElo.Number? && g.blackElo.Number?
      && r.value.avgRating * 2.0 == (g.whiteElo.value + g.blackElo.value) as real)
  {
    if !g.whiteElo.Number? || !g.blackElo.Number? || g.result.None? then None
    else
      var samples := ExtractMoveData(b => EvaluatePosition(engine, b), push, g.start, g.moves);
      if samples == [] then None
      else Some(Entry(samples, |g.moves|, (g.whiteElo.value + g.blackElo.value) as real / 2.0, g.result.value))
  }

  /** A game yields an entry exactly when both ratings are integers, the
      result parses, and at least one move of the main line has an index. */
  lemma ProcessGameAccepts(engine: Option<Board -> Score>, push: (Board, Move) -> Board, g: Game)
    ensures ProcessGame(engine, push, g).Some? <==>
      (g.whiteElo.Number? && g.blackElo.Number? && g.result.Some?
       && exists i | 0 <= i < |g.moves| :: IndexOf(g.moves[i]).Some?)
  {
    ExtractMoveDataCount(b => EvaluatePosition(engine, b), push, g.start, g.moves);
  }

  // ---- histograms ---------------------------------------------------------------

  /** np.arange(start, stop, step) for a positive step. */
  function Arange(start: int, stop: int, step: nat): (r: seq<int>)
    requires step > 0
    ensures forall k | 0 <= k < |r| :: r[k] == start + k * step
    ensures stop <= start ==> |r| == 0
    ensures stop > start ==> start + (|r| - 1) * step < stop <= start + |r| * step
  {
    if stop <= start then []
    else
      var n := (stop - start + step - 1) / step;
      seq(n, k requires 0 <= k < n => start + k * step)
  }

  /** The edges of the game-length histogram: 0, 5, ..., 195. */
  function LengthEdges(): seq<int> { Arange(0, 200, 5) }

  /** The edges of the rating histogram: 1000, 1050, ..., 2950. */
  function RatingEdges(): seq<int> { Arange(1000, 3000, 50) }

  predicate Increasing(edges: seq<int>)
  {
    forall j, k | 0 <= j < k < |edges| :: edges[j] < edges[k]
  }

  /** np.digitize(x, edges) for increasing edges: the number of edges not
      above x, which is the first edge above x. */
  function Digitize(x: real, edges: seq<int>): (r: nat)
    ensures r <= |edges|
    ensures forall j | 0 <= j < r :: edges[j] as real <= x
    ensures r < |edges| ==> x < edges[r] as real
    decreases |edges|
  {
    if |edges| == 0 || x < edges[0] as real then 0
    else
      var rest := Digitize(x, edges[1..]);
      assert forall j | 1 <= j < 1 + rest :: edges[j] == edges[1..][j - 1];
      1 + rest
  }

  /** digitize - 1 names a bin of the histogram between the edges exactly
      when x lies between the first and the last edge, and that bin is the
      one whose edges enclose x. */
  lemma DigitizeBin(x: real, edges: seq<int>)
    requires Increasing(edges) && |edges| > 0
    ensures var d := Digitize(x, edges);
      (1 <= d < |edges| <==> edges[0] as real <= x < edges[|edges| - 1] as real)
      && (1 <= d < |edges| ==> edges[d - 1] as real <= x < edges[d] as real)
  {
    var d := Digitize(x, edges);
    if 1 <= d < |edges| {
      assert edges[d] <= edges[|edges| - 1];
    }
  }

  /** The bin of a game of n moves: n / 5 below 195 moves; 39, which is
      past the last bin, from 195 on. */
  function LengthBinIndex(n: nat): (r: int)
    ensures n < 195 ==> r == n / 5
    ensures n >= 195 ==> r == 39
  {
    var e := LengthEdges();
    assert |e| == 40 && e[0] == 0 && e[39] == 195;
    var d := Digitize(n as real, e);
    if d < 40 then
      assert e[d] == 5 * d && e[d - 1] == 5 * (d - 1);
      d - 1
    else
      d - 1
  }

  /** The bin of a mean rating: a bin of the histogram exactly when the
      rating is in [1000, 2950), and then the bin k of [1000 + 50k, 1050 + 50k). */
  function RatingBinIndex(x: real): (r: int)
    ensures 0 <= r < 39 <==> 1000.0 <= x < 2950.0
    ensures 0 <= r < 39 ==> (1000 + 50 * r) as real <= x < (1050 + 50 * r) as real
  {
    var e := RatingEdges();
    assert |e| == 40 && e[0] == 1000 && e[39] == 2950;
    assert Increasing(e);
    DigitizeBin(x, e);
    var d := Digitize(x, e);
    if 1 <= d < 40 then
      assert e[d] == 1000 + 50 * d && e[d - 1] == 1000 + 50 * (d - 1);
      d - 1
    else
      d - 1
  }

  /** One more in bin idx, nothing when idx is outside the histogram. */
  function AddToBin(hist: seq<nat>, idx: int): (r: seq<nat>)
    ensures |r| == |hist|
  {
    if 0 <= idx < |hist| then hist[idx := hist[idx] + 1] else hist
  }

  /** The total grows by one exactly when idx names a bin, and only that
      bin changes. */
  lemma AddToBinCounts(hist: seq<nat>, idx: int)
    ensures SumNat(AddToBin(hist, idx)) == SumNat(hist) + (if 0 <= idx < |hist| then 1 else 0)
    ensures forall k | 0 <= k < |hist| && k != idx :: AddToBin(hist, idx)[k] == hist[k]
    ensures 0 <= idx < |hist| ==> AddToBin(hist, idx)[idx] == hist[idx] + 1
  {
    if 0 <= idx < |hist| {
      SumNatUpdate(hist, idx);
    }
  }

  /** _update_histograms: the length bin is digitize - 1 and counts only
      inside the histogram; the rating bin likewise, and a zero rating is
      not counted at all. */
  function UpdateHistograms(lengths: seq<nat>, ratings: seq<nat>, gameLength: nat, avgRating: real)
    : (r: (seq<nat>, seq<nat>))
    ensures |r.0| == |lengths| && |r.1| == |ratings|
  {
    var l := AddToBin(lengths, LengthBinIndex(gameLength));
    if avgRating == 0.0 then (l, ratings)
    else (l, AddToBin(ratings, RatingBinIndex(avgRating)))
  }

  /** With the histograms of the worker (39 bins each), a game counts in
      the length histogram exactly when it is shorter than 195 moves, and
      in the rating histogram exactly when its mean rating is in
      [1000, 2950). */
  lemma UpdateHistogramsCounts(lengths: seq<nat>, ratings: seq<nat>, gameLength: nat, avgRating: real)
    requires |lengths| == 39 && |ratings| == 39
    ensures var r := UpdateHistograms(lengths, ratings, gameLength, avgRating);
      SumNat(r.0) == SumNat(lengths) + (if gameLength < 195 then 1 else 0)
      && SumNat(r.1) == SumNat(ratings) + (if 1000.0 <= avgRating < 2950.0 then 1 else 0)
  {
    AddToBinCounts(lengths, LengthBinIndex(gameLength));
    AddToBinCounts(ratings, RatingBinIndex(avgRating));
  }

  /** Only the bins holding the game's length and rating change, each by
      one: the bin k of lengths in [5k, 5k + 5) and the bin k of ratings
      in [1000 + 50k, 1050 + 50k). */
  lemma UpdateHistogramsPlace(lengths: seq<nat>, ratings: seq<nat>, gameLength: nat, avgRating: real, k: int)
    requires |lengths| == 39 && |ratings| == 39 && 0 <= k < 39
    ensures var r := UpdateHistograms(lengths, ratings, gameLength, avgRating);
      (r.0[k] != lengths[k] ==> 5 * k <= gameLength < 5 * k + 5 && r.0[k] == lengths[k] + 1)
      && (r.1[k] != ratings[k] ==>
            (1000 + 50 * k) as real <= avgRating < (1050 + 50 * k) as real && r.1[k] == ratings[k] + 1)
  {
    AddToBinCounts(lengths, LengthBinIndex(gameLength));
    AddToBinCounts(ratings, RatingBinIndex(avgRating));
  }

  // ---- the worker's state ---------------------------------------------------

  datatype Results = Results(wins: nat, losses: nat, draws: nat)

  /** The worker's counters, histograms, in-memory buffer, the dataset
      written so far (current_dataset_size is its length) and the number of
      HDF5 writes attempted. */
  datatype State = State(totalSamples: nat, totalMoves: nat, totalGames: nat, results: Results,
                         lengths: seq<nat>, ratings: seq<nat>, buffer: seq<Sample>,
                         written: seq<Sample>, datasetSize: nat, attempts: nat)

  function Initial(): State
  {
    State(0, 0, 0, Results(0, 0, 0), seq(39, _ => 0), seq(39, _ => 0), [], [], 0, 0)
  }

  function Tally(c: Results, g: GameResult): (r: Results)
    ensures r.wins + r.losses + r.draws == c.wins + c.losses + c.draws + 1
  {
    match g
    case WhiteWins => c.(wins := c.wins + 1)
    case BlackWins => c.(losses := c.losses + 1)
    case Drawn => c.(draws := c.draws + 1)
  }

  /** The bookkeeping every state of the worker keeps: the size is the
      length of what was written, every sample counted is either written
      or buffered, and the histograms have 39 bins. */
  predicate Consistent(s: State)
  {
    s.datasetSize == |s.written| && s.totalSamples == |s.written| + |s.buffer|
    && s.totalMoves == s.totalSamples && |s.lengths| == 39 && |s.ratings| == 39
  }

  /** _write_batch_to_h5, attempt number s.attempts: when the HDF5 write
      succeeds (ok says whether it does) the buffer is appended to the
      dataset, the size grows by its length and the buffer is cleared; when
      it raises, the error is logged and the size and the buffer stay as
      they were. */
  function WriteBuffer(s: State, ok: nat -> bool): (r: State)
    ensures r.attempts == s.attempts + 1
    ensures r.written + r.buffer == s.written + s.buffer
    ensures ok(s.attempts) ==>
      r.buffer == [] && r.written == s.written + s.buffer && r.datasetSize == s.datasetSize + |s.buffer|
    ensures !ok(s.attempts) ==> r == s.(attempts := s.attempts + 1)
    ensures Consistent(s) ==> Consistent(r) && r.totalSamples == s.totalSamples
  {
    if ok(s.attempts) then
      s.(written := s.written + s.buffer, datasetSize := s.datasetSize + |s.buffer|, buffer := [],
         attempts := s.attempts + 1)
    else
      s.(attempts := s.attempts + 1)
  }

  /** _process_data_entry: an entry without samples changes nothing;
      otherwise the counters grow, the histograms take the game, the
      samples join the buffer, and a buffer of batchSize samples or more
      is written out; it is empty afterwards exactly when that write
      succeeds. */
  function ProcessDataEntry(s: State, e: Entry, batchSize: int, ok: nat -> bool): (r: State)
    ensures e.samples == [] ==> r == s
    ensures Consistent(s) ==> Consistent(r)
    ensures r.written + r.buffer == s.written + s.buffer + e.samples
    ensures e.samples != [] ==> (r.totalSamples == s.totalSamples + |e.samples|
      && r.results == Tally(s.results, e.result))
    ensures e.samples != [] && |s.buffer| + |e.samples| >= batchSize ==>
      r.attempts == s.attempts + 1 && (r.buffer == [] <==> ok(s.attempts))
    ensures e.samples != [] && |s.buffer| + |e.samples| >= batchSize && !ok(s.attempts) ==>
      r.buffer == s.buffer + e.samples && r.written == s.written
    ensures |s.buffer| + |e.samples| < batchSize ==>
      r.buffer == s.buffer + e.samples && r.attempts == s.attempts
  {
    if e.samples == [] then s
    else
      var t := Record(s, e);
      assert t.written + t.buffer == s.written + s.buffer + e.samples;
      if |t.buffer| >= batchSize then WriteBuffer(t, ok) else t
  }

  /** The counters, results and histograms take the game and its samples
      join the buffer. */
  function Record(s: State, e: Entry): (r: State)
    ensures r.buffer == s.buffer + e.samples && r.written == s.written && r.attempts == s.attempts
    ensures r.totalSamples == s.totalSamples + |e.samples| && r.results == Tally(s.results, e.result)
    ensures Consistent(s) ==> Consistent(r)
  {
    var n := |e.samples|;
    var h := UpdateHistograms(s.lengths, s.ratings, e.gameLength, e.avgRating);
    s.(totalSamples := s.totalSamples + n, totalMoves := s.totalMoves + n,
       results := Tally(s.results, e.result), lengths := h.0, ratings := h.1,
       buffer := s.buffer + e.samples)
  }

  // ---- the reading loop -------------------------------------------------------

  /** Worker settings: the game limit, the minimum rating, the batch size,
      and whether the k-th HDF5 write succeeds. */
  datatype Settings = Settings(maxGames: int, minElo: int, batchSize: int, writeOk: nat -> bool)

  /** The entry of a game that passes the rating check, if it yields one. */
  function Entered(engine: Option<Board -> Score>, push: (Board, Move) -> Board, g: Game, minElo: int)
    : (r: Option<Entry>)
    ensures r.Some? ==> Admitted(g, minElo) && ProcessGame(engine, push, g) == r && r.value.samples != []
  {
    if Admitted(g, minElo) then ProcessGame(engine, push, g) else None
  }

  /** An entry recorded and the game counted. */
  function Counted(s: State, e: Entry, cfg: Settings): (r: State)
    ensures r.totalGames == s.totalGames + 1
    ensures Consistent(s) ==> Consistent(r)
    ensures r.written + r.buffer == s.written + s.buffer + e.samples
    ensures e.samples != [] ==> r.results == Tally(s.results, e.result)
  {
    ProcessDataEntry(s, e, cfg.batchSize, cfg.writeOk).(totalGames := s.totalGames + 1)
  }

  /** The while loop of run_task from game i on: it stops at the game
      limit, when stop(i) is set before game i is read, or at the end of
      the file; a game that is not admitted or yields no entry is skipped. */
  function Reading(engine: Option<Board -> Score>, push: (Board, Move) -> Board, games: seq<Game>,
                   cfg: Settings, stop: nat -> bool, i: nat, s: State): (r: State)
    requires i <= |games|
    ensures s.totalGames <= r.totalGames
    ensures s.totalGames < cfg.maxGames ==> r.totalGames <= cfg.maxGames
    ensures s.totalGames >= cfg.maxGames ==> r == s
    ensures Consistent(s) ==> Consistent(r)
    ensures r.results.wins + r.results.losses + r.results.draws - r.totalGames ==
      s.results.wins + s.results.losses + s.results.draws - s.totalGames
    decreases |games| - i
  {
    if s.totalGames >= cfg.maxGames || stop(i) || i == |games| then s
    else
      match Entered(engine, push, games[i], cfg.minElo)
      case None => Reading(engine, push, games, cfg, stop, i + 1, s)
      case Some(e) => Reading(engine, push, games, cfg, stop, i + 1, Counted(s, e, cfg))
  }

  /** run_task without the I/O: the loop from the first game, then the
      write of what is left in the buffer; the flag says whether the
      dataset is split afterwards (it is not once stop is set). Samples
      stay in the buffer only when the last write attempted failed. */
  function RunTask(engine: Option<Board -> Score>, push: (Board, Move) -> Board, games: seq<Game>,
                   cfg: Settings, stop: nat -> bool, stoppedAtEnd: bool): (r: (State, bool))
    ensures Consistent(r.0)
    ensures r.0.buffer == [] || (r.0.attempts > 0 && !cfg.writeOk(r.0.attempts - 1))
    ensures (forall k: nat :: cfg.writeOk(k)) ==> r.0.buffer == [] && r.0.datasetSize == r.0.totalSamples
    ensures r.0.totalGames <= if cfg.maxGames < 0 then 0 else cfg.maxGames
    ensures r.0.results.wins + r.0.results.losses + r.0.results.draws == r.0.totalGames
    ensures r.1 == !stoppedAtEnd
  {
    var s := Reading(engine, push, games, cfg, stop, 0, Initial());
    var t := if s.buffer != [] then WriteBuffer(s, cfg.writeOk) else s;
    (t, !stoppedAtEnd)
  }

  /** The entries of the games from i on that are admitted and processed. */
  function Kept(engine: Option<Board -> Score>, push: (Board, Move) -> Board, games: seq<Game>, minElo: int,
                i: nat): seq<Entry>
    requires i <= |games|
    decreases |games| - i
  {
    if i == |games| then []
    else
      var rest := Kept(engine, push, games, minElo, i + 1);
      match Entered(engine, push, games[i], minElo)
      case None => rest
      case Some(e) => [e] + rest
  }

  function Concat(es: seq<Entry>): seq<Sample>
    decreases |es|
  {
    if |es| == 0 then [] else es[0].samples + Concat(es[1..])
  }

  /** Without a stop and with room for all of them under the limit, the
      loop counts every admitted, processed game, and the dataset and
      buffer hold their samples in file order. */
  lemma {:induction false} ReadingKeepsAll(engine: Option<Board -> Score>, push: (Board, Move) -> Board,
                                           games: seq<Game>, cfg: Settings, stop: nat -> bool, i: nat, s: State)
    requires i <= |games|
    requires forall k: nat :: !stop(k)
    requires s.totalGames + |Kept(engine, push, games, cfg.minElo, i)| <= cfg.maxGames
    ensures var r := Reading(engine, push, games, cfg, stop, i, s);
      r.totalGames == s.totalGames + |Kept(engine, push, games, cfg.minElo, i)|
      && r.written + r.buffer == s.written + s.buffer + Concat(Kept(engine, push, games, cfg.minElo, i))
    decreases |games| - i
  {
    if i < |games| && s.totalGames < cfg.maxGames {
      var o := Entered(engine, push, games[i], cfg.minElo);
      var rest := Kept(engine, push, games, cfg.minElo, i + 1);
      ReadingStep(engine, push, games, cfg, stop, i, s);
      ReadingKeepsAll(engine, push, games, cfg, stop, i + 1, Next(s, o, cfg));
      if o.Some? {
        assert ([o.value] + rest)[1..] == rest;
      }
    }
  }

  /** The state after game i: counted with its entry, or unchanged. */
  function Next(s: State, o: Option<Entry>, cfg: Settings): State
  {
    match o
    case None => s
    case Some(e) => Counted(s, e, cfg)
  }

  /** One turn of the loop, and the matching step of Kept. */
  lemma ReadingStep(engine: Option<Board -> Score>, push: (Board, Move) -> Board,
                    games: seq<Game>, cfg: Settings, stop: nat -> bool, i: nat, s: State)
    requires i < |games| && s.totalGames < cfg.maxGames && !stop(i)
    ensures var o := Entered(engine, push, games[i], cfg.minElo);
      Reading(engine, push, games, cfg, stop, i, s) ==
        Reading(engine, push, games, cfg, stop, i + 1, Next(s, o, cfg))
      && Kept(engine, push, games, cfg.minElo, i) ==
        (if o.Some? then [o.value] else []) + Kept(engine, push, games, cfg.minElo, i + 1)
  {
  }

  /** Every game counted passed the rating check: its two ratings are
      integers of at least the minimum. */
  lemma {:induction false} KeptAdmitted(engine: Option<Board -> Score>, push: (Board, Move) -> Board,
                                        games: seq<Game>, minElo: int, i: nat)
    requires i <= |games|
    ensures forall e | e in Kept(engine, push, games, minElo, i) ::
      exists k | i <= k < |games| :: Entered(engine, push, games[k], minElo) == Some(e)
    decreases |games| - i
  {
    if i < |games| {
      var rest := Kept(engine, push, games, minElo, i + 1);
      KeptAdmitted(engine, push, games, minElo, i + 1);
      forall e | e in Kept(engine, push, games, minElo, i)
        ensures exists k | i <= k < |games| :: Entered(engine, push, games[k], minElo) == Some(e)
      {
        if e !in rest {
          assert Entered(engine, push, games[i], minElo) == Some(e);
        }
      }
    }
  }

  // ---- the split ----------------------------------------------------------------

  /** _split_dataset over a shuffle of 0 .. n - 1 (Pipeline.CreateSplits
      is the same slicing): every index lands in exactly one of train,
      validation and test. */
  lemma SplitCoversOnce(perm: seq<nat>, i: nat)
    requires Distinct(perm) && i in perm
    ensures var s := Pipeline.CreateSplits(perm).value;
      (i in s.train || i in s.val || i in s.test)
      && !(i in s.train && i in s.val) && !(i in s.train && i in s.test) && !(i in s.val && i in s.test)
  {
    var s := Pipeline.CreateSplits(perm).value;
    var a, b := Pipeline.TrainEnd(|perm|), Pipeline.ValEnd(|perm|);
    assert s.train == perm[..a] && s.val == perm[a..b] && s.test == perm[b..];
  }
}
