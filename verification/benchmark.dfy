/** The benchmark of two bots: how a bot picks its move in each of its four
    configurations (opening book then search, search only, book only, raw
    policy), the opening-book choice, the game loop between the two bots and
    its Result header, the winner of a game, the final tally, and the check
    that both bots can play at all.

    A bot's network is the evaluator's policy oracle; how many simulations
    fit in the time budget is an input; the opening book is the parsed JSON
    with each move given as its parsed UCI move (None when it does not
    parse) and its statistics (None when they are not a dictionary). */
module Benchmark {
  import opened Common
  import opened Chess
  import opened Evaluator
  import opened Mcts

  /** The exploration constant of a bot's search. */
  const EXPLORATION: real := 1.4

  // ---- the opening book ---------------------------------------------------

  /** win, draw and loss of a book move, absent keys read as 0. */
  datatype Stats = Stats(win: nat, draw: nat, loss: nat)

  datatype BookEntry = BookEntry(move: Option<Move>, stats: Option<Stats>)

  /** FEN of a position to its moves, in the book's order. */
  type Book = map<string, seq<BookEntry>>

  function Total(s: Stats): nat
  {
    s.win + s.draw + s.loss
  }

  /** (win + 0.5 draw) / total: the share of points the move scored. */
  function BookScore(s: Stats): (r: real)
    requires Total(s) > 0
    ensures 0.0 <= r <= 1.0
    ensures r == 1.0 <==> s.draw == 0 && s.loss == 0
  {
    var t := Total(s) as real;
    var points := (s.win as real) + 0.5 * (s.draw as real);
    assert points <= t;
    assert points == t <==> s.draw == 0 && s.loss == 0;
    DivAtMostOne(points, t);
    points / t
  }

  /** A move the loop may choose: dictionary statistics with a positive
      total, a parsable move, and that move legal here. */
  predicate Candidate(e: BookEntry, legal: seq<Move>)
  {
    e.stats.Some? && Total(e.stats.value) > 0 && e.move.Some? && e.move.value in legal
  }

  function CandidateScore(e: BookEntry, legal: seq<Move>): real
    requires Candidate(e, legal)
  {
    BookScore(e.stats.value)
  }

  /** The loop over a position's book moves: the position of the chosen
      entry, replaced only by a strictly higher score. */
  function BookScan(es: seq<BookEntry>, legal: seq<Move>): (r: Option<nat>)
    ensures r.None? <==> forall k | 0 <= k < |es| :: !Candidate(es[k], legal)
    ensures r.Some? ==> r.value < |es| && Candidate(es[r.value], legal)
    ensures r.Some? ==> forall k | 0 <= k < |es| && Candidate(es[k], legal) ::
      CandidateScore(es[k], legal) <= CandidateScore(es[r.value], legal)
    ensures r.Some? ==> forall k | 0 <= k < r.value && Candidate(es[k], legal) ::
      CandidateScore(es[k], legal) < CandidateScore(es[r.value], legal)
    decreases |es|
  {
    if |es| == 0 then None
    else
      var n := |es| - 1;
      var prev := BookScan(es[..n], legal);
      assert forall k | 0 <= k < n :: es[..n][k] == es[k];
      var e := es[n];
      if Candidate(e, legal) && (prev.None? || CandidateScore(e, legal) > CandidateScore(es[prev.value], legal))
      then Some(n)
      else prev
  }

  /** get_opening_book_move: the null move (None) for an empty book, a
      position not in the book, or no candidate; otherwise the legal book
      move of highest score, the first one on a tie. */
  function BookMove(book: Book, fen: string, legal: seq<Move>): (r: Option<Move>)
    ensures r.Some? ==> r.value in legal
    ensures r.None? <==> fen !in book || forall k | 0 <= k < |book[fen]| :: !Candidate(book[fen][k], legal)
    ensures r.Some? ==> exists k | 0 <= k < |book[fen]| ::
      (Candidate(book[fen][k], legal) && r.value == book[fen][k].move.value
       && forall j | 0 <= j < |book[fen]| && Candidate(book[fen][j], legal) ::
            CandidateScore(book[fen][j], legal) <= CandidateScore(book[fen][k], legal))
  {
    if |book| == 0 then
      assert fen !in book;
      None
    else if fen !in book then None
    else
      match BookScan(book[fen], legal)
      case None => None
      case Some(k) => Some(book[fen][k].move.value)
  }

  /** get_move_pth: the null move without a model or without a legal move;
      otherwise the first legal move of maximal probability. */
  function PthMove(loaded: bool, policy: seq<real>, legal: seq<Move>): (r: Option<Move>)
    ensures r.None? <==> !loaded || |legal| == 0
    ensures r.Some? ==> r.value in legal
  {
    if !loaded || |legal| == 0 then None
    else
      var d := BoardActionProbs(Some(policy), legal);
      assert |Values(d)| == |legal|;
      Some(legal[FirstArgMax(Values(d))])
  }

  /** Normalising does not change which move is the first of maximal
      probability: the raw choice is the first legal move of maximal
      floored policy value. */
  lemma PthMoveIsPolicyArgMax(policy: seq<real>, legal: seq<Move>)
    requires |legal| > 0
    ensures PthMove(true, policy, legal) == Some(legal[FirstArgMax(Raw(policy, legal))])
  {
    var d := BoardActionProbs(Some(policy), legal);
    var raw := Raw(policy, legal);
    var t := Sum(raw);
    RawPositive(policy, legal);
    assert Values(d) == seq(|raw|, i requires 0 <= i < |raw| => raw[i] / t);
    var k := FirstArgMax(Values(d));
    ScaledFirstMax(raw, t, k);
    FirstMaxUnique(raw, k, FirstArgMax(raw));
  }

  /** Dividing by a positive total keeps the first maximum where it is. */
  lemma ScaledFirstMax(xs: seq<real>, t: real, k: nat)
    requires t > 0.0
    requires IsFirstMax(seq(|xs|, i requires 0 <= i < |xs| => xs[i] / t), k)
    ensures IsFirstMax(xs, k)
  {
    var ys := seq(|xs|, i requires 0 <= i < |xs| => xs[i] / t);
    forall j | 0 <= j < |xs|
      ensures xs[j] <= xs[k] && (j < k ==> xs[j] < xs[k])
    {
      assert ys[j] == xs[j] / t && ys[k] == xs[k] / t;
      DivOrder(xs[j], xs[k], t);
    }
  }

  // ---- the search -----------------------------------------------------------

  /** The n_simulations of a bot's search: initialize_mcts is called with
      its default of 100. */
  const BOT_SIMULATIONS: nat := 100

  /** The search inputs of a bot: the oracles of its tree search, the
      exponential, and how many simulations of the timed loop fit in the
      time per move. */
  datatype Search = Search(o: Oracles, exp: real -> real, simulations: nat)

  ghost predicate PositiveExp(s: Search)
  {
    forall x :: s.exp(x) > 0.0
  }

  /** The number of simulations the root receives in get_move_mcts: those
      of the timed loop (none when the game is over), then the
      BOT_SIMULATIONS that get_move_probs runs itself. */
  function Simulations(s: Search, b: Board): nat
  {
    (if s.o.gameOver(b) then 0 else s.simulations) + BOT_SIMULATIONS
  }

  /** The root after get_move_mcts has searched: set_root_node, then all
      its simulations in a row. */
  function SearchedRoot(s: Search, b: Board): Node
  {
    Run(SetRootNode(b, s.o), s.o, EXPLORATION, Simulations(s, b))
  }

  /** get_move_mcts: the null move without a search tree (no search asked
      for, or no model) or without root children; otherwise the first move
      of maximal probability at temperature 1e-3. */
  function MctsMove(loaded: bool, useMcts: bool, s: Search, b: Board): (r: Option<Move>)
    requires PositiveExp(s)
    ensures r.None? <==> !(loaded && useMcts) || |SearchedRoot(s, b).children| == 0
    ensures r.Some? ==> r.value in ChildMoves(SearchedRoot(s, b).children)
  {
    if !(loaded && useMcts) then None
    else
      var root := SearchedRoot(s, b);
      var probs := MoveProbs(root, LOW_TEMPERATURE, s.exp);
      if |probs| == 0 then None
      else
        assert |Values(probs)| == |probs| && Keys(probs)[FirstArgMax(Values(probs))] in Keys(probs);
        Some(Keys(probs)[FirstArgMax(Values(probs))])
  }

  /** get_move_mcts as written: each turn of the timed loop calls
      simulate, which the MCTS class does not define, so the first turn
      raises AttributeError and nothing catches it on the way out of
      run_task. None is that exception; Some(m) is a move returned. */
  function MctsMoveAsWritten(loaded: bool, useMcts: bool, s: Search, b: Board): (r: Option<Option<Move>>)
    requires PositiveExp(s)
    ensures r.None? <==> loaded && useMcts && s.simulations > 0 && !s.o.gameOver(b)
    ensures r.Some? ==> r.value == MctsMove(loaded, useMcts, s, b)
  {
    if !(loaded && useMcts) then Some(None)
    else if s.simulations > 0 && !s.o.gameOver(b) then None
    else Some(MctsMove(loaded, useMcts, s, b))
  }

  /** The discrepancy: with time for one simulation and a legal move, the
      search bot as written raises, where the intended search returns a
      legal move. */
  lemma MctsMoveAsWrittenRaises(s: Search, b: Board)
    requires PositiveExp(s) && s.simulations > 0 && !s.o.gameOver(b) && |s.o.legal(b)| > 0
    ensures MctsMoveAsWritten(true, true, s, b).None?
    ensures MctsMove(true, true, s, b).Some? && MctsMove(true, true, s, b).value in s.o.legal(b)
  {
    MctsMoveMostVisited(s, b);
  }

  /** The searched move is the first most visited root child, and it is a
      legal move of the position whenever there is one. */
  lemma MctsMoveMostVisited(s: Search, b: Board)
    requires PositiveExp(s) && |s.o.legal(b)| > 0
    ensures MctsMove(true, true, s, b).Some?
    ensures MctsMove(true, true, s, b).value in s.o.legal(b)
    ensures MctsMove(true, true, s, b).value ==
      SearchedRoot(s, b).children[FirstArgMax(VisitVector(SearchedRoot(s, b).children))].move
  {
    var root := SearchedRoot(s, b);
    SearchedRootMoves(s, b);
    LowTemperatureChoice(root, s.exp);
    var k := FirstArgMax(VisitVector(root.children));
    assert ChildMoves(root.children)[k] == root.children[k].move;
  }

  /** With a legal move, the searched root has children, and they are
      legal moves of the position. */
  lemma SearchedRootMoves(s: Search, b: Board)
    requires |s.o.legal(b)| > 0
    ensures |SearchedRoot(s, b).children| > 0
    ensures forall m | m in ChildMoves(SearchedRoot(s, b).children) :: m in s.o.legal(b)
  {
    var start := SetRootNode(b, s.o);
    var n := Simulations(s, b);
    var root := Run(start, s.o, EXPLORATION, n);
    assert root == SearchedRoot(s, b);
    assert |start.children| > 0 by {
      assert s.o.legal(b)[0] in ChildMoves(start.children);
    }
    RunConservation(start, s.o, EXPLORATION, n);
    ChildMovesWithin(start.children, s.o.legal(b));
  }

  /** At temperature 1e-3 the first maximum of the distribution is the
      first most visited child. */
  lemma LowTemperatureChoice(root: Node, exp: real -> real)
    requires forall x :: exp(x) > 0.0
    requires |root.children| > 0
    ensures FirstArgMax(Values(MoveProbs(root, LOW_TEMPERATURE, exp))) ==
      FirstArgMax(VisitVector(root.children))
  {
    var probs := MoveProbs(root, LOW_TEMPERATURE, exp);
    var visits := VisitVector(root.children);
    var k := FirstArgMax(visits);
    var vs := Values(probs);
    forall i | 0 <= i < |vs|
      ensures vs[i] == if i == k then 1.0 else 0.0
    {
      if IsFirstMax(visits, i) {
        FirstMaxUnique(visits, i, k);
      }
    }
    assert IsFirstMax(vs, k);
    FirstMaxUnique(vs, k, FirstArgMax(vs));
  }

  // ---- a bot's move ---------------------------------------------------------

  /** A bot: whether its model loaded, and whether it uses the search and
      the opening book. */
  datatype Bot = Bot(loaded: bool, useMcts: bool, useBook: bool)

  /** What a bot consults to move: its search (whose network also gives
      the raw policy), the book and the FEN of a position. */
  datatype Env = Env(search: Search, book: Book, fen: Board -> string)

  /** get_move: book then search when both are enabled, the search alone,
      the book alone, and the raw policy otherwise. */
  function GetMove(bot: Bot, env: Env, b: Board): (r: Option<Move>)
    requires PositiveExp(env.search)
    ensures bot.useMcts && bot.useBook ==>
      r == (if BookMove(env.book, env.fen(b), env.search.o.legal(b)).Some?
            then BookMove(env.book, env.fen(b), env.search.o.legal(b))
            else MctsMove(bot.loaded, true, env.search, b))
    ensures bot.useMcts && !bot.useBook ==> r == MctsMove(bot.loaded, true, env.search, b)
    ensures !bot.useMcts && bot.useBook ==> r == BookMove(env.book, env.fen(b), env.search.o.legal(b))
    ensures !bot.useMcts && !bot.useBook ==>
      r == PthMove(bot.loaded, env.search.o.net(b).0, env.search.o.legal(b))
  {
    var legal := env.search.o.legal(b);
    if bot.useMcts && bot.useBook then
      var m := BookMove(env.book, env.fen(b), legal);
      if m.Some? then m else MctsMove(bot.loaded, bot.useMcts, env.search, b)
    else if bot.useMcts then MctsMove(bot.loaded, bot.useMcts, env.search, b)
    else if bot.useBook then BookMove(env.book, env.fen(b), legal)
    else PthMove(bot.loaded, env.search.o.net(b).0, legal)
  }

  /** _validate_bots: a bot needs a model, the book or the search. */
  predicate Valid(bot: Bot)
  {
    bot.loaded || bot.useBook || bot.useMcts
  }

  /** Every move a bot plays is legal whenever the position has a legal
      move, and a bot the validation rejects never moves. A bot that
      passes it with the search but no model never moves either. */
  lemma GetMoveLegal(bot: Bot, env: Env, b: Board)
    requires PositiveExp(env.search)
    ensures |env.search.o.legal(b)| > 0 && GetMove(bot, env, b).Some? ==>
      GetMove(bot, env, b).value in env.search.o.legal(b)
    ensures !Valid(bot) ==> GetMove(bot, env, b).None?
    ensures bot.useMcts && !bot.loaded && !bot.useBook ==> Valid(bot) && GetMove(bot, env, b).None?
  {
    if bot.useMcts && bot.loaded && |env.search.o.legal(b)| > 0 {
      MctsMoveMostVisited(env.search, b);
    }
  }

  // ---- one game -------------------------------------------------------------

  /** The game loop from position b after count moves: it ends at game
      over, on the stop flag, on a null move, or (here) when the fuel runs
      out. Bot1 plays White, Bot2 Black. */
  function PlayGame(bot1: Bot, bot2: Bot, env: Env, stopped: nat -> bool, b: Board, count: nat, fuel: nat)
    : (r: (Board, nat))
    requires PositiveExp(env.search)
    ensures count <= r.1 <= count + fuel
    ensures r.1 - count < fuel ==>
      env.search.o.gameOver(r.0) || stopped(r.1)
      || GetMove(if r.0.whiteToMove then bot1 else bot2, env, r.0).None?
    decreases fuel
  {
    if fuel == 0 || env.search.o.gameOver(b) || stopped(count) then (b, count)
    else
      match GetMove(if b.whiteToMove then bot1 else bot2, env, b)
      case None => (b, count)
      case Some(mv) => PlayGame(bot1, bot2, env, stopped, env.search.o.push(b, mv), count + 1, fuel - 1)
  }

  /** The Result header of the game's PGN, by the sign of the result. */
  function Header(result: real): string
  {
    if result > 0.0 then "1-0" else if result < 0.0 then "0-1" else "1/2-1/2"
  }

  datatype Winner = Bot1 | Bot2 | Draw

  /** _determine_winner. */
  function DetermineWinner(result: real): Winner
  {
    if result > 0.0 then Bot1 else if result < 0.0 then Bot2 else Draw
  }

  /** The header and the winner tell the same story, and a game that did
      not finish (stopped, or a null move) is recorded as a draw. */
  lemma HeaderMatchesWinner(tag: ResultTag)
    ensures Header(ResultValue(tag)) == "1-0" <==> DetermineWinner(ResultValue(tag)) == Bot1
    ensures Header(ResultValue(tag)) == "0-1" <==> DetermineWinner(ResultValue(tag)) == Bot2
    ensures Header(ResultValue(tag)) == "1/2-1/2" <==> DetermineWinner(ResultValue(tag)) == Draw
    ensures DetermineWinner(ResultValue(tag)) == Bot1 <==> tag == WhiteWins
    ensures DetermineWinner(ResultValue(tag)) == Bot2 <==> tag == BlackWins
    ensures tag == Unfinished ==> Header(ResultValue(tag)) == "1/2-1/2"
  {
  }

  // ---- the whole benchmark ----------------------------------------------------

  datatype Tally = Tally(bot1Wins: nat, bot2Wins: nat, draws: nat, totalGames: nat)

  /** _aggregate_results: the winners counted, and total_games the
      configured number of games. */
  function Aggregate(winners: seq<Winner>, numGames: nat): (t: Tally)
    ensures t.bot1Wins + t.bot2Wins + t.draws == |winners|
    ensures t.totalGames == numGames
  {
    assert forall i | 0 <= i < |winners| :: winners[i].Bot1? || winners[i].Bot2? || winners[i].Draw?;
    CountPartition(winners, Bot1, Bot2, Draw);
    Tally(Count(winners, Bot1), Count(winners, Bot2), Count(winners, Draw), numGames)
  }

  /** The games idx, ..., numGames of run_task: the stop flag read before
      game idx returns without any tally (None); play(idx) is the result of
      game idx. */
  function GamesFrom(numGames: nat, stop: nat -> bool, play: nat -> real, idx: nat): (r: Option<seq<Winner>>)
    requires 1 <= idx
    ensures r.None? <==> exists k | idx <= k <= numGames :: stop(k)
    ensures r.Some? ==> |r.value| == numGames + 1 - idx || (idx > numGames && r.value == [])
    ensures r.Some? ==> forall j | 0 <= j < |r.value| :: r.value[j] == DetermineWinner(play(idx + j))
    decreases numGames + 1 - idx
  {
    if idx > numGames then Some([])
    else if stop(idx) then None
    else
      match GamesFrom(numGames, stop, play, idx + 1)
      case None => None
      case Some(rest) =>
        var r := [DetermineWinner(play(idx))] + rest;
        assert forall j | 1 <= j < |r| :: r[j] == rest[j - 1] && idx + 1 + (j - 1) == idx + j;
        Some(r)
  }

  /** run_task: nothing when a bot is not valid or the run was stopped;
      otherwise the tally of all numGames games. */
  function RunBenchmark(bot1: Bot, bot2: Bot, numGames: nat, stop: nat -> bool, play: nat -> real)
    : (r: Option<Tally>)
    ensures r.Some? <==> Valid(bot1) && Valid(bot2) && forall k | 1 <= k <= numGames :: !stop(k)
  {
    if !Valid(bot1) || !Valid(bot2) then None
    else
      match GamesFrom(numGames, stop, play, 1)
      case None => None
      case Some(ws) => Some(Aggregate(ws, numGames))
  }

  /** A tally that is emitted covers every configured game: its wins and
      draws add up to total_games, and Bot1's wins are exactly the games
      with a positive result. */
  lemma RunBenchmarkComplete(bot1: Bot, bot2: Bot, numGames: nat, stop: nat -> bool, play: nat -> real)
    requires RunBenchmark(bot1, bot2, numGames, stop, play).Some?
    ensures var t := RunBenchmark(bot1, bot2, numGames, stop, play).value;
      t.bot1Wins + t.bot2Wins + t.draws == t.totalGames == numGames
  {
    var ws := GamesFrom(numGames, stop, play, 1).value;
    assert |ws| == numGames;
  }
}
