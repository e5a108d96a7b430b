/** The supervised data pipeline over PGN games: the header filters of a
    game, the samples of its main line (input position, move index, value
    from the side to move, and the mirrored copy), the opening-book counts,
    the per-batch tallies, the dataset size kept by the batch writer, the
    reading loop with its game limit, the 80/10/10 index split and the final
    filter of the opening book.

    The move index is the table of the move mapping; the encoder of a
    position and its history is not modelled, so a sample records the
    position it encodes and whether the encoding is of the mirrored board.
    The rules of chess (legal moves, making a move, FEN) are oracles, and a
    header that does not parse as an integer is given as Malformed. */
module Pipeline {
  import opened Common
  import opened Chess
  import opened Moves

  // ---- the header filters -----------------------------------------------------

  /** An Elo header: absent, an integer, or text int() rejects. */
  datatype EloHeader = Absent | Number(value: int) | Malformed

  /** The headers process_game reads; an absent text header is "". */
  datatype Headers = Headers(variant: bool, whiteTitle: string, blackTitle: string,
                             whiteElo: EloHeader, blackElo: EloHeader, result: string,
                             timeControl: string, eco: string, opening: string)

  datatype Config = Config(minElo: int, maxElo: int, augmentFlip: bool, book: bool,
                           openingMaxMoves: int, openingMinGames: int)

  /** int(game.headers.get(key, 0)). */
  function Elo(h: EloHeader): Option<int>
  {
    match h
    case Absent => Some(0)
    case Number(v) => Some(v)
    case Malformed => None
  }

  /** The result map: "1-0" is 1, "0-1" is -1, "1/2-1/2" is 0, and any
      other text has no value. */
  function GameValue(result: string): (r: Option<real>)
    ensures r.Some? <==> result in {"1-0", "0-1", "1/2-1/2"}
    ensures r.Some? ==> r.value in {1.0, -1.0, 0.0}
  {
    if result == "1-0" then Some(1.0)
    else if result == "0-1" then Some(-1.0)
    else if result == "1/2-1/2" then Some(0.0)
    else None
  }

  predicate InRange(elo: int, cfg: Config)
  {
    cfg.minElo <= elo <= cfg.maxElo
  }

  /** The checks at the head of process_game: the two ratings and the
      game value of an accepted game. */
  function Screen(h: Headers, cfg: Config): (r: Option<(int, int, real)>)
    ensures r.Some? <==>
      !h.variant && h.whiteTitle != "BOT" && h.blackTitle != "BOT"
      && Elo(h.whiteElo).Some? && Elo(h.blackElo).Some?
      && InRange(Elo(h.whiteElo).value, cfg) && InRange(Elo(h.blackElo).value, cfg)
      && h.result in {"1-0", "0-1", "1/2-1/2"}
    ensures r.Some? ==> r.value.0 == Elo(h.whiteElo).value && r.value.1 == Elo(h.blackElo).value
    ensures r.Some? ==> GameValue(h.result) == Some(r.value.2)
  {
    if h.variant || h.whiteTitle == "BOT" || h.blackTitle == "BOT" then None
    else
      match (Elo(h.whiteElo), Elo(h.blackElo))
      case (Some(we), Some(be)) =>
        if we < cfg.minElo || be < cfg.minElo || we > cfg.maxElo || be > cfg.maxElo then None
        else
          (match GameValue(h.result)
           case None => None
           case Some(gr) => Some((we, be, gr)))
      case _ => None
  }

  // ---- the samples of a game ------------------------------------------------

  /** What the loop consults: legal moves, making a move, and the FEN. */
  datatype Rules = Rules(legal: Board -> seq<Move>, push: (Board, Move) -> Board, fen: Board -> string)

  /** One training sample: the position encoded (mirrored when flipped),
      the move whose index is the policy target, and the value target. */
  datatype Sample = Sample(board: Board, move: Move, flipped: bool, policy: nat, value: real)

  /** A position recorded for the opening book: FEN, move, White to move. */
  datatype BookPosition = BookPosition(fen: string, move: Move, whiteToMove: bool)

  datatype Extraction = Extraction(samples: seq<Sample>, opening: seq<BookPosition>)

  /** The samples of one position and its move: none for an unmapped move;
      otherwise the value of the game for the side to move, then, with
      augmentation and a mapped mirrored move, the mirrored sample with the
      value negated. */
  function MoveSamples(cfg: Config, gr: real, b: Board, m: Move): seq<Sample>
  {
    match IndexOf(m)
    case None => []
    case Some(id) =>
      var v := if b.whiteToMove then gr else -gr;
      var f := FlipMove(m);
      [Sample(b, m, false, id, v)]
        + (if cfg.augmentFlip && IndexOf(f).Some? then [Sample(b, f, true, IndexOf(f).value, -v)] else [])
  }

  /** The while loop over the main line from position b after count moves:
      an illegal move ends it; the first openingMaxMoves moves are
      recorded for the book; an unmapped move gives no sample but is
      played. */
  function Extract(cfg: Config, rules: Rules, gr: real, moves: seq<Move>, b: Board, count: nat)
    : (r: Extraction)
    ensures |r.samples| <= 2 * |moves| && |r.opening| <= |moves|
    ensures !cfg.book || count >= cfg.openingMaxMoves ==> r.opening == []
    ensures r.opening != [] ==> count + |r.opening| <= cfg.openingMaxMoves
    decreases |moves|
  {
    if |moves| == 0 || moves[0] !in rules.legal(b) then Extraction([], [])
    else
      var m := moves[0];
      var recorded := if cfg.book && count + 1 <= cfg.openingMaxMoves
                      then [BookPosition(rules.fen(b), m, b.whiteToMove)] else [];
      var rest := Extract(cfg, rules, gr, moves[1..], rules.push(b, m), count + 1);
      Extraction(MoveSamples(cfg, gr, b, m) + rest.samples, recorded + rest.opening)
  }

  /** The value target is the game's value for the side to move of the
      encoded position (the mirrored board has the other side to move), and
      the policy target is the index of the recorded move. */
  predicate Labelled(s: Sample, gr: real)
  {
    s.value == (if s.board.whiteToMove != s.flipped then gr else -gr)
    && IndexOf(s.move) == Some(s.policy)
  }

  predicate AllLabelled(ss: seq<Sample>, gr: real)
  {
    forall i | 0 <= i < |ss| :: Labelled(ss[i], gr)
  }

  lemma AllLabelledAppend(a: seq<Sample>, c: seq<Sample>, gr: real)
    requires AllLabelled(a, gr) && AllLabelled(c, gr)
    ensures AllLabelled(a + c, gr)
  {
    assert forall i | |a| <= i < |a + c| :: (a + c)[i] == c[i - |a|];
  }

  lemma MoveSamplesLabelled(cfg: Config, gr: real, b: Board, m: Move)
    ensures AllLabelled(MoveSamples(cfg, gr, b, m), gr)
  {
  }

  lemma {:induction false} ExtractLabels(cfg: Config, rules: Rules, gr: real, moves: seq<Move>, b: Board, count: nat)
    ensures AllLabelled(Extract(cfg, rules, gr, moves, b, count).samples, gr)
    decreases |moves|
  {
    if |moves| > 0 && moves[0] in rules.legal(b) {
      var m := moves[0];
      ExtractLabels(cfg, rules, gr, moves[1..], rules.push(b, m), count + 1);
      MoveSamplesLabelled(cfg, gr, b, m);
      AllLabelledAppend(MoveSamples(cfg, gr, b, m), Extract(cfg, rules, gr, moves[1..], rules.push(b, m), count + 1).samples, gr);
    }
  }

  /** Mirrored samples come in pairs: each follows the sample of the same
      position with the mirrored move and the negated value; with
      augmentation every sample is followed by its mirror, and without it
      there is none. */
  predicate Paired(ss: seq<Sample>, augment: bool)
  {
    (forall i | 0 <= i < |ss| && ss[i].flipped ::
       i > 0 && !ss[i - 1].flipped && ss[i].board == ss[i - 1].board
       && ss[i].move == FlipMove(ss[i - 1].move) && ss[i].value == -ss[i - 1].value)
    && (augment ==> forall i | 0 <= i < |ss| && !ss[i].flipped :: i + 1 < |ss| && ss[i + 1].flipped)
    && (!augment ==> forall i | 0 <= i < |ss| :: !ss[i].flipped)
  }

  lemma MoveSamplesPaired(cfg: Config, gr: real, b: Board, m: Move)
    ensures Paired(MoveSamples(cfg, gr, b, m), cfg.augmentFlip)
    ensures |MoveSamples(cfg, gr, b, m)| > 0 ==> !MoveSamples(cfg, gr, b, m)[0].flipped
  {
    FlipMoveMapped(m);
  }

  lemma {:induction false} ExtractPaired(cfg: Config, rules: Rules, gr: real, moves: seq<Move>, b: Board, count: nat)
    ensures Paired(Extract(cfg, rules, gr, moves, b, count).samples, cfg.augmentFlip)
    ensures |Extract(cfg, rules, gr, moves, b, count).samples| > 0 ==>
      !Extract(cfg, rules, gr, moves, b, count).samples[0].flipped
    decreases |moves|
  {
    if |moves| > 0 && moves[0] in rules.legal(b) {
      var m := moves[0];
      ExtractPaired(cfg, rules, gr, moves[1..], rules.push(b, m), count + 1);
      MoveSamplesPaired(cfg, gr, b, m);
      var here := MoveSamples(cfg, gr, b, m);
      var rest := Extract(cfg, rules, gr, moves[1..], rules.push(b, m), count + 1).samples;
      PairedAppend(here, rest, cfg.augmentFlip);
    }
  }

  lemma PairedAppend(a: seq<Sample>, c: seq<Sample>, augment: bool)
    requires Paired(a, augment) && Paired(c, augment)
    requires |c| > 0 ==> !c[0].flipped
    requires |a| > 0 ==> !a[0].flipped
    ensures Paired(a + c, augment)
  {
    var s := a + c;
    forall i | 0 <= i < |s| && s[i].flipped
      ensures i > 0 && !s[i - 1].flipped && s[i].board == s[i - 1].board
        && s[i].move == FlipMove(s[i - 1].move) && s[i].value == -s[i - 1].value
    {
      if i >= |a| {
        assert s[i] == c[i - |a|];
        assert i - |a| > 0;
        assert s[i - 1] == c[i - 1 - |a|];
      }
    }
    if augment {
      forall i | 0 <= i < |s| && !s[i].flipped
        ensures i + 1 < |s| && s[i + 1].flipped
      {
        if i >= |a| {
          assert s[i] == c[i - |a|];
          assert s[i + 1] == c[i + 1 - |a|];
        } else if i + 1 < |a| {
          assert s[i + 1] == a[i + 1];
        }
      }
    } else {
      assert forall i | 0 <= i < |s| :: s[i] == if i < |a| then a[i] else c[i - |a|];
    }
  }

  /** An unmapped legal move adds no sample, and the rest of the game is
      read from the position after it; an illegal move ends the game. */
  lemma ExtractSteps(cfg: Config, rules: Rules, gr: real, moves: seq<Move>, b: Board, count: nat)
    requires |moves| > 0
    ensures moves[0] !in rules.legal(b) ==> Extract(cfg, rules, gr, moves, b, count) == Extraction([], [])
    ensures moves[0] in rules.legal(b) && IndexOf(moves[0]).None? ==>
      Extract(cfg, rules, gr, moves, b, count).samples ==
      Extract(cfg, rules, gr, moves[1..], rules.push(b, moves[0]), count + 1).samples
  {
  }

  /** What process_game returns: the samples, the positions for the book,
      the time control and the two ratings, and 1 for a processed game. */
  datatype GameOutput = GameOutput(samples: seq<Sample>, opening: seq<BookPosition>, timeControl: string,
                                   elos: seq<int>, processed: nat)

  function ProcessGame(cfg: Config, rules: Rules, h: Headers, start: Board, moves: seq<Move>)
    : (r: GameOutput)
    ensures r.processed == 1 <==> Screen(h, cfg).Some?
    ensures r.processed == 0 ==> r.samples == [] && r.opening == [] && r.elos == []
    ensures r.processed == 1 ==> |r.elos| == 2 && InRange(r.elos[0], cfg) && InRange(r.elos[1], cfg)
    ensures r.processed <= 1
  {
    match Screen(h, cfg)
    case None => GameOutput([], [], "", [], 0)
    case Some((we, be, gr)) =>
      var e := Extract(cfg, rules, gr, moves, start, 0);
      GameOutput(e.samples, e.opening, h.timeControl, [we, be], 1)
  }

  // ---- the opening book -------------------------------------------------------

  datatype Entry = Entry(win: nat, draw: nat, loss: nat, eco: string, name: string)

  type OpeningBook = map<string, map<Move, Entry>>

  datatype Side = Win | Draw | Loss

  function EntryTotal(e: Entry): nat
  {
    e.win + e.draw + e.loss
  }

  /** The entry of a move, a zero entry when absent. */
  function EntryOf(book: OpeningBook, fen: string, m: Move): Entry
  {
    if fen in book && m in book[fen] then book[fen][m] else Entry(0, 0, 0, "", "")
  }

  /** The outcome of the game for the player who moved from the position. */
  function MoverSide(result: string, whiteToMove: bool): Side
  {
    var forWhite := if result == "1-0" then Win else if result == "0-1" then Loss else Draw;
    if whiteToMove then forWhite
    else match forWhite
      case Win => Loss
      case Loss => Win
      case Draw => Draw
  }

  /** The mover's view: a decisive game is a win for the winner's moves
      and a loss for the loser's; anything else counts as a draw. */
  lemma MoverSideMeaning(result: string, whiteToMove: bool)
    ensures MoverSide(result, whiteToMove) == Win <==>
      (result == "1-0" && whiteToMove) || (result == "0-1" && !whiteToMove)
    ensures MoverSide(result, whiteToMove) == Loss <==>
      (result == "1-0" && !whiteToMove) || (result == "0-1" && whiteToMove)
    ensures MoverSide(result, whiteToMove) == Draw <==> result != "1-0" && result != "0-1"
  {
  }

  /** One position: one of win, draw, loss incremented; eco and name set
      only while still empty. */
  function Bump(e: Entry, side: Side, eco: string, name: string): (r: Entry)
    ensures EntryTotal(r) == EntryTotal(e) + 1
  {
    var counted := match side
      case Win => e.(win := e.win + 1)
      case Draw => e.(draw := e.draw + 1)
      case Loss => e.(loss := e.loss + 1);
    counted.(eco := if eco != "" && e.eco == "" then eco else e.eco,
             name := if name != "" && e.name == "" then name else e.name)
  }

  function RecordOne(book: OpeningBook, p: BookPosition, result: string, eco: string, name: string)
    : (r: OpeningBook)
    ensures p.fen in r && p.move in r[p.fen]
    ensures r[p.fen][p.move] == Bump(EntryOf(book, p.fen, p.move), MoverSide(result, p.whiteToMove), eco, name)
  {
    var moves := if p.fen in book then book[p.fen] else map[];
    var e := Bump(EntryOf(book, p.fen, p.move), MoverSide(result, p.whiteToMove), eco, name);
    book[p.fen := moves[p.move := e]]
  }

  /** The loop over the recorded positions of one game. */
  function RecordAll(book: OpeningBook, ps: seq<BookPosition>, result: string, eco: string, name: string)
    : OpeningBook
    decreases |ps|
  {
    if |ps| == 0 then book
    else RecordOne(RecordAll(book, ps[..|ps| - 1], result, eco, name), ps[|ps| - 1], result, eco, name)
  }

  function Occurrences(ps: seq<BookPosition>, fen: string, m: Move): nat
    decreases |ps|
  {
    if |ps| == 0 then 0
    else Occurrences(ps[..|ps| - 1], fen, m) + (if ps[|ps| - 1].fen == fen && ps[|ps| - 1].move == m then 1 else 0)
  }

  /** Each recorded position adds exactly one game to its move's entry and
      no other, and an eco or name once set is never replaced. */
  lemma {:induction false} RecordAllCounts(book: OpeningBook, ps: seq<BookPosition>, result: string,
                                           eco: string, name: string, fen: string, m: Move)
    ensures EntryTotal(EntryOf(RecordAll(book, ps, result, eco, name), fen, m)) ==
      EntryTotal(EntryOf(book, fen, m)) + Occurrences(ps, fen, m)
    ensures EntryOf(book, fen, m).eco != "" ==>
      EntryOf(RecordAll(book, ps, result, eco, name), fen, m).eco == EntryOf(book, fen, m).eco
    ensures EntryOf(book, fen, m).name != "" ==>
      EntryOf(RecordAll(book, ps, result, eco, name), fen, m).name == EntryOf(book, fen, m).name
    decreases |ps|
  {
    if |ps| > 0 {
      var init, p := ps[..|ps| - 1], ps[|ps| - 1];
      RecordAllCounts(book, init, result, eco, name, fen, m);
      var before := RecordAll(book, init, result, eco, name);
      RecordOneEntry(before, p, result, eco, name, fen, m);
      assert Occurrences(ps, fen, m) ==
        Occurrences(init, fen, m) + (if p.fen == fen && p.move == m then 1 else 0);
      if p.fen == fen && p.move == m {
        BumpKeeps(EntryOf(before, fen, m), MoverSide(result, p.whiteToMove), eco, name);
      }
    }
  }

  /** Recording a position changes the entry of its own move only. */
  lemma RecordOneEntry(book: OpeningBook, p: BookPosition, result: string, eco: string, name: string,
                       fen: string, m: Move)
    ensures EntryOf(RecordOne(book, p, result, eco, name), fen, m) ==
      if fen == p.fen && m == p.move
      then Bump(EntryOf(book, fen, m), MoverSide(result, p.whiteToMove), eco, name)
      else EntryOf(book, fen, m)
  {
    var e := Bump(EntryOf(book, p.fen, p.move), MoverSide(result, p.whiteToMove), eco, name);
    StoreEntry(book, p.fen, p.move, e, fen, m);
  }

  /** Storing an entry under one move leaves every other move's entry alone. */
  lemma StoreEntry(book: OpeningBook, fen0: string, m0: Move, e: Entry, fen: string, m: Move)
    ensures var moves := if fen0 in book then book[fen0] else map[];
      EntryOf(book[fen0 := moves[m0 := e]], fen, m) ==
        if fen == fen0 && m == m0 then e else EntryOf(book, fen, m)
  {
    var moves := if fen0 in book then book[fen0] else map[];
    var r := book[fen0 := moves[m0 := e]];
    if fen != fen0 {
      assert (fen in r) == (fen in book);
    } else if m != m0 {
      assert r[fen] == moves[m0 := e];
    }
  }

  lemma BumpKeeps(e: Entry, side: Side, eco: string, name: string)
    ensures e.eco != "" ==> Bump(e, side, eco, name).eco == e.eco
    ensures e.name != "" ==> Bump(e, side, eco, name).name == e.name
  {
  }

  /** With every position of a game decided for one side, the winner's
      positions gain wins and the loser's losses. */
  lemma RecordOneSide(book: OpeningBook, p: BookPosition, result: string, eco: string, name: string)
    requires result == "1-0"
    ensures var e := EntryOf(book, p.fen, p.move);
      var r := RecordOne(book, p, result, eco, name)[p.fen][p.move];
      if p.whiteToMove then r.win == e.win + 1 && r.loss == e.loss
      else r.loss == e.loss + 1 && r.win == e.win
  {
  }

  /** The moves of a position played in at least minGames games. */
  function FilterMoves(moves: map<Move, Entry>, minGames: int): map<Move, Entry>
  {
    map m | m in moves && EntryTotal(moves[m]) >= minGames :: moves[m]
  }

  /** The opening-book filter of run: exactly the moves with at least
      minGames games, and no position left without moves. */
  function FilterBook(book: OpeningBook, minGames: int): (r: OpeningBook)
    ensures forall fen | fen in r :: fen in book && r[fen] != map[]
    ensures forall fen, m | fen in r && m in r[fen] ::
      (m in book[fen] && r[fen][m] == book[fen][m] && EntryTotal(r[fen][m]) >= minGames)
    ensures forall fen, m | fen in book && m in book[fen] && EntryTotal(book[fen][m]) >= minGames ::
      fen in r && m in r[fen]
  {
    var r := map fen | fen in book && FilterMoves(book[fen], minGames) != map[] :: FilterMoves(book[fen], minGames);
    forall fen, m | fen in book && m in book[fen] && EntryTotal(book[fen][m]) >= minGames
      ensures fen in r && m in r[fen]
    {
      assert m in FilterMoves(book[fen], minGames);
    }
    r
  }

  // ---- a batch of games -------------------------------------------------------

  datatype BatchOutput = BatchOutput(samples: seq<Sample>, processed: nat, skipped: nat, elos: seq<int>)

  /** process_batch: the outputs of the processed games concatenated in
      game order, and the processed and skipped games counted. */
  function ProcessBatch(outs: seq<GameOutput>): (r: BatchOutput)
    ensures r.processed + r.skipped == |outs|
    decreases |outs|
  {
    if |outs| == 0 then BatchOutput([], 0, 0, [])
    else
      var acc := ProcessBatch(outs[..|outs| - 1]);
      var g := outs[|outs| - 1];
      if g.processed != 0 then
        BatchOutput(acc.samples + g.samples, acc.processed + 1, acc.skipped, acc.elos + g.elos)
      else acc.(skipped := acc.skipped + 1)
  }

  /** Game outputs as process_game makes them. */
  predicate Produced(g: GameOutput)
  {
    g.processed <= 1 && (g.processed == 0 ==> g.samples == [] && g.elos == [])
    && (g.processed == 1 ==> |g.elos| == 2)
  }

  function AllSamples(outs: seq<GameOutput>): seq<Sample>
    decreases |outs|
  {
    if |outs| == 0 then [] else AllSamples(outs[..|outs| - 1]) + outs[|outs| - 1].samples
  }

  /** The batch holds the samples of every game in order (a skipped game
      has none), two ratings per processed game, and processed counts the
      games process_game accepted. */
  lemma {:induction false} ProcessBatchContents(outs: seq<GameOutput>)
    requires forall i | 0 <= i < |outs| :: Produced(outs[i])
    ensures ProcessBatch(outs).samples == AllSamples(outs)
    ensures |ProcessBatch(outs).elos| == 2 * ProcessBatch(outs).processed
    ensures ProcessBatch(outs).processed == Accepted(outs)
    decreases |outs|
  {
    if |outs| > 0 {
      ProcessBatchContents(outs[..|outs| - 1]);
    }
  }

  function Accepted(outs: seq<GameOutput>): nat
    decreases |outs|
  {
    if |outs| == 0 then 0 else Accepted(outs[..|outs| - 1]) + (if outs[|outs| - 1].processed != 0 then 1 else 0)
  }

  lemma {:induction false} AcceptedAppend(a: seq<GameOutput>, b: seq<GameOutput>)
    ensures Accepted(a + b) == Accepted(a) + Accepted(b)
    decreases |b|
  {
    if |b| == 0 {
      assert a + b == a;
    } else {
      assert (a + b)[..|a + b| - 1] == a + b[..|b| - 1];
      AcceptedAppend(a, b[..|b| - 1]);
    }
  }

  lemma {:induction false} AcceptedBound(outs: seq<GameOutput>)
    ensures Accepted(outs) <= |outs|
    decreases |outs|
  {
    if |outs| > 0 {
      AcceptedBound(outs[..|outs| - 1]);
    }
  }

  // ---- writing and the reading loop -------------------------------------------

  /** write_batch: an empty batch is not written; a written batch grows the
      dataset by its size; a failed write leaves the size alone. */
  function WriteBatch(size: nat, batch: nat, ok: bool): (r: nat)
    ensures batch == 0 || !ok ==> r == size
    ensures batch > 0 && ok ==> r == size + batch
    ensures size <= r
  {
    if batch == 0 then size else if ok then size + batch else size
  }

  /** The games are handed on in batches of this size. */
  const BATCH: nat := 50

  /** The totals of the reading loop. */
  datatype Progress = Progress(processed: nat, skipped: nat, read: nat)

  /** The while loop of run from game i on, with the games i - pending to
      i - 1 waiting in the batch: the limit is checked before each game is
      read, and a full batch is handed on at once; at the end of the file
      the pending games are handed on. */
  function Reading(outs: seq<GameOutput>, maxGames: int, i: nat, pending: nat, p: Progress): (r: Progress)
    requires pending <= i <= |outs| && pending < BATCH && p.read == i
    requires p.processed + p.skipped + pending == i
    requires pending > 0 ==> p.processed < maxGames
    ensures r.processed + r.skipped == r.read <= |outs|
    ensures p.processed < maxGames ==> r.processed < maxGames + BATCH
    ensures p.processed >= maxGames ==> r == p
    ensures r.read < |outs| ==> r.processed >= maxGames
    decreases |outs| - i
  {
    if p.processed >= maxGames then
      p
    else if i == |outs| then
      Flush(outs, i, pending, p)
    else if pending + 1 >= BATCH then
      var q := Flush(outs, i + 1, pending + 1, p.(read := i + 1));
      Reading(outs, maxGames, i + 1, 0, q)
    else
      Reading(outs, maxGames, i + 1, pending + 1, p.(read := i + 1))
  }

  /** The pending games i - pending to i - 1 handed on as one batch. */
  function Flush(outs: seq<GameOutput>, i: nat, pending: nat, p: Progress): (r: Progress)
    requires pending <= i <= |outs| && p.processed + p.skipped + pending == i
    ensures r.read == p.read && r.processed + r.skipped == i
    ensures p.processed <= r.processed <= p.processed + pending
  {
    var batch := ProcessBatch(outs[i - pending..i]);
    Progress(p.processed + batch.processed, p.skipped + batch.skipped, p.read)
  }

  /** The whole run: at most BATCH - 1 games past the limit are processed,
      every game read is either processed or skipped, and reading stops
      before the end of the file only once the limit is reached. */
  function Run(outs: seq<GameOutput>, maxGames: int): (r: Progress)
    ensures r.processed + r.skipped == r.read <= |outs|
    ensures r.processed < maxGames + BATCH || (maxGames < 0 && r.processed == 0)
    ensures r.read < |outs| ==> r.processed >= maxGames
  {
    Reading(outs, maxGames, 0, 0, Progress(0, 0, 0))
  }

  // ---- splits -------------------------------------------------------------

  /** int(n * 0.8) and int(n * 0.9), taken in exact arithmetic. */
  function TrainEnd(n: nat): nat { n * 8 / 10 }
  function ValEnd(n: nat): nat { n * 9 / 10 }

  datatype Splits = Splits(train: seq<nat>, val: seq<nat>, test: seq<nat>)

  /** create_splits: nothing for an empty dataset; otherwise the first 80%
      of the permutation for training, the next 10% for validation, the
      rest for testing. */
  function CreateSplits(perm: seq<nat>): (r: Option<Splits>)
    ensures r.None? <==> |perm| == 0
    ensures r.Some? ==> r.value.train + r.value.val + r.value.test == perm
    ensures r.Some? ==> |r.value.train| * 10 <= 8 * |perm| < (|r.value.train| + 1) * 10
    ensures r.Some? ==> (|r.value.train| + |r.value.val|) * 10 <= 9 * |perm| < (|r.value.train| + |r.value.val| + 1) * 10
  {
    var n := |perm|;
    if n == 0 then None
    else
      var a, b := TrainEnd(n), ValEnd(n);
      assert a <= b <= n;
      assert perm[..a] + perm[a..b] + perm[b..] == perm;
      Some(Splits(perm[..a], perm[a..b], perm[b..]))
  }

  /** A permutation of the dataset's indices splits into three disjoint
      parts that together hold every index. */
  lemma SplitsPartition(perm: seq<nat>)
    requires |perm| > 0
    ensures var s := CreateSplits(perm).value;
      multiset(s.train) + multiset(s.val) + multiset(s.test) == multiset(perm)
  {
    var s := CreateSplits(perm).value;
    assert s.train + s.val + s.test == perm;
  }
}
