/** The fixed move-index table (MoveMapping) and the move mirroring helpers.

    The table lists, for every ordered pair of distinct squares (origin-major,
    both in square order), the plain move followed by its knight, bishop, rook
    and queen promotions when the destination lies on the first or last rank.
    `Rows` is that enumeration written out as a recursive definition.
    `IndexOf` and `MoveAt` compute index and move in closed form; the lemmas
    below prove the two closed forms inverse over 0..TOTAL_MOVES-1 and prove
    that the enumeration holds exactly `MoveAt(i)` at every position i. */
module Moves {
  import opened Common
  import opened Chess

  const TOTAL_MOVES: nat := 8064

  predicate PromotionRank(t: Square)
  {
    Rank(t) == 0 || Rank(t) == 7
  }

  /** Table entries for the pair (f, t): none when f == t, else the plain move
      and, on a promotion rank, N, B, R, Q in that order. */
  function Entries(f: Square, t: Square): seq<Move>
  {
    if f == t then []
    else if PromotionRank(t) then
      [Move(f, t, None), Move(f, t, Some(Knight)), Move(f, t, Some(Bishop)),
       Move(f, t, Some(Rook)), Move(f, t, Some(Queen))]
    else [Move(f, t, None)]
  }

  /** chess.SQUARES: the 64 squares in index order. */
  function Squares(): (r: seq<Square>)
    ensures |r| == 64 && forall i | 0 <= i < 64 :: r[i] == i
  {
    seq(64, i requires 0 <= i < 64 => i as Square)
  }

  /** The entries with origin f and the destinations in ts, in order. */
  function Cells(f: Square, ts: seq<Square>): seq<Move>
  {
    if |ts| == 0 then [] else Entries(f, ts[0]) + Cells(f, ts[1..])
  }

  /** The entries with the origins in fs and the destinations in ts, in
      order: the table itself is Rows(Squares(), Squares()). */
  function Rows(fs: seq<Square>, ts: seq<Square>): seq<Move>
  {
    if |fs| == 0 then [] else Cells(fs[0], ts) + Rows(fs[1..], ts)
  }

  // ---- closed-form positions -------------------------------------------

  /** Number of promotion-rank squares strictly below t. */
  function PromoBefore(t: int): int
    requires 0 <= t <= 64
  {
    if t <= 8 then t else if t <= 56 then 8 else t - 48
  }

  function EntryCount(f: Square, t: Square): nat
  {
    if f == t then 0 else if PromotionRank(t) then 5 else 1
  }

  /** Offset, inside row f, of the first entry with destination t. */
  function CellStart(f: Square, t: int): int
    requires 0 <= t <= 64
  {
    t + 4 * PromoBefore(t) - (if f < t then (if PromotionRank(f) then 5 else 1) else 0)
  }

  /** Offset, in the table, of the first entry with origin f. */
  function RowStart(f: int): int
    requires 0 <= f <= 64
  {
    127 * f - 4 * PromoBefore(f)
  }

  /** Position of a promotion piece among the entries of one pair. */
  function PromotionOffset(p: Option<PieceType>): Option<nat>
  {
    match p
    case None => Some(0)
    case Some(Knight) => Some(1)
    case Some(Bishop) => Some(2)
    case Some(Rook) => Some(3)
    case Some(Queen) => Some(4)
    case Some(_) => None
  }

  /** get_index_by_move: the index of a move, or None for a move that is not
      in the table. */
  function IndexOf(m: Move): (r: Option<nat>)
    ensures r.None? <==>
      (m.from == m.to
       || m.promotion in {Some(Pawn), Some(King)}
       || (m.promotion.Some? && !PromotionRank(m.to)))
  {
    if m.from == m.to then None
    else match PromotionOffset(m.promotion)
      case None => None
      case Some(k) =>
        if k > 0 && !PromotionRank(m.to) then None
        else Some(RowStart(m.from) + CellStart(m.from, m.to) + k)
  }

  /** Offset of destination t inside a row when no square is skipped. */
  function FullStart(t: int): int
    requires 0 <= t <= 64
  {
    t + 4 * PromoBefore(t)
  }

  /** Number of entries a square contributes as a destination. */
  function Width(t: Square): nat
  {
    if PromotionRank(t) then 5 else 1
  }

  function RowSize(f: Square): nat
  {
    128 - Width(f)
  }

  /** The origin of the entry at table position i. */
  function RowOf(i: int): Square
    requires 0 <= i < TOTAL_MOVES
  {
    if i < 984 then i / 123
    else if i < 7080 then 8 + (i - 984) / 127
    else 56 + (i - 7080) / 123
  }

  function PromotionAt(k: int): Option<PieceType>
  {
    if k == 1 then Some(Knight) else if k == 2 then Some(Bishop)
    else if k == 3 then Some(Rook) else if k == 4 then Some(Queen) else None
  }

  /** The entry at offset full of a row from which no square is skipped. */
  function FullEntry(f: Square, full: int): Move
    requires 0 <= full < 128
  {
    if full < 40 then Move(f, full / 5, PromotionAt(full % 5))
    else if full < 88 then Move(f, full - 32, None)
    else Move(f, 56 + (full - 88) / 5, PromotionAt((full - 88) % 5))
  }

  /** The move at table position i, computed in closed form: locate the row
      of its origin, then step over the origin's own (absent) entries. */
  function MoveAt(i: int): Move
    requires 0 <= i < TOTAL_MOVES
  {
    var f := RowOf(i);
    RowBounds(i);
    var off := i - RowStart(f);
    FullEntry(f, if off < FullStart(f) then off else off + Width(f))
  }

  lemma RowBounds(i: int)
    requires 0 <= i < TOTAL_MOVES
    ensures RowStart(RowOf(i)) <= i < RowStart(RowOf(i)) + RowSize(RowOf(i))
  {
  }

  /** get_move_by_index: the move at position i, None outside the table. */
  function MoveByIndex(i: int): (r: Option<Move>)
    ensures r.Some? <==> 0 <= i < TOTAL_MOVES
    ensures r.Some? ==> IndexOf(r.value) == Some(i)
  {
    if 0 <= i < TOTAL_MOVES then IndexOfMoveAt(i); Some(MoveAt(i)) else None
  }

  // ---- counting --------------------------------------------------------

  /** ts lists the squares t, t+1, ..., 63 in order. */
  predicate SquaresFrom(ts: seq<Square>, t: int)
  {
    0 <= t <= 64 && |ts| == 64 - t && forall k | 0 <= k < |ts| :: ts[k] == t + k
  }

  lemma SquaresFromStep(ts: seq<Square>, t: int)
    requires SquaresFrom(ts, t) && t < 64
    ensures ts[0] == t && SquaresFrom(ts[1..], t + 1)
  {
  }

  lemma CellStartStep(f: Square, t: Square)
    ensures CellStart(f, t + 1) == CellStart(f, t) + EntryCount(f, t)
  {
  }

  lemma EntriesIndex(f: Square, t: Square, j: int, pos: int)
    requires 0 <= j < |Entries(f, t)| && pos == RowStart(f) + CellStart(f, t) + j
    ensures Entries(f, t)[j].from == f
    ensures IndexOf(Entries(f, t)[j]) == Some(pos)
  {
  }

  lemma {:induction false} CellsLength(f: Square, ts: seq<Square>, t: int)
    requires SquaresFrom(ts, t)
    ensures |Cells(f, ts)| == CellStart(f, 64) - CellStart(f, t)
    decreases |ts|
  {
    if t < 64 {
      SquaresFromStep(ts, t);
      CellsLength(f, ts[1..], t + 1);
      CellStartStep(f, t);
    }
  }

  lemma {:induction false} RowsLength(fs: seq<Square>, ts: seq<Square>, f: int)
    requires SquaresFrom(fs, f) && SquaresFrom(ts, 0)
    ensures |Rows(fs, ts)| == RowStart(64) - RowStart(f)
    decreases |fs|
  {
    if f < 64 {
      SquaresFromStep(fs, f);
      RowsLength(fs[1..], ts, f + 1);
      CellsLength(f, ts, 0);
    }
  }

  // ---- table position -> index ------------------------------------------

  lemma CellsIndex(f: Square, ts: seq<Square>, t: int, j: int)
    requires SquaresFrom(ts, t)
    requires 0 <= j < |Cells(f, ts)|
    ensures Cells(f, ts)[j].from == f
    ensures IndexOf(Cells(f, ts)[j]) == Some(RowStart(f) + CellStart(f, t) + j)
  {
    var u, k := CellsAt(f, ts, t, j);
    EntriesIndex(f, u, k, RowStart(f) + CellStart(f, t) + j);
  }

  /** Position j of the entries of origin f over the destinations from t is
      entry k of some destination u, and CellStart(f, u) + k is
      CellStart(f, t) + j. */
  lemma {:induction false} CellsAt(f: Square, ts: seq<Square>, t: int, j: int) returns (u: Square, k: nat)
    requires SquaresFrom(ts, t)
    requires 0 <= j < |Cells(f, ts)|
    ensures k < |Entries(f, u)| && Cells(f, ts)[j] == Entries(f, u)[k]
    ensures t <= u && CellStart(f, u) + k == CellStart(f, t) + j
    decreases |ts|
  {
    assert |ts| > 0;
    SquaresFromStep(ts, t);
    var e := Entries(f, t);
    assert Cells(f, ts) == e + Cells(f, ts[1..]);
    if j < |e| {
      u, k := t, j;
    } else {
      CellStartStep(f, t);
      u, k := CellsAt(f, ts[1..], t + 1, j - |e|);
    }
  }

  lemma RowsIndex(fs: seq<Square>, ts: seq<Square>, f: int, j: int)
    requires SquaresFrom(fs, f) && SquaresFrom(ts, 0)
    requires 0 <= j < |Rows(fs, ts)|
    ensures IndexOf(Rows(fs, ts)[j]) == Some(RowStart(f) + j)
  {
    var g, k := RowsAt(fs, ts, f, j);
    RowIndex(g, ts, k, RowStart(f) + j);
  }

  /** Position j of the row block from origin f is offset k of the entries
      of some origin g, and RowStart(g) + k is RowStart(f) + j. */
  lemma {:induction false} RowsAt(fs: seq<Square>, ts: seq<Square>, f: int, j: int) returns (g: Square, k: nat)
    requires SquaresFrom(fs, f) && SquaresFrom(ts, 0)
    requires 0 <= j < |Rows(fs, ts)|
    ensures k < |Cells(g, ts)| && Rows(fs, ts)[j] == Cells(g, ts)[k]
    ensures f <= g && RowStart(g) + k == RowStart(f) + j
    decreases |fs|
  {
    RowsNonEmpty(fs, ts);
    SquaresFromStep(fs, f);
    if j < |Cells(f, ts)| {
      RowsHead(fs, ts, f, j);
      g, k := f, j;
    } else {
      RowsTail(fs, ts, f, j);
      g, k := RowsAt(fs[1..], ts, f + 1, j - |Cells(f, ts)|);
    }
  }

  lemma RowsNonEmpty(fs: seq<Square>, ts: seq<Square>)
    requires |Rows(fs, ts)| > 0
    ensures |fs| > 0
  {
  }

  /** The first entries of a row block are those of its first origin. */
  lemma RowsHead(fs: seq<Square>, ts: seq<Square>, f: int, j: int)
    requires |fs| > 0 && fs[0] == f && 0 <= j < |Cells(f, ts)|
    ensures j < |Rows(fs, ts)| && Rows(fs, ts)[j] == Cells(f, ts)[j]
  {
    assert Rows(fs, ts) == Cells(f, ts) + Rows(fs[1..], ts);
  }

  /** The later entries of a row block are those of the block after its
      first origin, which starts one row further on. */
  lemma RowsTail(fs: seq<Square>, ts: seq<Square>, f: int, j: int)
    requires SquaresFrom(fs, f) && SquaresFrom(ts, 0) && f < 64
    requires |Cells(f, ts)| <= j < |Rows(fs, ts)|
    ensures j - |Cells(f, ts)| < |Rows(fs[1..], ts)|
    ensures Rows(fs, ts)[j] == Rows(fs[1..], ts)[j - |Cells(f, ts)|]
    ensures RowStart(f + 1) + (j - |Cells(f, ts)|) == RowStart(f) + j
  {
    SquaresFromStep(fs, f);
    assert Rows(fs, ts) == Cells(f, ts) + Rows(fs[1..], ts);
    CellsLength(f, ts, 0);
    RowStartStep(f);
  }

  /** Offset j of the entries of origin f is table position RowStart(f) + j. */
  lemma RowIndex(f: Square, ts: seq<Square>, j: int, pos: int)
    requires SquaresFrom(ts, 0) && 0 <= j < |Cells(f, ts)| && pos == RowStart(f) + j
    ensures IndexOf(Cells(f, ts)[j]) == Some(pos)
  {
    CellsIndex(f, ts, 0, j);
    RowStartStep(f);
    IndexShift(Cells(f, ts)[j], RowStart(f) + CellStart(f, 0) + j, pos);
  }

  /** Restates an index under another name for the same number. */
  lemma IndexShift(m: Move, a: int, b: int)
    requires IndexOf(m) == Some(a) && a == b
    ensures IndexOf(m) == Some(b)
  {
  }

  lemma RowStartStep(f: Square)
    ensures RowStart(f + 1) == RowStart(f) + CellStart(f, 64) - CellStart(f, 0)
    ensures CellStart(f, 0) == 0
  {
  }

  // ---- the closed forms are inverse ------------------------------------

  lemma FullStartStep(t: Square)
    ensures FullStart(t + 1) == FullStart(t) + Width(t)
  {
  }

  lemma FullStartMonotone(s: int, t: int)
    requires 0 <= s <= t <= 64
    ensures FullStart(s) <= FullStart(t)
  {
  }

  /** Where an offset of a full row lands: its destination and promotion. */
  lemma FullEntryFacts(f: Square, full: int)
    requires 0 <= full < 128
    ensures FullEntry(f, full).from == f
    ensures FullStart(FullEntry(f, full).to) <= full
    ensures full < FullStart(FullEntry(f, full).to) + Width(FullEntry(f, full).to)
    ensures PromotionOffset(FullEntry(f, full).promotion)
      == Some(full - FullStart(FullEntry(f, full).to))
  {
  }

  lemma FullEntryAt(f: Square, t: Square, k: int)
    requires 0 <= k < Width(t)
    ensures FullEntry(f, FullStart(t) + k) == Move(f, t, PromotionAt(k))
  {
  }

  lemma RowOfInverse(f: Square, j: int)
    requires 0 <= j < RowSize(f)
    ensures 0 <= RowStart(f) + j < TOTAL_MOVES && RowOf(RowStart(f) + j) == f
  {
  }

  /** Inside row f, the entries of destination t sit at CellStart(f, t), which
      is FullStart(t) less the origin's own width when t lies beyond it. */
  lemma CellOffset(f: Square, t: Square, k: int)
    requires f != t && 0 <= k < Width(t)
    ensures 0 <= CellStart(f, t) + k < RowSize(f)
    ensures CellStart(f, t) + k < FullStart(f) <==> t < f
    ensures CellStart(f, t) + k ==
      (if t < f then FullStart(t) + k else FullStart(t) + k - Width(f))
  {
    FullStartStep(f);
    FullStartStep(t);
    if f < t {
      FullStartMonotone(f + 1, t);
    } else {
      FullStartMonotone(t + 1, f);
    }
  }

  /** get_index_by_move(get_move_by_index(i)) == i on the whole index range. */
  lemma IndexOfMoveAt(i: int)
    requires 0 <= i < TOTAL_MOVES
    ensures IndexOf(MoveAt(i)) == Some(i)
  {
    var f := RowOf(i);
    RowBounds(i);
    var off := i - RowStart(f);
    var full := if off < FullStart(f) then off else off + Width(f);
    FullEntryFacts(f, full);
    var t := FullEntry(f, full).to;
    FullStartStep(f);
    FullStartStep(t);
    if off < FullStart(f) {
      if t >= f {
        FullStartMonotone(f, t);
      }
      assert t < f;
    } else {
      assert t > f;
    }
  }

  /** get_move_by_index(get_index_by_move(m)) == m for every indexed move. */
  lemma MoveAtIndexOf(m: Move)
    requires IndexOf(m).Some?
    ensures IndexOf(m).value < TOTAL_MOVES && MoveAt(IndexOf(m).value) == m
  {
    IndexOfParts(m);
    RowEntry(m.from, m.to, PromotionOffset(m.promotion).value);
  }

  /** The closed form finds entry k of the pair (f, t) at its table position. */
  lemma RowEntry(f: Square, t: Square, k: int)
    requires f != t && 0 <= k < Width(t)
    ensures 0 <= RowStart(f) + CellStart(f, t) + k < TOTAL_MOVES
    ensures MoveAt(RowStart(f) + CellStart(f, t) + k) == Move(f, t, PromotionAt(k))
  {
    var j := CellStart(f, t) + k;
    assert 0 <= j < RowSize(f) && (if j < FullStart(f) then j else j + Width(f)) == FullStart(t) + k by {
      CellOffset(f, t, k);
    }
    assert MoveAt(RowStart(f) + j) == FullEntry(f, FullStart(t) + k) by {
      MoveAtRow(f, j);
    }
    FullEntryAt(f, t, k);
  }

  /** An indexed move is a pair of distinct squares and a promotion offset
      that fits its destination. */
  lemma IndexOfParts(m: Move)
    requires IndexOf(m).Some?
    ensures m.from != m.to && PromotionOffset(m.promotion).Some?
    ensures var k := PromotionOffset(m.promotion).value;
      0 <= k < Width(m.to) && PromotionAt(k) == m.promotion
      && IndexOf(m).value == RowStart(m.from) + CellStart(m.from, m.to) + k
  {
    PromotionAtOffset(m.promotion);
  }

  /** Offset j of row f holds the entry at the full-row offset that skips
      the origin's own width. */
  lemma MoveAtRow(f: Square, j: int)
    requires 0 <= j < RowSize(f)
    ensures 0 <= RowStart(f) + j < TOTAL_MOVES
    ensures MoveAt(RowStart(f) + j) == FullEntry(f, if j < FullStart(f) then j else j + Width(f))
  {
    RowOfInverse(f, j);
  }

  lemma PromotionAtOffset(p: Option<PieceType>)
    requires PromotionOffset(p).Some?
    ensures PromotionAt(PromotionOffset(p).value) == p
  {
  }

  /** The index map is injective. */
  lemma IndexInjective(m1: Move, m2: Move)
    requires IndexOf(m1).Some? && IndexOf(m1) == IndexOf(m2)
    ensures m1 == m2
  {
    MoveAtIndexOf(m1);
    MoveAtIndexOf(m2);
  }

  /** Every indexed move is found again at its index. */
  lemma MoveByIndexOfMove(m: Move)
    requires IndexOf(m).Some?
    ensures IndexOf(m).value < TOTAL_MOVES
    ensures MoveByIndex(IndexOf(m).value) == Some(m)
  {
    MoveAtIndexOf(m);
  }

  // ---- agreement with the enumeration -------------------------------------

  lemma SquaresListed()
    ensures SquaresFrom(Squares(), 0)
  {
  }

  /** The enumeration over the square list (MOVE_MAPPING, built from
      product(SQUARES, repeat=2)) has TOTAL_MOVES entries, holds at each
      position exactly the move the closed form computes, and so repeats no
      move. The lemma is stated for any lists meeting SquaresFrom(_, 0),
      which SquaresListed shows the square list does. */
  lemma EnumerationAt(fs: seq<Square>, ts: seq<Square>, i: int)
    requires SquaresFrom(fs, 0) && SquaresFrom(ts, 0)
    requires 0 <= i < |Rows(fs, ts)|
    ensures i < TOTAL_MOVES && Rows(fs, ts)[i] == MoveAt(i)
  {
    RowsLength(fs, ts, 0);
    RowsIndex(fs, ts, 0, i);
    IndexOfMoveAt(i);
    IndexInjective(Rows(fs, ts)[i], MoveAt(i));
  }

  lemma EnumerationMatches(fs: seq<Square>, ts: seq<Square>)
    requires SquaresFrom(fs, 0) && SquaresFrom(ts, 0)
    ensures |Rows(fs, ts)| == TOTAL_MOVES
    ensures forall i | 0 <= i < |Rows(fs, ts)| :: Rows(fs, ts)[i] == MoveAt(i)
    ensures Distinct(Rows(fs, ts))
  {
    RowsLength(fs, ts, 0);
    forall i | 0 <= i < |Rows(fs, ts)|
      ensures Rows(fs, ts)[i] == MoveAt(i)
    {
      EnumerationAt(fs, ts, i);
    }
    forall i, j | 0 <= i < j < |Rows(fs, ts)|
      ensures Rows(fs, ts)[i] != Rows(fs, ts)[j]
    {
      IndexOfMoveAt(i);
      IndexOfMoveAt(j);
    }
  }

  // ---- mirroring --------------------------------------------------------

  /** square_mirror: the same file on the mirrored rank. */
  function SquareMirror(s: Square): (r: Square)
    ensures File(r) == File(s) && Rank(r) == 7 - Rank(s)
  {
    MakeSquare(File(s), 7 - Rank(s))
  }

  /** flip_move: both squares mirrored, promotion kept. */
  function FlipMove(m: Move): (r: Move)
    ensures Rank(r.from) == 7 - Rank(m.from) && File(r.from) == File(m.from)
    ensures Rank(r.to) == 7 - Rank(m.to) && File(r.to) == File(m.to)
    ensures r.promotion == m.promotion
  {
    Move(SquareMirror(m.from), SquareMirror(m.to), m.promotion)
  }

  lemma FlipMoveInvolution(m: Move)
    ensures FlipMove(FlipMove(m)) == m
  {
  }

  /** Flipping keeps a move inside the table, and keeps an unmapped move out. */
  lemma FlipMoveMapped(m: Move)
    ensures IndexOf(FlipMove(m)).Some? <==> IndexOf(m).Some?
  {
  }

  /** mirror_move_rank: ranks mirrored and origin and destination exchanged. */
  function MirrorMoveRank(m: Move): (r: Move)
    ensures Rank(r.from) == 7 - Rank(m.to) && File(r.from) == File(m.to)
    ensures Rank(r.to) == 7 - Rank(m.from) && File(r.to) == File(m.from)
    ensures r.promotion == m.promotion
  {
    Move(MakeSquare(File(m.to), 7 - Rank(m.to)),
         MakeSquare(File(m.from), 7 - Rank(m.from)),
         m.promotion)
  }

  lemma MirrorMoveRankInvolution(m: Move)
    ensures MirrorMoveRank(MirrorMoveRank(m)) == m
  {
  }
}
