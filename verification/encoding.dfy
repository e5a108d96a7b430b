/** The board encoding fed to the network: 18 feature planes per square for
    one position, and 8 stacked positions (144 planes) for the transformer
    input. Planes are written as rows of reals, one row per square. */
module Encoding {
  import opened Common
  import opened Chess

  const PLANES: nat := 18
  const FRAMES: nat := 8

  function KindIndex(k: PieceType): (r: nat)
    ensures r < 6
  {
    match k
    case Pawn => 0
    case Knight => 1
    case Bishop => 2
    case Rook => 3
    case Queen => 4
    case King => 5
  }

  /** The plane a piece is written to: P N B R Q K of White are 0..5, those
      of Black are 6..11. */
  function PieceCode(p: Piece): (r: nat)
    ensures r < 12 && (r < 6 <==> p.white)
  {
    (if p.white then 0 else 6) + KindIndex(p.kind)
  }

  /** The piece a plane stands for; inverse of PieceCode. */
  function PieceOfCode(c: nat): Piece
    requires c < 12
  {
    var kinds := [Pawn, Knight, Bishop, Rook, Queen, King];
    Piece(kinds[c % 6], c < 6)
  }

  lemma PieceCodeInverse(p: Piece)
    ensures PieceOfCode(PieceCode(p)) == p
  {
  }

  function Bit(c: bool): real
  {
    if c then 1.0 else 0.0
  }

  /** Value of plane i at square s: the one-hot piece planes 0..11, the side
      to move (12), the en-passant target (13) and the four castling rights
      (14..17: white kingside, white queenside, black kingside, black
      queenside), the last five broadcast over the board except plane 13. */
  function Feature(b: Board, s: Square, i: int): real
    requires 0 <= i < 18
  {
    if i < 12 then Bit(s in b.pieces && PieceCode(b.pieces[s]) == i)
    else if i == 12 then Bit(b.whiteToMove)
    else if i == 13 then Bit(b.epSquare == Some(s))
    else if i == 14 then Bit(b.whiteKingside)
    else if i == 15 then Bit(b.whiteQueenside)
    else if i == 16 then Bit(b.blackKingside)
    else Bit(b.blackQueenside)
  }

  /** The 64 x 18 planes of one position. */
  function Planes(b: Board): (r: seq<seq<real>>)
    ensures |r| == 64 && forall s | 0 <= s < 64 :: |r[s]| == 18
  {
    seq(64, s requires 0 <= s < 64 => seq(18, i requires 0 <= i < 18 => Feature(b, s, i)))
  }

  /** An occupied square has exactly one piece plane set; an empty one none. */
  lemma PiecePlanesOneHot(b: Board, s: Square)
    ensures s in b.pieces ==>
      forall i | 0 <= i < 12 :: Planes(b)[s][i] == Bit(i == PieceCode(b.pieces[s]))
    ensures s !in b.pieces ==> forall i | 0 <= i < 12 :: Planes(b)[s][i] == 0.0
  {
  }

  /** The encoding loses nothing: two positions with the same planes are the
      same position. */
  lemma {:induction false} PlanesInjective(b1: Board, b2: Board)
    requires Planes(b1) == Planes(b2)
    ensures b1 == b2
  {
    forall s: Square, i | 0 <= i < 18
      ensures Feature(b1, s, i) == Feature(b2, s, i)
    {
      assert Planes(b1)[s][i] == Planes(b2)[s][i];
    }
    forall s: Square | s in b1.pieces
      ensures s in b2.pieces && b2.pieces[s] == b1.pieces[s]
    {
      var c := PieceCode(b1.pieces[s]);
      assert Feature(b1, s, c) == 1.0;
      assert Feature(b2, s, c) == 1.0;
      PieceCodeInverse(b1.pieces[s]);
      PieceCodeInverse(b2.pieces[s]);
    }
    forall s: Square | s in b2.pieces
      ensures s in b1.pieces
    {
      var c := PieceCode(b2.pieces[s]);
      assert Feature(b2, s, c) == 1.0;
      assert Feature(b1, s, c) == 1.0;
    }
    assert b1.pieces == b2.pieces;
    assert Feature(b1, 0, 12) == Feature(b2, 0, 12);
    assert Feature(b1, 0, 14) == Feature(b2, 0, 14);
    assert Feature(b1, 0, 15) == Feature(b2, 0, 15);
    assert Feature(b1, 0, 16) == Feature(b2, 0, 16);
    assert Feature(b1, 0, 17) == Feature(b2, 0, 17);
    if b1.epSquare.Some? {
      assert Feature(b1, b1.epSquare.value, 13) == Feature(b2, b1.epSquare.value, 13);
    }
    if b2.epSquare.Some? {
      assert Feature(b1, b2.epSquare.value, 13) == Feature(b2, b2.epSquare.value, 13);
    }
  }

  /** A 64 x 18 grid of reals. */
  predicate IsGrid(x: seq<seq<real>>)
  {
    |x| == 64 && forall s | 0 <= s < 64 :: |x[s]| == 18
  }

  /** x[:, i] = 1 when c holds, else x unchanged. */
  function SetColumnIf(x: seq<seq<real>>, i: nat, c: bool): (r: seq<seq<real>>)
    requires IsGrid(x) && i < 18
    ensures IsGrid(r)
    ensures forall s, j | 0 <= s < 64 && 0 <= j < 18 ::
      r[s][j] == if j == i && c then 1.0 else x[s][j]
  {
    if c then seq(64, s requires 0 <= s < 64 => x[s][i := 1.0]) else x
  }

  /** x[ep, 13] = 1 when there is an en-passant square. */
  function SetEnPassant(x: seq<seq<real>>, ep: Option<Square>): (r: seq<seq<real>>)
    requires IsGrid(x)
    ensures IsGrid(r)
    ensures forall s, j | 0 <= s < 64 && 0 <= j < 18 ::
      r[s][j] == if j == 13 && ep == Some(s) then 1.0 else x[s][j]
  {
    if ep.Some? then x[ep.value := x[ep.value][13 := 1.0]] else x
  }

  /** The piece planes alone: zeros, then x[s, code] = 1 for each entry of
      the piece map, visited in any order. */
  method PiecePlanes(b: Board) returns (x: seq<seq<real>>)
    ensures IsGrid(x)
    ensures forall s, i | 0 <= s < 64 && 0 <= i < 18 ::
      x[s][i] == Bit(i < 12 && s in b.pieces && PieceCode(b.pieces[s]) == i)
  {
    x := seq(64, s requires 0 <= s < 64 => seq(18, i requires 0 <= i < 18 => 0.0));
    var todo := b.pieces.Keys;
    while todo != {}
      invariant todo <= b.pieces.Keys
      invariant IsGrid(x)
      invariant forall s, i | 0 <= s < 64 && 0 <= i < 18 ::
        x[s][i] == Bit(i < 12 && s in b.pieces && s !in todo && PieceCode(b.pieces[s]) == i)
      decreases |todo|
    {
      var s :| s in todo;
      var c := PieceCode(b.pieces[s]);
      x := x[s := x[s][c := 1.0]];
      todo := todo - {s};
    }
  }

  /** convert_single_board: the piece planes, then the side-to-move,
      en-passant and castling planes. */
  method ConvertSingleBoard(b: Board) returns (x: seq<seq<real>>)
    ensures x == Planes(b)
  {
    x := PiecePlanes(b);
    x := SetColumnIf(x, 12, b.whiteToMove);
    x := SetEnPassant(x, b.epSquare);
    x := SetColumnIf(x, 14, b.whiteKingside);
    x := SetColumnIf(x, 15, b.whiteQueenside);
    x := SetColumnIf(x, 16, b.blackKingside);
    x := SetColumnIf(x, 17, b.blackQueenside);
    forall s | 0 <= s < 64
      ensures x[s] == Planes(b)[s]
    {
      forall i | 0 <= i < 18
        ensures x[s][i] == Planes(b)[s][i]
      {
      }
    }
  }

  function Max(a: int, b: int): int
  {
    if a < b then b else a
  }

  /** The positions of the last eight plies, oldest first, padded at the
      front with copies of the oldest available one; positions lists the
      game from its first position to the current one. */
  function Frames(positions: seq<Board>): (r: seq<Board>)
    requires |positions| > 0
    ensures |r| == FRAMES
  {
    seq(8, k requires 0 <= k < 8 => positions[Max(0, |positions| - 8 + k)])
  }

  lemma FramesShape(positions: seq<Board>)
    requires |positions| > 0
    ensures Frames(positions)[7] == positions[|positions| - 1]
    ensures |positions| >= 8 ==> Frames(positions) == positions[|positions| - 8..]
    ensures |positions| < 8 ==>
      Frames(positions) ==
        seq(8 - |positions|, _ => positions[0]) + positions
  {
    var n := |positions|;
    if n >= 8 {
      forall k | 0 <= k < 8
        ensures Frames(positions)[k] == positions[n - 8..][k]
      {
        assert Max(0, n - 8 + k) == n - 8 + k;
      }
    } else {
      var pad := seq(8 - n, _ => positions[0]);
      forall k | 0 <= k < 8
        ensures Frames(positions)[k] == (pad + positions)[k]
      {
        if k < 8 - n {
          assert Max(0, n - 8 + k) == 0;
        } else {
          assert Max(0, n - 8 + k) == k - (8 - n);
        }
      }
    }
  }

  /** The frame collection of convert_board_to_transformer_input: pop up to
      seven moves off a copy of the board, prepending each earlier position,
      then pad at the front with copies of the first frame. */
  method HistoryFrames(positions: seq<Board>) returns (frames: seq<Board>)
    requires |positions| > 0
    ensures frames == Frames(positions)
  {
    var n := |positions|;
    var h := n - 1;
    frames := [positions[h]];
    var popped := 0;
    while popped < 7 && h > 0
      invariant 0 <= popped <= 7 && h == n - 1 - popped && h >= 0
      invariant frames == positions[h..]
    {
      h := h - 1;
      popped := popped + 1;
      frames := [positions[h]] + frames;
    }
    assert h == Max(0, n - 8);
    var pad := 0;
    while |frames| < 8
      invariant |frames| == n - h + pad <= 8
      invariant frames == Padded(positions, h, pad)
      decreases 8 - |frames|
    {
      PaddedStep(positions, h, pad);
      frames := [frames[0]] + frames;
      pad := pad + 1;
    }
    PaddedFrames(positions, h, pad);
  }

  /** The positions from h on, after pad copies of the one at h. */
  function Padded(positions: seq<Board>, h: nat, pad: nat): (r: seq<Board>)
    requires h < |positions|
    ensures |r| == pad + |positions| - h && r[0] == positions[h]
  {
    seq(pad, _ => positions[h]) + positions[h..]
  }

  lemma PaddedStep(positions: seq<Board>, h: nat, pad: nat)
    requires h < |positions|
    ensures [positions[h]] + Padded(positions, h, pad) == Padded(positions, h, pad + 1)
  {
    assert [positions[h]] + seq(pad, _ => positions[h]) == seq(pad + 1, _ => positions[h]);
  }

  /** Padding the last eight (or fewer) positions to eight gives the frames. */
  lemma PaddedFrames(positions: seq<Board>, h: nat, pad: nat)
    requires 0 < |positions| && h == Max(0, |positions| - 8) && |positions| - h + pad == 8
    ensures Padded(positions, h, pad) == Frames(positions)
  {
    var p, n := Padded(positions, h, pad), |positions|;
    forall k | 0 <= k < 8
      ensures p[k] == Frames(positions)[k]
    {
      if k < pad {
        assert p[k] == seq(pad, _ => positions[h])[k];
        assert Max(0, n - 8 + k) == h;
      } else {
        assert p[k] == positions[h..][k - pad] == positions[h + k - pad];
        assert Max(0, n - 8 + k) == h + k - pad;
      }
    }
  }

  /** Row s of the frames' planes placed side by side (np.concatenate along
      the plane axis). */
  function RowConcat(frames: seq<Board>, s: Square): seq<real>
  {
    if |frames| == 0 then [] else RowConcat(frames[..|frames| - 1], s) + Planes(frames[|frames| - 1])[s]
  }

  lemma {:induction false} RowConcatIndex(frames: seq<Board>, s: Square)
    ensures |RowConcat(frames, s)| == 18 * |frames|
    ensures forall k, i | 0 <= k < |frames| && 0 <= i < 18 ::
      RowConcat(frames, s)[18 * k + i] == Feature(frames[k], s, i)
    decreases |frames|
  {
    if |frames| > 0 {
      var init := frames[..|frames| - 1];
      RowConcatIndex(init, s);
      forall k, i | 0 <= k < |frames| && 0 <= i < 18
        ensures RowConcat(frames, s)[18 * k + i] == Feature(frames[k], s, i)
      {
        if k < |init| {
          assert frames[k] == init[k];
        }
      }
    }
  }

  /** convert_board_to_transformer_input: 64 rows of 8 * 18 = 144 values. */
  function TransformerInput(positions: seq<Board>): seq<seq<real>>
    requires |positions| > 0
  {
    seq(64, s requires 0 <= s < 64 => RowConcat(Frames(positions), s))
  }

  /** Column 18 k + i of square s holds plane i of frame k. */
  lemma TransformerInputLayout(positions: seq<Board>)
    requires |positions| > 0
    ensures |TransformerInput(positions)| == 64
    ensures forall s | 0 <= s < 64 :: |TransformerInput(positions)[s]| == 144
    ensures forall s: Square, k, i | 0 <= k < 8 && 0 <= i < 18 ::
      TransformerInput(positions)[s][18 * k + i] == Feature(Frames(positions)[k], s, i)
  {
    forall s: Square
      ensures |TransformerInput(positions)[s]| == 144
      ensures forall k, i | 0 <= k < 8 && 0 <= i < 18 ::
        TransformerInput(positions)[s][18 * k + i] == Feature(Frames(positions)[k], s, i)
    {
      RowConcatIndex(Frames(positions), s);
    }
  }

  /** The last 18 columns encode the current position, so the input
      determines it. */
  lemma TransformerInputDeterminesCurrent(p1: seq<Board>, p2: seq<Board>)
    requires |p1| > 0 && |p2| > 0
    requires TransformerInput(p1) == TransformerInput(p2)
    ensures p1[|p1| - 1] == p2[|p2| - 1]
  {
    TransformerInputLayout(p1);
    TransformerInputLayout(p2);
    FramesShape(p1);
    FramesShape(p2);
    var b1, b2 := p1[|p1| - 1], p2[|p2| - 1];
    forall s | 0 <= s < 64
      ensures Planes(b1)[s] == Planes(b2)[s]
    {
      forall i | 0 <= i < 18
        ensures Planes(b1)[s][i] == Planes(b2)[s][i]
      {
        assert TransformerInput(p1)[s][18 * 7 + i] == TransformerInput(p2)[s][18 * 7 + i];
      }
    }
    PlanesInjective(b1, b2);
  }
}
