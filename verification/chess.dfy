/** The chess vocabulary shared by every other module. The rules of chess
    themselves (move generation, game-over detection, pushing a move) are not
    modelled: the modules that need them take them as function parameters. */
module Chess {
  import opened Common

  /** Squares are numbered 0..63 as a1, b1, ..., h8 (square = 8 * rank + file). */
  type Square = s: int | 0 <= s < 64

  function Rank(s: Square): int { s / 8 }
  function File(s: Square): int { s % 8 }

  function MakeSquare(file: int, rank: int): Square
    requires 0 <= file < 8 && 0 <= rank < 8
  {
    8 * rank + file
  }

  datatype PieceType = Pawn | Knight | Bishop | Rook | Queen | King

  /** A move: origin, destination and an optional promotion piece. Any piece
      type may be named as promotion; only N, B, R and Q have an index. */
  datatype Move = Move(from: Square, to: Square, promotion: Option<PieceType>)

  datatype Piece = Piece(kind: PieceType, white: bool)

  /** The abstract board: piece placement, side to move, en-passant target
      and the four castling rights. */
  datatype Board = Board(
    pieces: map<Square, Piece>,
    whiteToMove: bool,
    epSquare: Option<Square>,
    whiteKingside: bool,
    whiteQueenside: bool,
    blackKingside: bool,
    blackQueenside: bool)

  /** The result string of a board: "1-0", "0-1", "1/2-1/2" or "*". */
  datatype ResultTag = WhiteWins | BlackWins | DrawnGame | Unfinished
}
