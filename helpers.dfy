/**
  The array engine's starting position (src/chess/helpers.rs:23-182): a
  64-square board filled one square at a time, White to move.
 */
module Helpers {
  import opened Options
  import opened Pieces
  import opened Positions
  import opened Geometry
  import opened Opening
  import ArrayBoard

  /**
    The squares of `initialize_starting_position` (helpers.rs:24-176): all 64
    empty, then each of the 32 pieces written to its square in the source's
    order.
   */
  method StartingSquares() returns (squares: seq<Option<Piece>>)
    ensures |squares| == 64
    ensures forall s | 0 <= s < 64 :: squares[s] == StartingPiece(s)
  {
    squares := seq(64, s => None);
    squares := squares[A2 := Some(Piece(Pawn, White))];
    squares := squares[B2 := Some(Piece(Pawn, White))];
    squares := squares[C2 := Some(Piece(Pawn, White))];
    squares := squares[D2 := Some(Piece(Pawn, White))];
    squares := squares[E2 := Some(Piece(Pawn, White))];
    squares := squares[F2 := Some(Piece(Pawn, White))];
    squares := squares[G2 := Some(Piece(Pawn, White))];
    squares := squares[H2 := Some(Piece(Pawn, White))];
    squares := squares[A7 := Some(Piece(Pawn, Black))];
    squares := squares[B7 := Some(Piece(Pawn, Black))];
    squares := squares[C7 := Some(Piece(Pawn, Black))];
    squares := squares[D7 := Some(Piece(Pawn, Black))];
    squares := squares[E7 := Some(Piece(Pawn, Black))];
    squares := squares[F7 := Some(Piece(Pawn, Black))];
    squares := squares[G7 := Some(Piece(Pawn, Black))];
    squares := squares[H7 := Some(Piece(Pawn, Black))];
    squares := squares[A1 := Some(Piece(Rook, White))];
    squares := squares[H1 := Some(Piece(Rook, White))];
    squares := squares[A8 := Some(Piece(Rook, Black))];
    squares := squares[H8 := Some(Piece(Rook, Black))];
    squares := squares[B1 := Some(Piece(Knight, White))];
    squares := squares[G1 := Some(Piece(Knight, White))];
    squares := squares[B8 := Some(Piece(Knight, Black))];
    squares := squares[G8 := Some(Piece(Knight, Black))];
    squares := squares[C1 := Some(Piece(Bishop, White))];
    squares := squares[F1 := Some(Piece(Bishop, White))];
    squares := squares[C8 := Some(Piece(Bishop, Black))];
    squares := squares[F8 := Some(Piece(Bishop, Black))];
    squares := squares[D1 := Some(Piece(Queen, White))];
    squares := squares[D8 := Some(Piece(Queen, Black))];
    squares := squares[E1 := Some(Piece(King, White))];
    squares := squares[E8 := Some(Piece(King, Black))];
  }

  /** `initialize_starting_position` (helpers.rs:23-182): the opening layout, White to move. */
  method InitializeStartingPosition() returns (board: ArrayBoard.Board)
    ensures fresh(board) && board.Valid()
    ensures board.squares == Layout() && board.turnColor == White
  {
    var squares := StartingSquares();
    board := new ArrayBoard.Board.Init(squares, White);
  }

  /** The starting board holds 32 pieces: White on ranks 1 and 2, Black on ranks 7 and 8. */
  lemma StartingBoardPieces(squares: seq<Option<Piece>>)
    requires |squares| == 64 && forall s | 0 <= s < 64 :: squares[s] == StartingPiece(s)
    ensures squares == Layout() && CountPieces(squares, 64) == 32
    ensures forall s | 0 <= s < 64 :: squares[s].Some? <==> s < 16 || s >= 48
    ensures forall s | 0 <= s < 64 && squares[s].Some? :: squares[s].value.color == White <==> s < 16
  {
    StartingPieceCount();
    forall s | 0 <= s < 64
      ensures squares[s].Some? <==> s < 16 || s >= 48
      ensures squares[s].Some? ==> (squares[s].value.color == White <==> s < 16)
    {
      StartingColors(s);
    }
  }
}
