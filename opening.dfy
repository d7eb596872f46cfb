/**
  The standard opening layout, the reference both engines' initial states are
  proved against: White's back rank on rank 1 and pawns on rank 2, Black's
  pawns on rank 7 and back rank on rank 8, the middle empty.
 */
module Opening {
  import opened Options
  import opened Pieces
  import opened Geometry

  /** R N B Q K B N R from file A to file H. */
  function BackRank(file: nat): Group
    requires file < 8
  {
    [Rook, Knight, Bishop, Queen, King, Bishop, Knight, Rook][file]
  }

  function StartingPiece(s: nat): Option<Piece>
    requires s < 64
  {
    if s < 8 then Some(Piece(BackRank(s), White))
    else if s < 16 then Some(Piece(Pawn, White))
    else if s < 48 then None
    else if s < 56 then Some(Piece(Pawn, Black))
    else Some(Piece(BackRank(s - 56), Black))
  }

  /** The squares each piece kind starts on. */
  function StartSquares(p: Piece): set<nat>
  {
    var base := if p.color == White then 0 else 56;
    var pawns := if p.color == White then 8 else 48;
    match p.group
    case Pawn => {pawns, pawns + 1, pawns + 2, pawns + 3, pawns + 4, pawns + 5, pawns + 6, pawns + 7}
    case Rook => {base, base + 7}
    case Knight => {base + 1, base + 6}
    case Bishop => {base + 2, base + 5}
    case Queen => {base + 3}
    case King => {base + 4}
  }

  /** The layout holds p exactly on p's start squares. */
  lemma StartingPieceSquares(s: nat, p: Piece)
    requires s < 64
    ensures StartingPiece(s) == Some(p) <==> s in StartSquares(p)
  {
  }

  /** Ranks 1 and 2 are White, ranks 7 and 8 Black, ranks 3 to 6 empty. */
  lemma StartingColors(s: nat)
    requires s < 64
    ensures StartingPiece(s).Some? <==> s < 16 || s >= 48
    ensures StartingPiece(s).Some? ==> (StartingPiece(s).value.color == White <==> s < 16)
  {
  }

  function Layout(): (v: seq<Option<Piece>>)
    ensures |v| == 64 && forall s | 0 <= s < 64 :: v[s] == StartingPiece(s)
  {
    seq(64, s requires 0 <= s < 64 => StartingPiece(s))
  }

  /** The opening layout holds 32 pieces. */
  lemma StartingPieceCount()
    ensures CountPieces(Layout(), 64) == 32
  {
    var v := Layout();
    CountFullStretch(v, 0, 16);
    CountEmptyStretch(v, 16, 48);
    CountFullStretch(v, 48, 64);
  }
}
