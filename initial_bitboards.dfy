/**
  The stand-alone initial masks (src/chess/bitboards.rs): a map from each of
  the twelve piece kinds to its starting mask, every mask built with a
  mutable accumulator. As written, both king masks sit on the queen's square
  (D1 and D8), so the king and queen masks of each colour coincide.
 */
module InitialBitboards {
  import opened Pieces
  import opened Positions
  import opened Bits
  import opened Opening

  /** The squares chess/bitboards.rs puts each piece kind on; kings on D1/D8 as written. */
  function InitialSquares(p: Piece): set<nat>
  {
    if p.group == King then {if p.color == White then D1 else D8}
    else StartSquares(p)
  }

  /** Apart from the kings, the masks follow the opening layout. */
  lemma InitialSquaresAgree(p: Piece)
    ensures p.group != King ==> InitialSquares(p) == StartSquares(p)
    ensures p.group == King ==> InitialSquares(p) != StartSquares(p)
  {
  }

  /** Each colour's king and queen are put on the same single square. */
  lemma KingOnQueenSquare(c: Color)
    ensures InitialSquares(Piece(King, c)) == InitialSquares(Piece(Queen, c)) == {if c == White then D1 else D8}
  {
  }

  /* ---------------- The mask builders ---------------- */

  /** The pawn loop (bitboards.rs:86-100): bits first..last of one rank, one at a time. */
  method CreatePawnRange(first: nat, last: nat) returns (pawns: bv64)
    requires first <= last < 64
    ensures forall s | 0 <= s < 64 :: Bit(pawns, s) <==> first <= s <= last
  {
    pawns := 0;
    var i := first;
    while i <= last
      invariant first <= i <= last + 1
      invariant forall s | 0 <= s < 64 :: Bit(pawns, s) <==> first <= s < i
    {
      ghost var before := pawns;
      pawns := pawns | ConvertToBit(i);
      forall s | 0 <= s < 64
        ensures Bit(pawns, s) <==> first <= s < i + 1
      {
        BitSet(before, i, s);
      }
      i := i + 1;
    }
  }

  /** `create_pawn_bitboard` (bitboards.rs:79-100): rank 2 for White, rank 7 for Black. */
  method CreatePawnBitboard(color: Color) returns (pawns: bv64)
    ensures forall s | 0 <= s < 64 :: Bit(pawns, s) <==> s in InitialSquares(Piece(Pawn, color))
  {
    match color
    case White => pawns := CreatePawnRange(A2, H2);
    case Black => pawns := CreatePawnRange(A7, H7);
  }

  /** Two bits set one after the other on an empty mask (bitboards.rs:109-163). */
  method CreatePairBitboard(a: nat, b: nat) returns (pair: bv64)
    requires a < 64 && b < 64
    ensures forall s | 0 <= s < 64 :: Bit(pair, s) <==> s == a || s == b
  {
    pair := 0;
    pair := pair | ConvertToBit(a);
    ghost var first := pair;
    pair := pair | ConvertToBit(b);
    forall s | 0 <= s < 64
      ensures Bit(pair, s) <==> s == a || s == b
    {
      BitZero(s);
      BitSet(0, a, s);
      BitSet(first, b, s);
    }
  }

  /** One bit set on an empty mask (bitboards.rs:172-200). */
  method CreateSingleBitboard(a: nat) returns (single: bv64)
    requires a < 64
    ensures forall s | 0 <= s < 64 :: Bit(single, s) <==> s == a
  {
    single := 0;
    single := single | ConvertToBit(a);
    forall s | 0 <= s < 64
      ensures Bit(single, s) <==> s == a
    {
      BitZero(s);
      BitSet(0, a, s);
    }
  }

  /** `create_rook_bitboard` (bitboards.rs:102-121): A1|H1 or A8|H8. */
  method CreateRookBitboard(color: Color) returns (rooks: bv64)
    ensures forall s | 0 <= s < 64 :: Bit(rooks, s) <==> s in InitialSquares(Piece(Rook, color))
  {
    match color
    case White => rooks := CreatePairBitboard(A1, H1);
    case Black => rooks := CreatePairBitboard(A8, H8);
  }

  /** `create_knight_bitboard` (bitboards.rs:123-142): B1|G1 or B8|G8. */
  method CreateKnightBitboard(color: Color) returns (knights: bv64)
    ensures forall s | 0 <= s < 64 :: Bit(knights, s) <==> s in InitialSquares(Piece(Knight, color))
  {
    match color
    case White => knights := CreatePairBitboard(B1, G1);
    case Black => knights := CreatePairBitboard(B8, G8);
  }

  /** `create_bishop_bitboard` (bitboards.rs:144-163): C1|F1 or C8|F8. */
  method CreateBishopBitboard(color: Color) returns (bishops: bv64)
    ensures forall s | 0 <= s < 64 :: Bit(bishops, s) <==> s in InitialSquares(Piece(Bishop, color))
  {
    match color
    case White => bishops := CreatePairBitboard(C1, F1);
    case Black => bishops := CreatePairBitboard(C8, F8);
  }

  /** `create_queen_bitboard` (bitboards.rs:165-182): D1 or D8. */
  method CreateQueenBitboard(color: Color) returns (queens: bv64)
    ensures forall s | 0 <= s < 64 :: Bit(queens, s) <==> s in InitialSquares(Piece(Queen, color))
  {
    match color
    case White => queens := CreateSingleBitboard(D1);
    case Black => queens := CreateSingleBitboard(D8);
  }

  /** `create_king_bitboard` (bitboards.rs:184-201): D1 or D8, the queen's square, as written. */
  method CreateKingBitboard(color: Color) returns (king: bv64)
    ensures forall s | 0 <= s < 64 :: Bit(king, s) <==> s in InitialSquares(Piece(King, color))
  {
    match color
    case White => king := CreateSingleBitboard(D1);
    case Black => king := CreateSingleBitboard(D8);
  }

  /** `create_bitboard_for_piece` (bitboards.rs:68-77): the builder of the piece's group. */
  method CreateBitboardForPiece(piece: Piece) returns (bitboard: bv64)
    ensures forall s | 0 <= s < 64 :: Bit(bitboard, s) <==> s in InitialSquares(piece)
  {
    match piece.group
    case Pawn => bitboard := CreatePawnBitboard(piece.color);
    case Rook => bitboard := CreateRookBitboard(piece.color);
    case Knight => bitboard := CreateKnightBitboard(piece.color);
    case Bishop => bitboard := CreateBishopBitboard(piece.color);
    case Queen => bitboard := CreateQueenBitboard(piece.color);
    case King => bitboard := CreateKingBitboard(piece.color);
  }

  /* ---------------- The map ---------------- */

  /** The first n piece kinds in index order. */
  function PiecesBelow(n: nat): set<Piece>
    requires n <= 12
  {
    set i | 0 <= i < n :: InitializeAllPieces()[i]
  }

  /** All twelve piece kinds. */
  function AllPieces(): set<Piece>
  {
    PiecesBelow(12)
  }

  /** The first n piece kinds are n distinct pieces. */
  lemma {:induction false} PiecesBelowSize(n: nat)
    requires n <= 12
    ensures |PiecesBelow(n)| == n
  {
    if n > 0 {
      var ps := InitializeAllPieces();
      PiecesBelowSize(n - 1);
      assert PiecesBelow(n) == PiecesBelow(n - 1) + {ps[n - 1]};
      forall i | 0 <= i < n - 1
        ensures ps[i] != ps[n - 1]
      {
        assert ToIndex(ps[i]) == i;
      }
    }
  }

  /** Every piece is one of the twelve, and there are exactly twelve. */
  lemma AllPiecesMembers()
    ensures forall p: Piece :: p in AllPieces()
    ensures |AllPieces()| == 12
  {
    var ps := InitializeAllPieces();
    forall p: Piece
      ensures p in AllPieces()
    {
      ToIndexInjective(ps[ToIndex(p)], p);
    }
    PiecesBelowSize(12);
  }

  /** The masks of a map from piece kinds to masks line up with InitialSquares. */
  predicate HoldsInitialSquares(bitboards: map<Piece, bv64>)
  {
    forall p, s | p in bitboards && 0 <= s < 64 :: Bit(bitboards[p], s) <==> s in InitialSquares(p)
  }

  /**
    `get_initial_bitboards` (bitboards.rs:8-65): inserts the mask of each of
    the twelve pieces, in piece order, into an empty map.
   */
  method GetInitialBitboards() returns (bitboards: map<Piece, bv64>)
    ensures bitboards.Keys == AllPieces() && |bitboards| == 12
    ensures forall p: Piece :: p in bitboards
    ensures HoldsInitialSquares(bitboards)
  {
    var pieces := [Piece(Pawn, White), Piece(Rook, White), Piece(Knight, White),
                   Piece(Bishop, White), Piece(Queen, White), Piece(King, White),
                   Piece(Pawn, Black), Piece(Rook, Black), Piece(Knight, Black),
                   Piece(Bishop, Black), Piece(Queen, Black), Piece(King, Black)];
    assert pieces == InitializeAllPieces();
    bitboards := map[];
    var i := 0;
    while i < 12
      invariant 0 <= i <= 12
      invariant bitboards.Keys == set k | 0 <= k < i :: pieces[k]
      invariant HoldsInitialSquares(bitboards)
    {
      var bitboard := CreateBitboardForPiece(pieces[i]);
      bitboards := bitboards[pieces[i] := bitboard];
      i := i + 1;
    }
    AllPiecesMembers();
  }

  /**
    With the kings on the queens' squares, the king and queen masks of each
    colour share their square, so the twelve masks are not pairwise disjoint.
   */
  lemma KingMaskIsQueenMask(bitboards: map<Piece, bv64>, c: Color)
    requires Piece(King, c) in bitboards && Piece(Queen, c) in bitboards && HoldsInitialSquares(bitboards)
    ensures var d := if c == White then D1 else D8;
      Bit(bitboards[Piece(King, c)], d) && Bit(bitboards[Piece(Queen, c)], d)
    ensures bitboards[Piece(King, c)] & bitboards[Piece(Queen, c)] != 0
  {
    var d := if c == White then D1 else D8;
    KingOnQueenSquare(c);
    BitAnd(bitboards[Piece(King, c)], bitboards[Piece(Queen, c)], d);
    BitZero(d);
  }
}
