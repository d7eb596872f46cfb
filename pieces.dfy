/**
  Piece identity (src/models/piece.rs): a piece is a group and a colour, and
  the twelve (group, colour) pairs are numbered 0..11 to select an occupancy
  mask. White takes 0..5 and Black 6..11, in the order pawn, rook, knight,
  bishop, queen, king inside each colour.
 */
module Pieces {
  import opened Options

  datatype Group = Pawn | Knight | Bishop | Rook | Queen | King

  datatype Color = White | Black

  /** The source's `bitboard` field is always 0 and is left out. */
  datatype Piece = Piece(group: Group, color: Color)

  /** Position of a group inside its colour's block of six masks. */
  function GroupOffset(g: Group): nat
  {
    match g
    case Pawn => 0
    case Rook => 1
    case Knight => 2
    case Bishop => 3
    case Queen => 4
    case King => 5
  }

  /** The mask index of a piece. */
  function ToIndex(p: Piece): (i: nat)
    ensures i < 12
    ensures p.color == White <==> i < 6
  {
    GroupOffset(p.group) + match p.color { case White => 0 case Black => 6 }
  }

  /** The piece owning mask `index`, or None past the twelve masks. */
  function FromIndex(index: nat): (r: Option<Piece>)
    ensures r.Some? <==> index < 12
    ensures r.Some? ==> ToIndex(r.value) == index
  {
    match index
    case 0 => Some(Piece(Pawn, White))
    case 1 => Some(Piece(Rook, White))
    case 2 => Some(Piece(Knight, White))
    case 3 => Some(Piece(Bishop, White))
    case 4 => Some(Piece(Queen, White))
    case 5 => Some(Piece(King, White))
    case 6 => Some(Piece(Pawn, Black))
    case 7 => Some(Piece(Rook, Black))
    case 8 => Some(Piece(Knight, Black))
    case 9 => Some(Piece(Bishop, Black))
    case 10 => Some(Piece(Queen, Black))
    case 11 => Some(Piece(King, Black))
    case _ => None
  }

  /** The index of a colour's attack mask. */
  function ColorToIndex(c: Color): (i: nat)
    ensures i < 2
    ensures i == 0 <==> c == White
  {
    match c
    case White => 0
    case Black => 1
  }

  function OppositeColor(c: Color): (r: Color)
    ensures r != c
  {
    match c
    case White => Black
    case Black => White
  }

  /** The twelve pieces, listed so that entry i has mask index i. */
  function InitializeAllPieces(): (ps: seq<Piece>)
    ensures |ps| == 12
    ensures forall i | 0 <= i < 12 :: ToIndex(ps[i]) == i
  {
    [Piece(Pawn, White), Piece(Rook, White), Piece(Knight, White),
     Piece(Bishop, White), Piece(Queen, White), Piece(King, White),
     Piece(Pawn, Black), Piece(Rook, Black), Piece(Knight, Black),
     Piece(Bishop, Black), Piece(Queen, Black), Piece(King, Black)]
  }

  /** Decoding an index recovers the piece: the numbering is a bijection. */
  lemma FromIndexOfToIndex(p: Piece)
    ensures FromIndex(ToIndex(p)) == Some(p)
  {
    match p.color
    case White =>
      match p.group {
        case Pawn => case Rook => case Knight => case Bishop => case Queen => case King =>
      }
    case Black =>
      match p.group {
        case Pawn => case Rook => case Knight => case Bishop => case Queen => case King =>
      }
  }

  /** Distinct pieces have distinct mask indices. */
  lemma ToIndexInjective(p: Piece, q: Piece)
    requires ToIndex(p) == ToIndex(q)
    ensures p == q
  {
    FromIndexOfToIndex(p);
    FromIndexOfToIndex(q);
  }

  /** Every index below 12 decodes to a piece that encodes back to it. */
  lemma ToIndexOfFromIndex(i: nat)
    requires i < 12
    ensures FromIndex(i).Some? && ToIndex(FromIndex(i).value) == i
  {
  }

  /** Colour negation is an involution. */
  lemma OppositeColorInvolution(c: Color)
    ensures OppositeColor(OppositeColor(c)) == c
  {
  }

  /** First index of a colour's block of six masks. */
  function ColorBase(c: Color): (b: nat)
    ensures b == 6 * ColorToIndex(c)
  {
    match c
    case White => 0
    case Black => 6
  }

  /** A piece's mask lies in its colour's block. */
  lemma ToIndexInColorBlock(p: Piece)
    ensures ColorBase(p.color) <= ToIndex(p) < ColorBase(p.color) + 6
  {
  }
}
