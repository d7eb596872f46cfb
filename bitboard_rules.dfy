/**
  The specification functions of the bitboard engine (src/models/bitboards.rs).
  A position is twelve occupancy masks, mask i holding the squares of the piece
  kind with index i (Pieces.ToIndex), plus two attack masks, one per colour.
  Every generator of the engine first lists candidate squares and then keeps a
  candidate when a validity test passes, setting its bit; the candidate lists
  and the filters are written here as recursive functions that visit the
  candidates in the source's order, and BitboardFacts states what the resulting masks mean.
 */
module BitboardRules {
  import opened Options
  import opened Pieces
  import opened Bits
  import opened Geometry

  /* ---------------- Reading the masks ---------------- */

  /** The test `convert_to_bit(square) & bitboard != 0` (bitboards.rs:803-805). */
  function IsSquareOccupiedByBitboard(square: nat, bitboard: bv64): (r: bool)
    requires square < 64
    ensures r <==> Bit(bitboard, square)
  {
    ConvertToBitAnd(bitboard, square);
    ConvertToBit(square) & bitboard != 0
  }

  /** The piece of the first mask, from index i on, that holds square s. */
  function OccupantFrom(masks: seq<bv64>, s: nat, i: nat): Option<Piece>
    requires |masks| == 12 && s < 64 && i <= 12
    decreases 12 - i
  {
    if i == 12 then None
    else if Bit(masks[i], s) then FromIndex(i)
    else OccupantFrom(masks, s, i + 1)
  }

  /** What `get_occupant` reports for square s. */
  function Occupant(masks: seq<bv64>, s: nat): Option<Piece>
    requires |masks| == 12 && s < 64
  {
    OccupantFrom(masks, s, 0)
  }

  /** The board as the engine sees it through `get_occupant`. */
  function Occupancy(masks: seq<bv64>): (view: seq<Option<Piece>>)
    requires |masks| == 12
    ensures |view| == 64
  {
    seq(64, s requires 0 <= s < 64 => Occupant(masks, s))
  }

  /** Some mask of colour c's block of six holds square s. */
  predicate OccupiedByColor(masks: seq<bv64>, s: nat, c: Color)
    requires |masks| == 12 && s < 64
  {
    exists i | ColorBase(c) <= i < ColorBase(c) + 6 :: Bit(masks[i], s)
  }

  /** No two masks hold the same square. */
  predicate Disjoint(masks: seq<bv64>)
    requires |masks| == 12
  {
    forall s, i, j | 0 <= s < 64 && 0 <= i < j < 12 :: !(Bit(masks[i], s) && Bit(masks[j], s))
  }

  /** The array board agrees square by square with the masks. */
  predicate Mirrors(masks: seq<bv64>, squares: seq<Option<Piece>>)
    requires |masks| == 12
  {
    |squares| == 64 && forall s | 0 <= s < 64 :: squares[s] == Occupant(masks, s)
  }

  /* ---------------- Validity tests ---------------- */

  /**
    `is_valid_move` (bitboards.rs:747-767): both squares on the board, the
    origin set in the mover's mask, and the destination free of its colour.
   */
  predicate ValidMove(masks: seq<bv64>, origin: nat, destination: nat, bitboard: bv64, color: Color)
    requires |masks| == 12
  {
    origin < 64 && destination < 64 && Bit(bitboard, origin) && !OccupiedByColor(masks, destination, color)
  }

  /** `is_valid_attack` (bitboards.rs:770-780): the same without the colour test. */
  function IsValidAttack(origin: nat, destination: nat, bitboard: bv64): (r: bool)
    ensures r <==> origin < 64 && destination < 64 && Bit(bitboard, origin)
  {
    if origin > 63 || destination > 63 then false
    else
      ConvertToBitAnd(bitboard, origin);
      ConvertToBit(origin) & bitboard != 0
  }

  /* ---------------- Filters ---------------- */

  /** The bits of the candidates that pass ValidMove, added in list order. */
  function MoveMask(masks: seq<bv64>, origin: nat, bitboard: bv64, color: Color, candidates: seq<nat>): bv64
    requires |masks| == 12
  {
    if candidates == [] then 0
    else
      var acc := MoveMask(masks, origin, bitboard, color, candidates[..|candidates| - 1]);
      var d := candidates[|candidates| - 1];
      if ValidMove(masks, origin, d, bitboard, color) then acc | ConvertToBit(d) else acc
  }

  /** The bits of the candidates that pass IsValidAttack, added in list order. */
  function AttackMask(origin: nat, bitboard: bv64, candidates: seq<nat>): bv64
  {
    if candidates == [] then 0
    else
      var acc := AttackMask(origin, bitboard, candidates[..|candidates| - 1]);
      var d := candidates[|candidates| - 1];
      if IsValidAttack(origin, d, bitboard) then acc | ConvertToBit(d) else acc
  }

  /** `create_legal_moves_bitboard` for piece p on square o (bitboards.rs:348-369). */
  function FilterMoves(masks: seq<bv64>, o: nat, p: Piece, candidates: seq<nat>): bv64
    requires |masks| == 12
  {
    MoveMask(masks, o, masks[ToIndex(p)], p.color, candidates)
  }

  /** `create_legal_attacks_bitboard` for piece p on square o (bitboards.rs:713-731). */
  function FilterAttacks(masks: seq<bv64>, o: nat, p: Piece, candidates: seq<nat>): bv64
    requires |masks| == 12
  {
    AttackMask(o, masks[ToIndex(p)], candidates)
  }

  /* ---------------- Candidate lists ---------------- */

  /** The ray directions of the sliding generators, in their order (bitboards.rs:372-377). */
  function BitboardDirections(g: Group): seq<int>
  {
    match g
    case Bishop => [7, -7, 9, -9]
    case Rook => [1, -1, 8, -8]
    case Queen => [1, -1, 7, -7, 8, -8, 9, -9]
    case _ => []
  }

  /** The king offsets, in their order (bitboards.rs:476, :676). */
  const KingDirections: seq<int> := [1, 8, 7, 9, -1, -8, -7, -9]

  /**
    A white pawn on o probes o + 7, o + 8 and o + 9 through `convert_to_bit`,
    which needs a square below 64; every other piece probes only squares of
    the board.
   */
  predicate ProbesOnBoard(o: nat, p: Piece)
  {
    p == Piece(Pawn, White) ==> o <= 54
  }

  /** Every white pawn stands where its move generator stays on the board. */
  predicate WhitePawnsProbeOnBoard(masks: seq<bv64>)
    requires |masks| == 12
  {
    forall s | 55 <= s < 64 :: Occupant(masks, s) != Some(Piece(Pawn, White))
  }

  /** The pushes and captures a white pawn lists (bitboards.rs:270-301). */
  function WhitePawnCandidates(masks: seq<bv64>, o: nat, color: Color): seq<nat>
    requires |masks| == 12 && o <= 54
  {
    (if Occupant(masks, o + 8).None? then [o + 8] else []) +
    (if 8 <= o <= 15 && Occupant(masks, o + 16).None? then [o + 16] else []) +
    (if OccupiedByColor(masks, o + 7, OppositeColor(color)) then [o + 7] else []) +
    (if OccupiedByColor(masks, o + 9, OppositeColor(color)) then [o + 9] else [])
  }

  /** The pushes and captures a black pawn lists, each guarded by a subtraction that must not underflow (bitboards.rs:303-346). */
  function BlackPawnCandidates(masks: seq<bv64>, o: nat, color: Color): seq<nat>
    requires |masks| == 12 && o < 64
  {
    (if o >= 8 && Occupant(masks, o - 8).None? then [o - 8] else []) +
    (if o >= 16 && 48 <= o <= 55 && Occupant(masks, o - 16).None? then [o - 16] else []) +
    (if o >= 7 && OccupiedByColor(masks, o - 7, OppositeColor(color)) then [o - 7] else []) +
    (if o >= 9 && OccupiedByColor(masks, o - 9, OppositeColor(color)) then [o - 9] else [])
  }

  /** The squares a sliding piece lists: each ray up to and including an enemy blocker (bitboards.rs:379-406). */
  function SlidingCandidates(masks: seq<bv64>, o: nat, p: Piece): seq<nat>
    requires |masks| == 12
  {
    SlidingMoves(Occupancy(masks), o, p.color, BitboardDirections(p.group), 0, [])
  }

  /**
    A king of colour color may not enter d: an enemy on d that the enemy's
    attack mask covers, or an empty d that the opponent's attack mask covers
    (bitboards.rs:497-519).
   */
  predicate KingRefused(view: seq<Option<Piece>>, attacks: seq<bv64>, color: Color, d: nat)
    requires |view| == 64 && |attacks| == 2 && d < 64
  {
    match view[d]
    case Some(q) => q.color == OppositeColor(color) && Bit(attacks[ColorToIndex(q.color)], d)
    case None => Bit(attacks[ColorToIndex(OppositeColor(color))], d)
  }

  /** acc followed by the king steps o + deltas[j], j >= i, on the board, at king distance and not refused. */
  function KingCandidates(view: seq<Option<Piece>>, attacks: seq<bv64>, o: int, color: Color, deltas: seq<int>, i: nat, acc: seq<nat>): seq<nat>
    requires |view| == 64 && |attacks| == 2 && i <= |deltas|
    decreases |deltas| - i
  {
    if i == |deltas| then acc
    else
      KingCandidates(view, attacks, o, color, deltas, i + 1, KingCandidateStep(view, attacks, o, color, o + deltas[i], acc))
  }

  /** acc, extended by d when d is on the board, at king distance from o and not refused. */
  function KingCandidateStep(view: seq<Option<Piece>>, attacks: seq<bv64>, o: int, color: Color, d: int, acc: seq<nat>): seq<nat>
    requires |view| == 64 && |attacks| == 2
  {
    if 0 <= d <= 63 && KingShape(o, d) && !KingRefused(view, attacks, color, d as nat) then acc + [d as nat] else acc
  }

  /** The candidate list of each piece kind's move generator (bitboards.rs:227-250). */
  function MoveCandidates(masks: seq<bv64>, attacks: seq<bv64>, o: nat, p: Piece): seq<nat>
    requires |masks| == 12 && |attacks| == 2 && o < 64 && ProbesOnBoard(o, p)
  {
    match p.group
    case Pawn => if p.color == White then WhitePawnCandidates(masks, o, p.color) else BlackPawnCandidates(masks, o, p.color)
    case Knight => KnightLeaps(o, KnightDeltas, 0, [])
    case King => KingCandidates(Occupancy(masks), attacks, o, p.color, KingDirections, 0, [])
    case _ => SlidingCandidates(masks, o, p)
  }

  /** The squares a black pawn attacks: the two forward diagonals whose subtraction does not underflow (bitboards.rs:562-581). */
  function BlackPawnTargets(o: nat): seq<nat>
  {
    (if o >= 7 then [o - 7] else []) + (if o >= 9 then [o - 9] else [])
  }

  /** The candidate list of each piece kind's attack generator (bitboards.rs:216-225). */
  function AttackCandidates(masks: seq<bv64>, o: nat, p: Piece): seq<nat>
    requires |masks| == 12 && o < 64
  {
    match p.group
    case Pawn => if p.color == White then [o + 7, o + 9] else BlackPawnTargets(o)
    case Knight => KnightLeaps(o, KnightDeltas, 0, [])
    case King => KingSteps(o, KingDirections, 0, [])
    case _ => SlidingAttacks(Occupancy(masks), o, BitboardDirections(p.group), 0, [])
  }

  /* ---------------- Whole-board masks ---------------- */

  /** The legal-move mask of piece p on square o. */
  function PieceMoves(masks: seq<bv64>, attacks: seq<bv64>, o: nat, p: Piece): bv64
    requires |masks| == 12 && |attacks| == 2 && o < 64 && ProbesOnBoard(o, p)
  {
    FilterMoves(masks, o, p, MoveCandidates(masks, attacks, o, p))
  }

  /** The attack mask of piece p on square o. */
  function PieceAttacks(masks: seq<bv64>, o: nat, p: Piece): bv64
    requires |masks| == 12 && o < 64
  {
    FilterAttacks(masks, o, p, AttackCandidates(masks, o, p))
  }

  /** `get_legal_moves(o)`: the occupant's move mask, 0 for an empty square. */
  function LegalMovesMask(masks: seq<bv64>, attacks: seq<bv64>, o: nat): bv64
    requires |masks| == 12 && |attacks| == 2 && o < 64
    requires Occupant(masks, o).Some? ==> ProbesOnBoard(o, Occupant(masks, o).value)
  {
    match Occupant(masks, o)
    case None => 0
    case Some(p) => PieceMoves(masks, attacks, o, p)
  }

  /**
    Colour c's attack mask after `get_all_attacks` has visited the squares
    below n: each square holding a piece of colour c or-s in that piece's
    attack mask (bitboards.rs:42-52).
   */
  function ColorAttacksUpTo(masks: seq<bv64>, c: Color, n: nat): bv64
    requires |masks| == 12 && n <= 64
  {
    if n == 0 then 0
    else
      var prev := ColorAttacksUpTo(masks, c, n - 1);
      match Occupant(masks, n - 1)
      case Some(p) => if p.color == c then prev | PieceAttacks(masks, n - 1, p) else prev
      case None => prev
  }

  /** The two attack masks after the squares below n, indexed by ColorToIndex. */
  function AttacksUpTo(masks: seq<bv64>, n: nat): (r: seq<bv64>)
    requires |masks| == 12 && n <= 64
    ensures |r| == 2
  {
    [ColorAttacksUpTo(masks, White, n), ColorAttacksUpTo(masks, Black, n)]
  }

  /** `get_all_attacks`: per colour, the union of its pieces' attack masks. */
  function AllAttacks(masks: seq<bv64>): (r: seq<bv64>)
    requires |masks| == 12
    ensures |r| == 2
  {
    AttacksUpTo(masks, 64)
  }

  /* ---------------- Moving a piece ---------------- */

  /** `move_piece` goes ahead: the origin holds a piece whose move passes `is_valid_move`. */
  predicate MoveAccepted(masks: seq<bv64>, o: nat, d: nat)
    requires |masks| == 12 && o < 64
  {
    Occupant(masks, o).Some? &&
    ValidMove(masks, o, d, masks[ToIndex(Occupant(masks, o).value)], Occupant(masks, o).value.color)
  }

  /** The piece a move of colour color onto d captures: the occupant of d when d holds the opponent's colour (bitboards.rs:73-76). */
  function Captured(masks: seq<bv64>, d: nat, color: Color): Option<Piece>
    requires |masks| == 12 && d < 64
  {
    if OccupiedByColor(masks, d, OppositeColor(color)) then Occupant(masks, d) else None
  }

  /** The masks after clearing d in the captured piece's mask (bitboards.rs:77-82). */
  function ClearCaptured(masks: seq<bv64>, d: nat, color: Color): (r: seq<bv64>)
    requires |masks| == 12 && d < 64
    ensures |r| == 12
  {
    match Captured(masks, d, color)
    case Some(c) => masks[ToIndex(c) := masks[ToIndex(c)] & !ConvertToBit(d)]
    case None => masks
  }

  /** The masks after p moves from o to d (bitboards.rs:73-86). */
  function AfterMove(masks: seq<bv64>, o: nat, d: nat, p: Piece): (r: seq<bv64>)
    requires |masks| == 12 && o < 64 && d < 64
    ensures |r| == 12
  {
    var cleared := ClearCaptured(masks, d, p.color);
    cleared[ToIndex(p) := (cleared[ToIndex(p)] & !ConvertToBit(o)) | ConvertToBit(d)]
  }
}
