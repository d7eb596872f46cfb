/**
  The bitboard engine (src/models/bitboards.rs): twelve occupancy masks, one
  per piece kind in Pieces.ToIndex order, and two attack masks, one per
  colour. Each method runs the source's loops and is proved equal to the
  specification function of BitboardRules that it computes; BitboardFacts
  states what those functions mean.
 */
module BitboardEngine {
  import opened Options
  import opened Pieces
  import opened Positions
  import opened Bits
  import opened Geometry
  import opened Opening
  import opened BitboardRules
  import opened BitboardFacts
  import ArrayBoard

  /* ---------------- The initial masks ---------------- */

  /** The squares `create_*_bitboard` lists for each piece kind (bitboards.rs:125-199). */
  function PiecePositions(p: Piece): seq<nat>
  {
    match p.group
    case Pawn => if p.color == White then [A2, B2, C2, D2, E2, F2, G2, H2] else [A7, B7, C7, D7, E7, F7, G7, H7]
    case Rook => if p.color == White then [A1, H1] else [A8, H8]
    case Knight => if p.color == White then [B1, G1] else [B8, G8]
    case Bishop => if p.color == White then [C1, F1] else [C8, F8]
    case Queen => if p.color == White then [D1] else [D8]
    case King => if p.color == White then [E1] else [E8]
  }

  /** The listed squares are the start squares of the opening layout, all on the board. */
  lemma PiecePositionsAreStartSquares(p: Piece, s: nat)
    ensures s in PiecePositions(p) <==> s in StartSquares(p)
    ensures s in PiecePositions(p) ==> s < 64
  {
  }

  predicate AllOnBoard(positions: seq<nat>)
  {
    forall k | 0 <= k < |positions| :: positions[k] < 64
  }

  /** The mask with the bits of positions set, in list order. */
  function PositionsMask(positions: seq<nat>): bv64
    requires AllOnBoard(positions)
  {
    if positions == [] then 0
    else PositionsMask(positions[..|positions| - 1]) | ConvertToBit(positions[|positions| - 1])
  }

  lemma {:induction false} PositionsMaskMembers(positions: seq<nat>, s: nat)
    requires AllOnBoard(positions) && s < 64
    ensures Bit(PositionsMask(positions), s) <==> s in positions
  {
    if positions == [] {
      BitZero(s);
    } else {
      var init, last := positions[..|positions| - 1], positions[|positions| - 1];
      PositionsMaskMembers(init, s);
      BitSetWhen(PositionsMask(init), true, last, s);
      assert positions == init + [last];
    }
  }

  /** `create_bitboard_for_positions` (bitboards.rs:118-124): one bit per listed square. */
  method CreateBitboardForPositions(positions: seq<nat>) returns (bitboard: bv64)
    requires AllOnBoard(positions)
    ensures forall s | 0 <= s < 64 :: Bit(bitboard, s) <==> s in positions
  {
    bitboard := 0;
    var i := 0;
    while i < |positions|
      invariant 0 <= i <= |positions|
      invariant bitboard == PositionsMask(positions[..i])
    {
      assert positions[..i + 1][..i] == positions[..i];
      bitboard := bitboard | ConvertToBit(positions[i]);
      i := i + 1;
    }
    assert positions[..i] == positions;
    forall s | 0 <= s < 64
      ensures Bit(bitboard, s) <==> s in positions
    {
      PositionsMaskMembers(positions, s);
    }
  }

  /** `create_bitboard_for_piece` (bitboards.rs:107-116): the mask of p's start squares. */
  method CreateBitboardForPiece(piece: Piece) returns (bitboard: bv64)
    ensures forall s | 0 <= s < 64 :: Bit(bitboard, s) <==> s in StartSquares(piece)
  {
    var positions := PiecePositions(piece);
    forall k | 0 <= k < |positions|
      ensures positions[k] < 64
    {
      PiecePositionsAreStartSquares(piece, positions[k]);
    }
    bitboard := CreateBitboardForPositions(positions);
    forall s | 0 <= s < 64
      ensures Bit(bitboard, s) <==> s in StartSquares(piece)
    {
      PiecePositionsAreStartSquares(piece, s);
    }
  }

  /** `create_piece_bitboards` (bitboards.rs:101-103): one mask per piece kind, in index order. */
  method CreatePieceBitboards() returns (masks: seq<bv64>)
    ensures |masks| == 12 && HoldsStartSquares(masks)
  {
    var pieces := InitializeAllPieces();
    masks := [];
    var i := 0;
    while i < 12
      invariant 0 <= i <= 12 && |masks| == i
      invariant forall k, s | 0 <= k < i && 0 <= s < 64 :: Bit(masks[k], s) <==> s in StartSquares(pieces[k])
    {
      var bitboard := CreateBitboardForPiece(pieces[i]);
      masks := masks + [bitboard];
      i := i + 1;
    }
    forall p: Piece, s: nat | s < 64
      ensures Bit(masks[ToIndex(p)], s) <==> s in StartSquares(p)
    {
      ToIndexInjective(pieces[ToIndex(p)], p);
    }
  }

  /** `create_empty_bitboard` (bitboards.rs:105-107). */
  function EmptyBitboard(): (b: bv64)
    ensures forall s | 0 <= s < 64 :: !Bit(b, s)
  {
    BitZeroEverywhere();
    0
  }

  lemma BitZeroEverywhere()
    ensures forall s | 0 <= s < 64 :: !Bit(0, s)
  {
    forall s | 0 <= s < 64
      ensures !Bit(0, s)
    {
      BitZero(s);
    }
  }

  /** The squares the initial masks cover are ranks 1, 2, 7 and 8. */
  lemma InitialOccupiedSquares(masks: seq<bv64>, s: nat)
    requires |masks| == 12 && HoldsStartSquares(masks) && s < 64
    ensures (exists i | 0 <= i < 12 :: Bit(masks[i], s)) <==> s < 16 || 48 <= s
  {
    InitialMasksLayout(masks);
    OccupantNone(masks, s);
    StartingColors(s);
  }

  /* ---------------- The engine ---------------- */

  class Bitboards {
    /** One mask per piece kind, indexed by ToIndex. */
    var allPieces: seq<bv64>
    /** One attack mask per colour, indexed by ColorToIndex. */
    var attacks: seq<bv64>

    predicate Valid()
      reads this
    {
      |allPieces| == 12 && |attacks| == 2
    }

    /** `new` (bitboards.rs:18-26): the opening masks and empty attack masks. */
    constructor New()
      ensures Valid() && HoldsStartSquares(allPieces) && attacks == [0, 0]
      ensures Disjoint(allPieces) && forall s | 0 <= s < 64 :: Occupant(allPieces, s) == StartingPiece(s)
    {
      var masks := CreatePieceBitboards();
      allPieces := masks;
      attacks := [EmptyBitboard(), EmptyBitboard()];
      InitialMasksLayout(masks);
    }

    /** `get_occupant` (bitboards.rs:735-744): the piece of the first mask holding square. */
    method GetOccupant(square: nat) returns (occupant: Option<Piece>)
      requires Valid() && square < 64
      ensures occupant == Occupant(allPieces, square)
    {
      var pieceIndex := 0;
      while pieceIndex < 12
        invariant 0 <= pieceIndex <= 12
        invariant OccupantFrom(allPieces, square, pieceIndex) == Occupant(allPieces, square)
      {
        // piece_bitboard & destination_bitboard != 0
        if IsSquareOccupiedByBitboard(square, allPieces[pieceIndex]) {
          return FromIndex(pieceIndex);
        }
        pieceIndex := pieceIndex + 1;
      }
      return None;
    }

    /** `is_square_occupied_by_color` (bitboards.rs:782-801): some mask of the colour's six holds square. */
    method IsSquareOccupiedByColor(square: nat, pieceColor: Color) returns (occupied: bool)
      requires Valid() && square < 64
      ensures occupied <==> exists i | ColorBase(pieceColor) <= i < ColorBase(pieceColor) + 6 :: Bit(allPieces[i], square)
      ensures occupied == OccupiedByColor(allPieces, square, pieceColor)
    {
      var i := ColorBase(pieceColor);
      while i < ColorBase(pieceColor) + 6
        invariant ColorBase(pieceColor) <= i <= ColorBase(pieceColor) + 6
        invariant forall j | ColorBase(pieceColor) <= j < i :: !Bit(allPieces[j], square)
      {
        if IsSquareOccupiedByBitboard(square, allPieces[i]) {
          return true;
        }
        i := i + 1;
      }
      return false;
    }

    /**
      `is_valid_move` (bitboards.rs:747-767): false exactly when a square is
      off the board, the origin bit is missing from bitboard, or the
      destination holds a piece of color.
     */
    method IsValidMove(origin: nat, destination: nat, bitboard: bv64, color: Color) returns (valid: bool)
      requires Valid()
      ensures valid <==> origin < 64 && destination < 64 && Bit(bitboard, origin) && !OccupiedByColor(allPieces, destination, color)
    {
      if origin > 63 || destination > 63 {
        return false;
      }
      ConvertToBitAnd(bitboard, origin);
      if ConvertToBit(origin) & bitboard == 0 {
        return false;
      }
      var occupied := IsSquareOccupiedByColor(destination, color);
      if occupied {
        return false;
      }
      return true;
    }

    /** `is_square_defended` (bitboards.rs:252-261): the defender's attack mask holds square. */
    method IsSquareDefended(square: nat, defendingColor: Color) returns (defended: bool)
      requires Valid() && square < 64
      ensures defended <==> Bit(attacks[ColorToIndex(defendingColor)], square)
    {
      var defendingBitboard := attacks[ColorToIndex(defendingColor)];
      var combinedBitboard := ConvertToBit(square) & defendingBitboard;
      ConvertToBitAnd(defendingBitboard, square);
      defended := combinedBitboard != 0;
    }

    /**
      `create_legal_moves_bitboard` (bitboards.rs:348-369): the bits of the
      candidates that pass IsValidMove for piece's mask and colour.
     */
    method CreateLegalMovesBitboard(piece: Piece, possibleMoves: seq<nat>, origin: nat) returns (movesBitboard: bv64)
      requires Valid()
      ensures movesBitboard == FilterMoves(allPieces, origin, piece, possibleMoves)
      ensures forall s | 0 <= s < 64 :: Bit(movesBitboard, s) <==>
        s in possibleMoves && ValidMove(allPieces, origin, s, allPieces[ToIndex(piece)], piece.color)
    {
      var pieceBitboard := allPieces[ToIndex(piece)];
      movesBitboard := 0;
      var i := 0;
      while i < |possibleMoves|
        invariant 0 <= i <= |possibleMoves|
        invariant movesBitboard == MoveMask(allPieces, origin, pieceBitboard, piece.color, possibleMoves[..i])
      {
        assert possibleMoves[..i + 1][..i] == possibleMoves[..i];
        var possibleMove := possibleMoves[i];
        var valid := IsValidMove(origin, possibleMove, pieceBitboard, piece.color);
        if valid {
          movesBitboard := movesBitboard | ConvertToBit(possibleMove);
        }
        i := i + 1;
      }
      assert possibleMoves[..i] == possibleMoves;
      forall s | 0 <= s < 64
        ensures Bit(movesBitboard, s) <==> s in possibleMoves && ValidMove(allPieces, origin, s, pieceBitboard, piece.color)
      {
        MoveMaskMembers(allPieces, origin, pieceBitboard, piece.color, possibleMoves, s);
      }
    }

    /**
      `create_legal_attacks_bitboard` (bitboards.rs:713-731): the bits of the
      candidates that pass `is_valid_attack` for piece's mask.
     */
    method CreateLegalAttacksBitboard(piece: Piece, possibleAttacks: seq<nat>, origin: nat) returns (attacksBitboard: bv64)
      requires Valid()
      ensures attacksBitboard == FilterAttacks(allPieces, origin, piece, possibleAttacks)
      ensures forall s | 0 <= s < 64 :: Bit(attacksBitboard, s) <==>
        s in possibleAttacks && origin < 64 && Bit(allPieces[ToIndex(piece)], origin)
    {
      var pieceBitboard := allPieces[ToIndex(piece)];
      attacksBitboard := 0;
      var i := 0;
      while i < |possibleAttacks|
        invariant 0 <= i <= |possibleAttacks|
        invariant attacksBitboard == AttackMask(origin, pieceBitboard, possibleAttacks[..i])
      {
        assert possibleAttacks[..i + 1][..i] == possibleAttacks[..i];
        var possibleMove := possibleAttacks[i];
        if IsValidAttack(origin, possibleMove, pieceBitboard) {
          attacksBitboard := attacksBitboard | ConvertToBit(possibleMove);
        }
        i := i + 1;
      }
      assert possibleAttacks[..i] == possibleAttacks;
      forall s | 0 <= s < 64
        ensures Bit(attacksBitboard, s) <==> s in possibleAttacks && origin < 64 && Bit(pieceBitboard, origin)
      {
        AttackMaskMembers(origin, pieceBitboard, possibleAttacks, s);
      }
    }
  
    /* ---------------- Move generators ---------------- */

    /**
      `get_white_pawn_moves` (bitboards.rs:270-301). It probes origin + 7,
      origin + 8 and origin + 9 through `convert_to_bit`, which needs a square
      below 64, hence origin <= 54.
     */
    method GetWhitePawnMoves(origin: nat, piece: Piece) returns (moves: bv64)
      requires Valid() && origin <= 54
      ensures moves == FilterMoves(allPieces, origin, piece, WhitePawnCandidates(allPieces, origin, piece.color))
    {
      var possibleMoves := WhitePawnPushes(origin);
      possibleMoves := WhitePawnCaptures(origin, piece, possibleMoves);
      moves := CreateLegalMovesBitboard(piece, possibleMoves, origin);
    }

    /** The first half of `get_white_pawn_moves`: one square forward if empty, two from the start rank if empty. */
    method WhitePawnPushes(origin: nat) returns (possibleMoves: seq<nat>)
      requires Valid() && origin <= 54
      ensures possibleMoves == (if Occupant(allPieces, origin + 8).None? then [origin + 8] else []) +
        (if 8 <= origin <= 15 && Occupant(allPieces, origin + 16).None? then [origin + 16] else [])
    {
      var oneForward, twoForward := origin + 8, origin + 16;
      possibleMoves := [];
      var ahead := GetOccupant(oneForward);
      if ahead.None? {
        possibleMoves := possibleMoves + [oneForward];
      }
      if origin >= 8 && origin <= 15 {
        var twoAhead := GetOccupant(twoForward);
        if twoAhead.None? {
          possibleMoves := possibleMoves + [twoForward];
        }
      }
    }

    /** The second half of `get_white_pawn_moves`: each forward diagonal that holds an enemy. */
    method WhitePawnCaptures(origin: nat, piece: Piece, pushes: seq<nat>) returns (possibleMoves: seq<nat>)
      requires Valid() && origin <= 54
      ensures possibleMoves == pushes +
        (if OccupiedByColor(allPieces, origin + 7, OppositeColor(piece.color)) then [origin + 7] else []) +
        (if OccupiedByColor(allPieces, origin + 9, OppositeColor(piece.color)) then [origin + 9] else [])
    {
      var leftDiagonal, rightDiagonal := origin + 7, origin + 9;
      possibleMoves := pushes;
      var left := IsSquareOccupiedByColor(leftDiagonal, OppositeColor(piece.color));
      if left {
        possibleMoves := possibleMoves + [leftDiagonal];
      }
      var right := IsSquareOccupiedByColor(rightDiagonal, OppositeColor(piece.color));
      if right {
        possibleMoves := possibleMoves + [rightDiagonal];
      }
    }

    /** `get_black_pawn_moves` (bitboards.rs:303-346): each probe only when its subtraction does not underflow. */
    method GetBlackPawnMoves(origin: nat, piece: Piece) returns (moves: bv64)
      requires Valid() && origin < 64
      ensures moves == FilterMoves(allPieces, origin, piece, BlackPawnCandidates(allPieces, origin, piece.color))
    {
      var possibleMoves := BlackPawnPushes(origin);
      possibleMoves := BlackPawnCaptures(origin, piece, possibleMoves);
      moves := CreateLegalMovesBitboard(piece, possibleMoves, origin);
    }

    /** The first half of `get_black_pawn_moves`: the pushes, each guarded by its subtraction. */
    method BlackPawnPushes(origin: nat) returns (possibleMoves: seq<nat>)
      requires Valid() && origin < 64
      ensures possibleMoves == (if origin >= 8 && Occupant(allPieces, origin - 8).None? then [origin - 8] else []) +
        (if origin >= 16 && 48 <= origin <= 55 && Occupant(allPieces, origin - 16).None? then [origin - 16] else [])
    {
      possibleMoves := [];
      if origin >= 8 {
        var oneForward := origin - 8;
        var ahead := GetOccupant(oneForward);
        if ahead.None? {
          possibleMoves := possibleMoves + [oneForward];
        }
      }
      if origin >= 16 {
        var twoForward := origin - 16;
        if origin >= 48 && origin <= 55 {
          var twoAhead := GetOccupant(twoForward);
          if twoAhead.None? {
            possibleMoves := possibleMoves + [twoForward];
          }
        }
      }
    }

    /** The second half of `get_black_pawn_moves`: each computable forward diagonal that holds an enemy. */
    method BlackPawnCaptures(origin: nat, piece: Piece, pushes: seq<nat>) returns (possibleMoves: seq<nat>)
      requires Valid() && origin < 64
      ensures possibleMoves == pushes +
        (if origin >= 7 && OccupiedByColor(allPieces, origin - 7, OppositeColor(piece.color)) then [origin - 7] else []) +
        (if origin >= 9 && OccupiedByColor(allPieces, origin - 9, OppositeColor(piece.color)) then [origin - 9] else [])
    {
      possibleMoves := pushes;
      if origin >= 7 {
        var leftDiagonal := origin - 7;
        var left := IsSquareOccupiedByColor(leftDiagonal, OppositeColor(piece.color));
        if left {
          possibleMoves := possibleMoves + [leftDiagonal];
        }
      }
      if origin >= 9 {
        var rightDiagonal := origin - 9;
        var right := IsSquareOccupiedByColor(rightDiagonal, OppositeColor(piece.color));
        if right {
          possibleMoves := possibleMoves + [rightDiagonal];
        }
      }
    }

    /** `get_pawn_moves` (bitboards.rs:263-268). */
    method GetPawnMoves(origin: nat, piece: Piece) returns (moves: bv64)
      requires Valid() && origin < 64 && piece.group == Pawn && ProbesOnBoard(origin, piece)
      ensures moves == PieceMoves(allPieces, attacks, origin, piece)
    {
      match piece.color
      case White => moves := GetWhitePawnMoves(origin, piece);
      case Black => moves := GetBlackPawnMoves(origin, piece);
    }
  
    /**
      The direction guard of the sliding generators (bitboards.rs:390-402,
      :640-652) on squares of the board, where Rust's truncating `%` and `/`
      agree with Dafny's: a horizontal step that lands on a file not beyond
      the origin, or a diagonal step off the diagonal, has wrapped.
     */
    static method DirectionStops(origin: nat, destination: int, direction: int) returns (stops: bool)
      requires origin < 64 && 0 <= destination <= 63
      ensures stops == Wraps(origin, destination, direction)
    {
      var fromFile, toFile := origin % 8, destination % 8;
      var fromRank, toRank := origin / 8, destination / 8;
      var fileDiff, rankDiff := Abs(fromFile - toFile), Abs(fromRank - toRank);
      ArrayBoard.QueenGuard(origin, destination, direction);
      stops := (direction == 1 && toFile <= fromFile) || (direction == -1 && toFile >= fromFile) ||
        ((direction == 7 || direction == -7 || direction == 9 || direction == -9) && fileDiff != rankDiff);
    }

    /**
      The inner loop of `get_sliding_moves` (bitboards.rs:381-413): up to seven
      steps along direction, pushing the empty squares and an enemy blocker.
     */
    method WalkMoveRay(origin: nat, color: Color, direction: int, found: seq<nat>) returns (extended: seq<nat>)
      requires Valid() && origin < 64
      ensures extended == RayMoves(Occupancy(allPieces), origin, color, direction, 0, origin, found)
    {
      ghost var view := Occupancy(allPieces);
      ghost var ray := RayMoves(view, origin, color, direction, 0, origin, found);
      extended := found;
      var destination: int := origin;
      var k := 0;
      while k < 7
        invariant 0 <= k <= 7
        invariant RayMoves(view, origin, color, direction, k, destination, extended) == ray
      {
        ghost var previous := destination;
        destination := destination + direction;
        if destination < 0 || destination > 63 {
          break;
        }
        var stops := DirectionStops(origin, destination, direction);
        if stops {
          break;
        }
        var occupant := GetOccupant(destination as nat);
        if occupant.Some? {
          if occupant.value.color == OppositeColor(color) {
            extended := extended + [destination as nat];
          }
          break;
        }
        RayMovesAdvance(view, origin, color, direction, k, previous, extended);
        extended := extended + [destination as nat];
        k := k + 1;
      }
    }

    /**
      `get_sliding_moves` (bitboards.rs:371-414): along each direction of the
      piece's set, up to seven steps, stopping at the board's edge, at a file
      wrap, or at the first piece, which is listed when it is an enemy.
     */
    method GetSlidingMoves(origin: nat, piece: Piece) returns (moves: bv64)
      requires Valid() && origin < 64
      ensures moves == FilterMoves(allPieces, origin, piece, SlidingCandidates(allPieces, origin, piece))
    {
      var directions := BitboardDirections(piece.group);
      ghost var view := Occupancy(allPieces);
      var possibleMoves: seq<nat> := [];
      ghost var all := SlidingMoves(view, origin, piece.color, directions, 0, []);
      var i := 0;
      while i < |directions|
        invariant 0 <= i <= |directions|
        invariant SlidingMoves(view, origin, piece.color, directions, i, possibleMoves) == all
      {
        possibleMoves := WalkMoveRay(origin, piece.color, directions[i], possibleMoves);
        i := i + 1;
      }
      moves := CreateLegalMovesBitboard(piece, possibleMoves, origin);
    }

    /** The knight guard (bitboards.rs:436-448, :590-602): on the board and an L-shaped leap. */
    static method KnightLands(origin: nat, destination: int) returns (lands: bool)
      requires origin < 64
      ensures lands == (0 <= destination <= 63 && KnightShape(origin, destination))
    {
      if destination < 0 || destination > 63 {
        return false;
      }
      var fromFile, toFile := origin % 8, destination % 8;
      var fromRank, toRank := origin / 8, destination / 8;
      var fileDiff, rankDiff := Abs(fromFile - toFile), Abs(fromRank - toRank);
      ArrayBoard.KnightGuard(origin, destination);
      lands := (fileDiff == 1 && rankDiff == 2) || (fileDiff == 2 && rankDiff == 1);
    }

    /**
      `get_knight_moves` (bitboards.rs:427-466): every leap that passes the
      guard is listed, whatever stands there; own pieces are dropped only by
      the final validity filter.
     */
    method GetKnightMoves(origin: nat, piece: Piece) returns (moves: bv64)
      requires Valid() && origin < 64
      ensures moves == FilterMoves(allPieces, origin, piece, KnightLeaps(origin, KnightDeltas, 0, []))
    {
      var directions := KnightDeltas;
      var possibleMoves: seq<nat> := [];
      ghost var all := KnightLeaps(origin, directions, 0, []);
      var i := 0;
      while i < |directions|
        invariant 0 <= i <= |directions|
        invariant KnightLeaps(origin, directions, i, possibleMoves) == all
      {
        var destination := origin + directions[i];
        ghost var before := possibleMoves;
        var lands := KnightLands(origin, destination);
        if lands {
          var occupant := GetOccupant(destination as nat);
          if occupant.Some? && occupant.value.color == OppositeColor(piece.color) {
            possibleMoves := possibleMoves + [destination as nat];
          } else {
            possibleMoves := possibleMoves + [destination as nat];
          }
        }
        KnightLeapsAdvance(origin, directions, i, before, destination, lands, possibleMoves);
        i := i + 1;
      }
      moves := CreateLegalMovesBitboard(piece, possibleMoves, origin);
    }

    /** The king guard (bitboards.rs:482-495, :680-693): on the board and one step away. */
    static method KingStepLands(origin: nat, destination: int) returns (lands: bool)
      requires origin < 64
      ensures lands == (0 <= destination <= 63 && KingShape(origin, destination))
    {
      if destination < 0 || destination > 63 {
        return false;
      }
      var fromFile, toFile := origin % 8, destination % 8;
      var fromRank, toRank := origin / 8, destination / 8;
      var fileDiff, rankDiff := Abs(fromFile - toFile), Abs(fromRank - toRank);
      assert fileDiff == FileDiff(origin, destination) && rankDiff == RankDiff(origin, destination);
      lands := !(fileDiff > 1 || rankDiff > 1 || (fileDiff == 0 && rankDiff == 0));
    }

    /**
      One candidate of `get_king_moves` (bitboards.rs:479-520): a step that
      passes the guard, unless it captures an enemy that the enemy's attack
      mask covers, or enters an empty square the opponent's attack mask covers.
     */
    method KingAdmits(origin: nat, destination: int, piece: Piece) returns (admitted: bool)
      requires Valid() && origin < 64
      ensures admitted == (0 <= destination <= 63 && KingShape(origin, destination) &&
        !KingRefused(Occupancy(allPieces), attacks, piece.color, destination as nat))
    {
      var lands := KingStepLands(origin, destination);
      if !lands {
        return false;
      }
      var occupant := GetOccupant(destination as nat);
      match occupant
      case Some(pieceAtDestination) =>
        if pieceAtDestination.color == OppositeColor(piece.color) {
          var defended := IsSquareDefended(destination as nat, pieceAtDestination.color);
          admitted := !defended;
        } else {
          admitted := true;
        }
      case None =>
        var defended := IsSquareDefended(destination as nat, OppositeColor(piece.color));
        admitted := !defended;
    }

    /** One step of the `get_king_moves` loop: direction i's destination is pushed when the king admits it. */
    method AddKingStep(origin: nat, directions: seq<int>, i: nat, piece: Piece, found: seq<nat>) returns (extended: seq<nat>)
      requires Valid() && origin < 64 && i < |directions|
      ensures KingCandidates(Occupancy(allPieces), attacks, origin, piece.color, directions, i + 1, extended) ==
        KingCandidates(Occupancy(allPieces), attacks, origin, piece.color, directions, i, found)
    {
      var admitted := KingAdmits(origin, origin + directions[i], piece);
      extended := if admitted then found + [(origin + directions[i]) as nat] else found;
    }

    /** `get_king_moves` (bitboards.rs:475-532): the admitted steps, then the validity filter. */
    method GetKingMoves(origin: nat, piece: Piece) returns (moves: bv64)
      requires Valid() && origin < 64
      ensures moves == FilterMoves(allPieces, origin, piece, KingCandidates(Occupancy(allPieces), attacks, origin, piece.color, KingDirections, 0, []))
    {
      var directions := KingDirections;
      ghost var view := Occupancy(allPieces);
      var possibleMoves: seq<nat> := [];
      ghost var all := KingCandidates(view, attacks, origin, piece.color, directions, 0, []);
      var i := 0;
      while i < |directions|
        invariant 0 <= i <= |directions|
        invariant KingCandidates(view, attacks, origin, piece.color, directions, i, possibleMoves) == all
      {
        possibleMoves := AddKingStep(origin, directions, i, piece, possibleMoves);
        i := i + 1;
      }
      moves := CreateLegalMovesBitboard(piece, possibleMoves, origin);
    }

    /* ---------------- Attack generators ---------------- */

    /** `get_white_pawn_attacks` (bitboards.rs:548-560): both forward diagonals, whatever stands there. */
    method GetWhitePawnAttacks(origin: nat, piece: Piece) returns (mask: bv64)
      requires Valid() && origin < 64
      ensures mask == FilterAttacks(allPieces, origin, piece, [origin + 7, origin + 9])
    {
      var leftDiagonal, rightDiagonal := origin + 7, origin + 9;
      var possibleAttacks: seq<nat> := [];
      possibleAttacks := possibleAttacks + [leftDiagonal];
      possibleAttacks := possibleAttacks + [rightDiagonal];
      assert possibleAttacks == [origin + 7, origin + 9];
      mask := CreateLegalAttacksBitboard(piece, possibleAttacks, origin);
    }

    /** `get_black_pawn_attacks` (bitboards.rs:562-581): each forward diagonal whose subtraction does not underflow. */
    method GetBlackPawnAttacks(origin: nat, piece: Piece) returns (mask: bv64)
      requires Valid() && origin < 64
      ensures mask == FilterAttacks(allPieces, origin, piece, BlackPawnTargets(origin))
    {
      var possibleAttacks: seq<nat> := [];
      if origin >= 7 {
        possibleAttacks := possibleAttacks + [origin - 7];
      }
      if origin >= 9 {
        possibleAttacks := possibleAttacks + [origin - 9];
      }
      assert possibleAttacks == BlackPawnTargets(origin);
      mask := CreateLegalAttacksBitboard(piece, possibleAttacks, origin);
    }

    /** `get_pawn_attacks` (bitboards.rs:541-546). */
    method GetPawnAttacks(origin: nat, piece: Piece) returns (mask: bv64)
      requires Valid() && origin < 64 && piece.group == Pawn
      ensures mask == PieceAttacks(allPieces, origin, piece)
    {
      match piece.color
      case White => mask := GetWhitePawnAttacks(origin, piece);
      case Black => mask := GetBlackPawnAttacks(origin, piece);
    }

    /**
      `get_knight_attacks` (bitboards.rs:583-616): every leap that passes the
      guard, whatever stands there.
     */
    method GetKnightAttacks(origin: nat, piece: Piece) returns (mask: bv64)
      requires Valid() && origin < 64
      ensures mask == FilterAttacks(allPieces, origin, piece, KnightLeaps(origin, KnightDeltas, 0, []))
    {
      var directions := KnightDeltas;
      var possibleAttacks: seq<nat> := [];
      ghost var all := KnightLeaps(origin, directions, 0, []);
      var i := 0;
      while i < |directions|
        invariant 0 <= i <= |directions|
        invariant KnightLeaps(origin, directions, i, possibleAttacks) == all
      {
        var destination := origin + directions[i];
        ghost var before := possibleAttacks;
        var lands := KnightLands(origin, destination);
        if lands {
          possibleAttacks := possibleAttacks + [destination as nat];
        }
        KnightLeapsAdvance(origin, directions, i, before, destination, lands, possibleAttacks);
        i := i + 1;
      }
      mask := CreateLegalAttacksBitboard(piece, possibleAttacks, origin);
    }

    /**
      The inner loop of `get_sliding_attacks` (bitboards.rs:632-661): up to
      seven steps along direction, pushing every square up to and including
      the first occupied one.
     */
    method WalkAttackRay(origin: nat, direction: int, found: seq<nat>) returns (extended: seq<nat>)
      requires Valid() && origin < 64
      ensures extended == RayAttacks(Occupancy(allPieces), origin, direction, 0, origin, found)
    {
      ghost var view := Occupancy(allPieces);
      ghost var ray := RayAttacks(view, origin, direction, 0, origin, found);
      extended := found;
      var destination: int := origin;
      var k := 0;
      while k < 7
        invariant 0 <= k <= 7
        invariant RayAttacks(view, origin, direction, k, destination, extended) == ray
      {
        ghost var previous := destination;
        destination := destination + direction;
        if destination < 0 || destination > 63 {
          break;
        }
        var stops := DirectionStops(origin, destination, direction);
        if stops {
          break;
        }
        ghost var before := extended;
        extended := extended + [destination as nat];
        var occupant := GetOccupant(destination as nat);
        if occupant.Some? {
          break;
        }
        RayAttacksAdvance(view, origin, direction, k, previous, before);
        k := k + 1;
      }
    }

    /**
      `get_sliding_attacks` (bitboards.rs:618-670): along each direction of
      the piece's set, up to seven steps, stopping at the board's edge or at
      a file wrap; the first occupied square is listed, whatever its colour,
      and ends the ray.
     */
    method GetSlidingAttacks(origin: nat, piece: Piece) returns (mask: bv64)
      requires Valid() && origin < 64
      ensures mask == FilterAttacks(allPieces, origin, piece, SlidingAttacks(Occupancy(allPieces), origin, BitboardDirections(piece.group), 0, []))
    {
      var directions := BitboardDirections(piece.group);
      ghost var view := Occupancy(allPieces);
      var possibleAttacks: seq<nat> := [];
      ghost var all := SlidingAttacks(view, origin, directions, 0, []);
      var i := 0;
      while i < |directions|
        invariant 0 <= i <= |directions|
        invariant SlidingAttacks(view, origin, directions, i, possibleAttacks) == all
      {
        possibleAttacks := WalkAttackRay(origin, directions[i], possibleAttacks);
        i := i + 1;
      }
      mask := CreateLegalAttacksBitboard(piece, possibleAttacks, origin);
    }

    /** `get_king_attacks` (bitboards.rs:672-711): every step that passes the king guard. */
    method GetKingAttacks(origin: nat, piece: Piece) returns (mask: bv64)
      requires Valid() && origin < 64
      ensures mask == FilterAttacks(allPieces, origin, piece, KingSteps(origin, KingDirections, 0, []))
    {
      var directions := KingDirections;
      var possibleAttacks: seq<nat> := [];
      ghost var all := KingSteps(origin, directions, 0, []);
      var i := 0;
      while i < |directions|
        invariant 0 <= i <= |directions|
        invariant KingSteps(origin, directions, i, possibleAttacks) == all
      {
        var destination := origin + directions[i];
        ghost var before := possibleAttacks;
        var lands := KingStepLands(origin, destination);
        if lands {
          possibleAttacks := possibleAttacks + [destination as nat];
        }
        KingStepsAdvance(origin, directions, i, before, destination, lands, possibleAttacks);
        i := i + 1;
      }
      mask := CreateLegalAttacksBitboard(piece, possibleAttacks, origin);
    }

    /** `get_attacks` (bitboards.rs:216-225): the attack generator of the piece's kind. */
    method GetAttacks(origin: nat, piece: Piece) returns (mask: bv64)
      requires Valid() && origin < 64
      ensures mask == PieceAttacks(allPieces, origin, piece)
    {
      match piece.group
      case Pawn => mask := GetPawnAttacks(origin, piece);
      case Rook => mask := GetSlidingAttacks(origin, piece);
      case Knight => mask := GetKnightAttacks(origin, piece);
      case Bishop => mask := GetSlidingAttacks(origin, piece);
      case Queen => mask := GetSlidingAttacks(origin, piece);
      case King => mask := GetKingAttacks(origin, piece);
    }

    /* ---------------- Whole-board operations ---------------- */

    /**
      `get_legal_moves` (bitboards.rs:227-250): the occupant's move generator,
      0 for an empty square. The king's `is_checked` flag is computed and
      never used.
     */
    method GetLegalMoves(origin: nat) returns (moves: bv64)
      requires Valid() && origin < 64
      requires Occupant(allPieces, origin).Some? ==> ProbesOnBoard(origin, Occupant(allPieces, origin).value)
      ensures moves == LegalMovesMask(allPieces, attacks, origin)
    {
      var occupant := GetOccupant(origin);
      match occupant
      case None => moves := 0;
      case Some(piece) =>
        match piece.group
        case Pawn => moves := GetPawnMoves(origin, piece);
        case Rook => moves := GetSlidingMoves(origin, piece);
        case Knight => moves := GetKnightMoves(origin, piece);
        case Bishop => moves := GetSlidingMoves(origin, piece);
        case Queen => moves := GetSlidingMoves(origin, piece);
        case King =>
          var isChecked := attacks[ColorToIndex(OppositeColor(piece.color))] & ConvertToBit(origin) != 0;
          moves := GetKingMoves(origin, piece);
    }

    /**
      `get_all_attacks` (bitboards.rs:40-54): each occupied square or-s its
      piece's attack mask into the mask of the piece's colour.
     */
    method GetAllAttacks() returns (allAttacks: seq<bv64>)
      requires Valid()
      ensures allAttacks == AllAttacks(allPieces)
    {
      allAttacks := [0, 0];
      var origin := 0;
      while origin < 64
        invariant 0 <= origin <= 64 && |allAttacks| == 2
        invariant allAttacks[0] == ColorAttacksUpTo(allPieces, White, origin)
        invariant allAttacks[1] == ColorAttacksUpTo(allPieces, Black, origin)
      {
        var joined := AddAttacksOf(origin, allAttacks);
        AttacksAfterSquareMeans(allPieces, origin, allAttacks);
        allAttacks := joined;
        origin := origin + 1;
      }
      AttacksFromParts(allPieces, 64, allAttacks);
    }

    /** One iteration of `get_all_attacks`: square origin's piece, if any, adds its attacks to its colour's mask. */
    method AddAttacksOf(origin: nat, allAttacks: seq<bv64>) returns (joined: seq<bv64>)
      requires Valid() && origin < 64 && |allAttacks| == 2
      ensures joined == AttacksAfterSquare(allPieces, origin, allAttacks)
    {
      var occupant := GetOccupant(origin);
      if occupant.None? {
        return allAttacks;
      }
      var piece := occupant.value;
      var pieceAttacks := GetAttacks(origin, piece);
      joined := allAttacks[ColorToIndex(piece.color) := allAttacks[ColorToIndex(piece.color)] | pieceAttacks];
      ghost var masks := allPieces;
      AttacksAfterOccupied(masks, origin, allAttacks, piece);
      JoinSameMask(masks, origin, piece, allAttacks, pieceAttacks);
    }

    /**
      `get_all_legal_moves` (bitboards.rs:28-38): refreshes the attack masks,
      then lists the legal-move mask of every square in order.
     */
    method GetAllLegalMoves() returns (allLegalMoves: seq<bv64>)
      requires Valid() && WhitePawnsProbeOnBoard(allPieces)
      modifies this
      ensures Valid() && allPieces == old(allPieces) && attacks == AllAttacks(allPieces)
      ensures |allLegalMoves| == 64
      ensures forall o | 0 <= o < 64 :: allLegalMoves[o] == LegalMovesMask(allPieces, attacks, o)
    {
      attacks := GetAllAttacks();
      allLegalMoves := ListLegalMoves();
    }

    /** The loop of `get_all_legal_moves` (bitboards.rs:32-35): the legal-move mask of each square in order. */
    method ListLegalMoves() returns (allLegalMoves: seq<bv64>)
      requires Valid() && WhitePawnsProbeOnBoard(allPieces)
      ensures |allLegalMoves| == 64
      ensures forall o | 0 <= o < 64 :: allLegalMoves[o] == LegalMovesMask(allPieces, attacks, o)
    {
      ghost var masks, attackMasks := allPieces, attacks;
      ghost var expected := seq(64, o requires 0 <= o < 64 => LegalMovesMask(masks, attackMasks, o));
      allLegalMoves := [];
      var origin := 0;
      while origin < 64
        invariant 0 <= origin <= 64
        invariant allLegalMoves == expected[..origin]
      {
        WhitePawnProbes(masks, origin);
        var moves := GetLegalMoves(origin);
        assert expected[..origin + 1] == expected[..origin] + [expected[origin]];
        allLegalMoves := allLegalMoves + [moves];
        origin := origin + 1;
      }
      assert expected[..64] == expected;
    }

    /**
      `move_piece` (bitboards.rs:57-98): when the origin holds a piece whose
      move passes `is_valid_move`, clears the destination in a captured
      enemy's mask, moves the piece's bit from origin to destination and
      writes both squares through to board; otherwise changes nothing.
     */
    method MovePiece(board: ArrayBoard.Board, origin: nat, destination: nat)
      requires Valid() && board.Valid() && origin < 64
      modifies this, board
      ensures Valid() && board.Valid() && attacks == old(attacks) && board.turnColor == old(board.turnColor)
      ensures MoveAccepted(old(allPieces), origin, destination) ==>
        var piece := Occupant(old(allPieces), origin).value;
        allPieces == AfterMove(old(allPieces), origin, destination, piece) &&
        board.squares == old(board.squares)[destination := Some(piece)][origin := None]
      ensures !MoveAccepted(old(allPieces), origin, destination) ==>
        allPieces == old(allPieces) && board.squares == old(board.squares)
      ensures Disjoint(old(allPieces)) ==> Disjoint(allPieces)
      ensures Disjoint(old(allPieces)) && Mirrors(old(allPieces), old(board.squares)) ==> Mirrors(allPieces, board.squares)
    {
      ghost var masks, squares := allPieces, board.squares;
      var occupant := GetOccupant(origin);
      if occupant.None? {
        return;
      }
      var piece := occupant.value;
      var valid := IsValidMove(origin, destination, allPieces[ToIndex(piece)], piece.color);
      if !valid {
        return;
      }
      MovePieceBits(origin, destination, piece);
      board.UpdateSquare(destination, Some(piece));
      board.UpdateSquare(origin, None);
      if Disjoint(masks) {
        MovePreservesDisjoint(masks, origin, destination);
        if Mirrors(masks, squares) {
          MoveKeepsMirror(masks, squares, origin, destination);
        }
      }
    }

    /**
      The mask updates of `move_piece` (bitboards.rs:73-86): the capture, then
      the mover's bit taken from origin to destination.
     */
    method MovePieceBits(origin: nat, destination: nat, piece: Piece)
      requires Valid() && origin < 64 && destination < 64
      modifies this
      ensures Valid() && attacks == old(attacks) && allPieces == AfterMove(old(allPieces), origin, destination, piece)
    {
      CapturePiece(destination, piece.color);
      allPieces := allPieces[ToIndex(piece) := (allPieces[ToIndex(piece)] & !ConvertToBit(origin)) | ConvertToBit(destination)];
    }

    /**
      The capture step of `move_piece` (bitboards.rs:73-82): when the
      destination holds the opponent's colour, its occupant's mask loses the
      destination.
     */
    method CapturePiece(destination: nat, color: Color)
      requires Valid() && destination < 64
      modifies this
      ensures Valid() && attacks == old(attacks) && allPieces == ClearCaptured(old(allPieces), destination, color)
    {
      ghost var masks := allPieces;
      var capture := IsSquareOccupiedByColor(destination, OppositeColor(color));
      if capture {
        var capturedPiece := GetOccupant(destination);
        if capturedPiece.Some? {
          allPieces := allPieces[ToIndex(capturedPiece.value) := allPieces[ToIndex(capturedPiece.value)] & !ConvertToBit(destination)];
          ClearCapturedSome(masks, destination, color, capturedPiece.value);
          return;
        }
      }
      ClearCapturedNone(masks, destination, color);
    }
  }

  /** ClearCaptured when d holds the opponent's piece c. */
  lemma ClearCapturedSome(masks: seq<bv64>, d: nat, color: Color, c: Piece)
    requires |masks| == 12 && d < 64
    requires OccupiedByColor(masks, d, OppositeColor(color)) && Occupant(masks, d) == Some(c)
    ensures ClearCaptured(masks, d, color) == masks[ToIndex(c) := masks[ToIndex(c)] & !ConvertToBit(d)]
  {
  }

  /** ClearCaptured when d does not hold an opponent's piece. */
  lemma ClearCapturedNone(masks: seq<bv64>, d: nat, color: Color)
    requires |masks| == 12 && d < 64
    requires !OccupiedByColor(masks, d, OppositeColor(color)) || Occupant(masks, d).None?
    ensures ClearCaptured(masks, d, color) == masks
  {
  }

  /** Square m, holding p, or-s p's attack mask into the mask of p's colour. */
  lemma {:induction false} AttacksJoinOwn(masks: seq<bv64>, m: nat, p: Piece)
    requires |masks| == 12 && m < 64 && Occupant(masks, m) == Some(p)
    ensures ColorAttacksUpTo(masks, p.color, m + 1) == ColorAttacksUpTo(masks, p.color, m) | PieceAttacks(masks, m, p)
  {
  }

  /** Square m leaves colour c's mask alone when it does not hold a piece of colour c. */
  lemma {:induction false} AttacksKeepOther(masks: seq<bv64>, m: nat, c: Color)
    requires |masks| == 12 && m < 64 && (Occupant(masks, m).None? || Occupant(masks, m).value.color != c)
    ensures ColorAttacksUpTo(masks, c, m + 1) == ColorAttacksUpTo(masks, c, m)
  {
  }

  /**
    One occupied square m of `get_all_attacks`: the mask of the piece's colour
    gains the piece's attack mask, the other colour's mask stays.
   */
  lemma AttacksStepPiece(masks: seq<bv64>, m: nat, p: Piece)
    requires |masks| == 12 && m < 64 && Occupant(masks, m) == Some(p)
    ensures p.color == White ==>
      ColorAttacksUpTo(masks, White, m + 1) == ColorAttacksUpTo(masks, White, m) | PieceAttacks(masks, m, p) &&
      ColorAttacksUpTo(masks, Black, m + 1) == ColorAttacksUpTo(masks, Black, m)
    ensures p.color == Black ==>
      ColorAttacksUpTo(masks, White, m + 1) == ColorAttacksUpTo(masks, White, m) &&
      ColorAttacksUpTo(masks, Black, m + 1) == ColorAttacksUpTo(masks, Black, m) | PieceAttacks(masks, m, p)
  {
    AttacksJoinOwn(masks, m, p);
    match p.color
    case White => AttacksKeepOther(masks, m, Black);
    case Black => AttacksKeepOther(masks, m, White);
  }

  /**
    The effect of square m on the two attack masks (bitboards.rs:46-51): the
    attack mask of the piece there, if any, joins the mask of its colour.
   */
  function AttacksAfterSquare(masks: seq<bv64>, m: nat, attacks: seq<bv64>): seq<bv64>
    requires |masks| == 12 && m < 64 && |attacks| == 2
  {
    match Occupant(masks, m)
    case None => attacks
    case Some(p) => attacks[ColorToIndex(p.color) := attacks[ColorToIndex(p.color)] | PieceAttacks(masks, m, p)]
  }

  /** AttacksAfterSquare moves both per-colour masks of ColorAttacksUpTo past square m. */
  lemma AttacksAfterSquareMeans(masks: seq<bv64>, m: nat, attacks: seq<bv64>)
    requires |masks| == 12 && m < 64 && |attacks| == 2
    requires attacks[0] == ColorAttacksUpTo(masks, White, m) && attacks[1] == ColorAttacksUpTo(masks, Black, m)
    ensures var joined := AttacksAfterSquare(masks, m, attacks);
      |joined| == 2 && joined[0] == ColorAttacksUpTo(masks, White, m + 1) && joined[1] == ColorAttacksUpTo(masks, Black, m + 1)
  {
    match Occupant(masks, m)
    case None =>
      AttacksKeepOther(masks, m, White);
      AttacksKeepOther(masks, m, Black);
    case Some(p) =>
      AttacksStepPiece(masks, m, p);
  }

  /** AttacksAfterSquare on a square holding p. */
  lemma AttacksAfterOccupied(masks: seq<bv64>, m: nat, attacks: seq<bv64>, p: Piece)
    requires |masks| == 12 && m < 64 && |attacks| == 2 && Occupant(masks, m) == Some(p)
    ensures AttacksAfterSquare(masks, m, attacks) ==
      attacks[ColorToIndex(p.color) := attacks[ColorToIndex(p.color)] | PieceAttacks(masks, m, p)]
  {
  }

  /** Joining a mask equal to p's attack mask is joining p's attack mask. */
  lemma JoinSameMask(masks: seq<bv64>, m: nat, p: Piece, attacks: seq<bv64>, x: bv64)
    requires |masks| == 12 && m < 64 && |attacks| == 2 && x == PieceAttacks(masks, m, p)
    ensures attacks[ColorToIndex(p.color) := attacks[ColorToIndex(p.color)] | x] ==
      attacks[ColorToIndex(p.color) := attacks[ColorToIndex(p.color)] | PieceAttacks(masks, m, p)]
  {
  }

  /** The two attack masks, assembled in ColorToIndex order. */
  lemma AttacksFromParts(masks: seq<bv64>, n: nat, a: seq<bv64>)
    requires |masks| == 12 && n <= 64 && |a| == 2
    requires a[0] == ColorAttacksUpTo(masks, White, n) && a[1] == ColorAttacksUpTo(masks, Black, n)
    ensures a == AttacksUpTo(masks, n)
  {
  }

  /** One iteration of the knight loop, given the outcome of its guard. */
  lemma KnightLeapsAdvance(o: nat, deltas: seq<int>, i: nat, acc: seq<nat>, d: int, lands: bool, next: seq<nat>)
    requires i < |deltas| && d == o + deltas[i]
    requires lands == (0 <= d <= 63 && KnightShape(o, d))
    requires next == if lands then acc + [d as nat] else acc
    ensures KnightLeaps(o, deltas, i, acc) == KnightLeaps(o, deltas, i + 1, next)
  {
  }

  /** One iteration of the king-attack loop, given the outcome of its guard. */
  lemma KingStepsAdvance(o: nat, deltas: seq<int>, i: nat, acc: seq<nat>, d: int, lands: bool, next: seq<nat>)
    requires i < |deltas| && d == o + deltas[i]
    requires lands == (0 <= d <= 63 && KingShape(o, d))
    requires next == if lands then acc + [d as nat] else acc
    ensures KingSteps(o, deltas, i, acc) == KingSteps(o, deltas, i + 1, next)
  {
  }

  /** Under WhitePawnsProbeOnBoard, every square's occupant meets ProbesOnBoard. */
  lemma WhitePawnProbes(masks: seq<bv64>, o: nat)
    requires |masks| == 12 && o < 64 && WhitePawnsProbeOnBoard(masks)
    ensures Occupant(masks, o).Some? ==> ProbesOnBoard(o, Occupant(masks, o).value)
  {
  }
}
