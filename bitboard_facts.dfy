/**
  What the bitboard engine's masks mean (src/models/bitboards.rs): the
  occupant reading, the filters, the square sets of every generator, the
  attack masks, and the effect of a move on the masks and on the array board.
 */
module BitboardFacts {
  import opened Options
  import opened Pieces
  import opened Bits
  import opened Geometry
  import opened BitboardRules
  import opened Opening

  /* ---------------- The occupant ---------------- */

  lemma {:induction false} OccupantFromLowest(masks: seq<bv64>, s: nat, i: nat, p: Piece)
    requires |masks| == 12 && s < 64 && i <= 12
    ensures OccupantFrom(masks, s, i) == Some(p) <==>
      i <= ToIndex(p) && Bit(masks[ToIndex(p)], s) && forall j | i <= j < ToIndex(p) :: !Bit(masks[j], s)
    decreases 12 - i
  {
    if i < 12 {
      FromIndexOfToIndex(p);
      if !Bit(masks[i], s) {
        OccupantFromLowest(masks, s, i + 1, p);
      }
    }
  }

  lemma {:induction false} OccupantFromNone(masks: seq<bv64>, s: nat, i: nat)
    requires |masks| == 12 && s < 64 && i <= 12
    ensures OccupantFrom(masks, s, i).None? <==> forall j | i <= j < 12 :: !Bit(masks[j], s)
    decreases 12 - i
  {
    if i < 12 && !Bit(masks[i], s) {
      OccupantFromNone(masks, s, i + 1);
    }
  }

  /** `get_occupant(s)` is the piece of the lowest mask holding s (bitboards.rs:735-744). */
  lemma OccupantLowest(masks: seq<bv64>, s: nat, p: Piece)
    requires |masks| == 12 && s < 64
    ensures Occupant(masks, s) == Some(p) <==>
      Bit(masks[ToIndex(p)], s) && forall j | 0 <= j < ToIndex(p) :: !Bit(masks[j], s)
  {
    OccupantFromLowest(masks, s, 0, p);
  }

  /** `get_occupant(s)` is None exactly when no mask holds s. */
  lemma OccupantNone(masks: seq<bv64>, s: nat)
    requires |masks| == 12 && s < 64
    ensures Occupant(masks, s).None? <==> forall j | 0 <= j < 12 :: !Bit(masks[j], s)
  {
    OccupantFromNone(masks, s, 0);
  }

  /** With disjoint masks the occupant is the owner of the one mask holding the square. */
  lemma OccupantOfDisjoint(masks: seq<bv64>, s: nat, p: Piece)
    requires |masks| == 12 && s < 64 && Disjoint(masks)
    ensures Occupant(masks, s) == Some(p) <==> Bit(masks[ToIndex(p)], s)
  {
    OccupantLowest(masks, s, p);
  }

  /** Two mask sequences that agree on square s report the same occupant there. */
  lemma {:induction false} OccupantFromSameSquare(a: seq<bv64>, b: seq<bv64>, s: nat, i: nat)
    requires |a| == 12 && |b| == 12 && s < 64 && i <= 12
    requires forall j | 0 <= j < 12 :: Bit(a[j], s) == Bit(b[j], s)
    ensures OccupantFrom(a, s, i) == OccupantFrom(b, s, i)
    decreases 12 - i
  {
    if i < 12 {
      OccupantFromSameSquare(a, b, s, i + 1);
    }
  }

  /** A piece's mask lies in its colour's block, so its square counts as occupied by that colour. */
  lemma OccupiedByOccupantColor(masks: seq<bv64>, s: nat)
    requires |masks| == 12 && s < 64 && Occupant(masks, s).Some?
    ensures OccupiedByColor(masks, s, Occupant(masks, s).value.color)
  {
    var p := Occupant(masks, s).value;
    OccupantLowest(masks, s, p);
    ToIndexInColorBlock(p);
  }

  /** An empty square is occupied by neither colour. */
  lemma EmptyNotOccupied(masks: seq<bv64>, s: nat, c: Color)
    requires |masks| == 12 && s < 64 && Occupant(masks, s).None?
    ensures !OccupiedByColor(masks, s, c)
  {
    OccupantNone(masks, s);
  }

  /**
    With disjoint masks `is_square_occupied_by_color(s, c)` holds exactly when
    the occupant of s has colour c (bitboards.rs:782-801).
   */
  lemma OccupiedByColorOfDisjoint(masks: seq<bv64>, s: nat, c: Color)
    requires |masks| == 12 && s < 64 && Disjoint(masks)
    ensures OccupiedByColor(masks, s, c) <==> Occupant(masks, s).Some? && Occupant(masks, s).value.color == c
  {
    if OccupiedByColor(masks, s, c) {
      var i :| ColorBase(c) <= i < ColorBase(c) + 6 && Bit(masks[i], s);
      var q := FromIndex(i).value;
      OccupantOfDisjoint(masks, s, q);
    } else if Occupant(masks, s).Some? {
      OccupiedByOccupantColor(masks, s);
    }
  }

  /* ---------------- Filters ---------------- */

  /** One step of a filter: the bit of d is added when the test passed. */
  lemma BitSetWhen(acc: bv64, valid: bool, d: nat, s: nat)
    requires s < 64 && (valid ==> d < 64)
    ensures Bit(if valid then acc | ConvertToBit(d) else acc, s) <==> Bit(acc, s) || (valid && s == d)
  {
    if valid {
      BitSet(acc, d, s);
    }
  }

  lemma {:induction false} MoveMaskMembers(masks: seq<bv64>, origin: nat, bitboard: bv64, color: Color, cs: seq<nat>, s: nat)
    requires |masks| == 12 && s < 64
    ensures Bit(MoveMask(masks, origin, bitboard, color, cs), s) <==> s in cs && ValidMove(masks, origin, s, bitboard, color)
  {
    if cs == [] {
      BitZero(s);
    } else {
      var init, d := cs[..|cs| - 1], cs[|cs| - 1];
      MoveMaskMembers(masks, origin, bitboard, color, init, s);
      BitSetWhen(MoveMask(masks, origin, bitboard, color, init), ValidMove(masks, origin, d, bitboard, color), d, s);
      assert cs == init + [d];
    }
  }

  lemma {:induction false} AttackMaskMembers(origin: nat, bitboard: bv64, cs: seq<nat>, s: nat)
    requires s < 64
    ensures Bit(AttackMask(origin, bitboard, cs), s) <==> s in cs && IsValidAttack(origin, s, bitboard)
  {
    if cs == [] {
      BitZero(s);
    } else {
      var init, d := cs[..|cs| - 1], cs[|cs| - 1];
      AttackMaskMembers(origin, bitboard, init, s);
      BitSetWhen(AttackMask(origin, bitboard, init), IsValidAttack(origin, d, bitboard), d, s);
      assert cs == init + [d];
    }
  }

  /**
    For the piece on o, `create_legal_moves_bitboard` keeps exactly the
    candidates that are free of the piece's colour.
   */
  lemma FilterMovesMembers(masks: seq<bv64>, o: nat, p: Piece, cs: seq<nat>, s: nat)
    requires |masks| == 12 && o < 64 && s < 64 && Occupant(masks, o) == Some(p)
    ensures Bit(FilterMoves(masks, o, p, cs), s) <==> s in cs && !OccupiedByColor(masks, s, p.color)
  {
    MoveMaskMembers(masks, o, masks[ToIndex(p)], p.color, cs, s);
    OccupantLowest(masks, o, p);
  }

  /** For the piece on o, `create_legal_attacks_bitboard` keeps exactly the candidates on the board. */
  lemma FilterAttacksMembers(masks: seq<bv64>, o: nat, p: Piece, cs: seq<nat>, s: nat)
    requires |masks| == 12 && o < 64 && s < 64 && Occupant(masks, o) == Some(p)
    ensures Bit(FilterAttacks(masks, o, p, cs), s) <==> s in cs
  {
    AttackMaskMembers(o, masks[ToIndex(p)], cs, s);
    OccupantLowest(masks, o, p);
  }

  /* ---------------- Sliding pieces ---------------- */

  lemma BitboardDirectionsAreDirections(g: Group)
    ensures AllDirections(BitboardDirections(g))
  {
  }

  /**
    A rook, bishop or queen on o may move to s exactly when s ends a ray of
    one of its directions (through empty squares, stopping on an enemy) and
    does not hold a piece of its own colour (bitboards.rs:371-427).
   */
  lemma SlidingMoveTargets(masks: seq<bv64>, attacks: seq<bv64>, o: nat, p: Piece, s: nat)
    requires |masks| == 12 && |attacks| == 2 && o < 64 && s < 64 && Occupant(masks, o) == Some(p)
    requires p.group == Rook || p.group == Bishop || p.group == Queen
    ensures Bit(PieceMoves(masks, attacks, o, p), s) <==>
      (exists j | 0 <= j < |BitboardDirections(p.group)| :: SlideTarget(Occupancy(masks), o, p.color, BitboardDirections(p.group)[j], s)) &&
      !OccupiedByColor(masks, s, p.color)
  {
    var view, dirs := Occupancy(masks), BitboardDirections(p.group);
    BitboardDirectionsAreDirections(p.group);
    assert MoveCandidates(masks, attacks, o, p) == SlidingCandidates(masks, o, p);
    FilterMovesMembers(masks, o, p, SlidingCandidates(masks, o, p), s);
    SlidingMovesExact(view, o, p.color, dirs, 0, [], s);
    SlideTargetFromExists(view, o, p.color, dirs, 0, s);
  }

  /** A sliding piece attacks exactly the squares up to and including the first occupied one of each ray (bitboards.rs:621-673). */
  lemma SlidingAttackTargets(masks: seq<bv64>, o: nat, p: Piece, s: nat)
    requires |masks| == 12 && o < 64 && s < 64 && Occupant(masks, o) == Some(p)
    requires p.group == Rook || p.group == Bishop || p.group == Queen
    ensures Bit(PieceAttacks(masks, o, p), s) <==>
      exists j | 0 <= j < |BitboardDirections(p.group)| :: AttackTarget(Occupancy(masks), o, BitboardDirections(p.group)[j], s)
  {
    var view, dirs := Occupancy(masks), BitboardDirections(p.group);
    BitboardDirectionsAreDirections(p.group);
    assert AttackCandidates(masks, o, p) == SlidingAttacks(view, o, dirs, 0, []);
    FilterAttacksMembers(masks, o, p, SlidingAttacks(view, o, dirs, 0, []), s);
    SlidingAttacksExact(view, o, dirs, 0, [], s);
    AttackTargetFromExists(view, o, dirs, 0, s);
  }

  /* ---------------- Knights ---------------- */

  /** A knight may move to the L-shaped squares not holding its own colour (bitboards.rs:429-473). */
  lemma KnightMoveTargets(masks: seq<bv64>, attacks: seq<bv64>, o: nat, p: Piece, s: nat)
    requires |masks| == 12 && |attacks| == 2 && o < 64 && s < 64 && Occupant(masks, o) == Some(p) && p.group == Knight
    ensures Bit(PieceMoves(masks, attacks, o, p), s) <==> KnightShape(o, s) && !OccupiedByColor(masks, s, p.color)
  {
    FilterMovesMembers(masks, o, p, KnightLeaps(o, KnightDeltas, 0, []), s);
    KnightLeapsExact(o, s);
  }

  /** A knight attacks exactly the L-shaped squares (bitboards.rs:583-619). */
  lemma KnightAttackTargets(masks: seq<bv64>, o: nat, p: Piece, s: nat)
    requires |masks| == 12 && o < 64 && s < 64 && Occupant(masks, o) == Some(p) && p.group == Knight
    ensures Bit(PieceAttacks(masks, o, p), s) <==> KnightShape(o, s)
  {
    FilterAttacksMembers(masks, o, p, KnightLeaps(o, KnightDeltas, 0, []), s);
    KnightLeapsExact(o, s);
  }

  /* ---------------- Kings ---------------- */

  lemma {:induction false} KingCandidatesMembers(view: seq<Option<Piece>>, attacks: seq<bv64>, o: int, color: Color, deltas: seq<int>, i: nat, acc: seq<nat>, d: int)
    requires |view| == 64 && |attacks| == 2 && i <= |deltas|
    ensures d in KingCandidates(view, attacks, o, color, deltas, i, acc) <==>
      d in acc || (0 <= d < 64 && KingShape(o, d) && !KingRefused(view, attacks, color, d as nat) && exists j | i <= j < |deltas| :: deltas[j] == d - o)
    decreases |deltas| - i
  {
    if i < |deltas| {
      var next := KingCandidateStep(view, attacks, o, color, o + deltas[i], acc);
      KingCandidatesMembers(view, attacks, o, color, deltas, i + 1, next, d);
      KingCandidateStepMembers(view, attacks, o, color, o + deltas[i], acc, d);
      OffsetSplit(deltas, i, d - o);
    }
  }

  lemma OffsetSplit(deltas: seq<int>, i: nat, x: int)
    requires i < |deltas|
    ensures (exists j | i <= j < |deltas| :: deltas[j] == x) <==> deltas[i] == x || exists j | i + 1 <= j < |deltas| :: deltas[j] == x
  {
  }

  lemma KingCandidateStepMembers(view: seq<Option<Piece>>, attacks: seq<bv64>, o: int, color: Color, e: int, acc: seq<nat>, d: int)
    requires |view| == 64 && |attacks| == 2
    ensures d in KingCandidateStep(view, attacks, o, color, e, acc) <==>
      d in acc || (d == e && 0 <= d < 64 && KingShape(o, d) && !KingRefused(view, attacks, color, d as nat))
  {
  }

  lemma KingDirectionsCover(x: int)
    requires IsDirection(x)
    ensures x in KingDirections
  {
  }

  /** Every neighbouring square is reached by one of the king's offsets. */
  lemma KingShapeInDirections(o: int, d: int)
    requires OnBoard(o) && OnBoard(d) && KingShape(o, d)
    ensures exists j | 0 <= j < |KingDirections| :: KingDirections[j] == d - o
  {
    KingShapeOffset(o, d);
    KingDirectionsCover(d - o);
    var j :| 0 <= j < |KingDirections| && KingDirections[j] == d - o;
  }

  /** The king's candidates are the neighbouring squares its attack-mask test lets through. */
  lemma KingCandidatesExact(view: seq<Option<Piece>>, attacks: seq<bv64>, o: nat, color: Color, d: nat)
    requires |view| == 64 && |attacks| == 2 && o < 64 && d < 64
    ensures d in KingCandidates(view, attacks, o, color, KingDirections, 0, []) <==>
      KingShape(o, d) && !KingRefused(view, attacks, color, d)
  {
    KingCandidatesMembers(view, attacks, o, color, KingDirections, 0, [], d);
    if KingShape(o, d) {
      KingShapeInDirections(o, d);
    }
  }

  /**
    A king may move to a neighbouring square that holds no piece of its own
    colour and that the attack masks do not refuse (bitboards.rs:475-535).
   */
  lemma KingMoveTargets(masks: seq<bv64>, attacks: seq<bv64>, o: nat, p: Piece, s: nat)
    requires |masks| == 12 && |attacks| == 2 && o < 64 && s < 64 && Occupant(masks, o) == Some(p) && p.group == King
    ensures Bit(PieceMoves(masks, attacks, o, p), s) <==>
      KingShape(o, s) && !KingRefused(Occupancy(masks), attacks, p.color, s) && !OccupiedByColor(masks, s, p.color)
  {
    var cs := KingCandidates(Occupancy(masks), attacks, o, p.color, KingDirections, 0, []);
    FilterMovesMembers(masks, o, p, cs, s);
    KingCandidatesExact(Occupancy(masks), attacks, o, p.color, s);
  }

  /** The king never moves onto a square the opponent's attack mask covers. */
  lemma KingAvoidsAttacks(masks: seq<bv64>, attacks: seq<bv64>, o: nat, p: Piece, s: nat)
    requires |masks| == 12 && |attacks| == 2 && o < 64 && s < 64 && Occupant(masks, o) == Some(p) && p.group == King
    requires Bit(PieceMoves(masks, attacks, o, p), s)
    ensures !Bit(attacks[ColorToIndex(OppositeColor(p.color))], s)
  {
    KingMoveTargets(masks, attacks, o, p, s);
    if Occupant(masks, s).Some? {
      OccupiedByOccupantColor(masks, s);
    }
  }

  /** A king attacks exactly the neighbouring squares (bitboards.rs:675-711). */
  lemma KingAttackTargets(masks: seq<bv64>, o: nat, p: Piece, s: nat)
    requires |masks| == 12 && o < 64 && s < 64 && Occupant(masks, o) == Some(p) && p.group == King
    ensures Bit(PieceAttacks(masks, o, p), s) <==> KingShape(o, s)
  {
    FilterAttacksMembers(masks, o, p, KingSteps(o, KingDirections, 0, []), s);
    forall x | IsDirection(x)
      ensures x in KingDirections
    {
      KingDirectionsCover(x);
    }
    KingStepsExact(o, KingDirections, s);
  }

  /* ---------------- Pawns ---------------- */

  lemma WhitePawnCandidatesMembers(masks: seq<bv64>, o: nat, s: nat)
    requires |masks| == 12 && o <= 54
    ensures s in WhitePawnCandidates(masks, o, White) <==>
      (s == o + 8 && Occupant(masks, o + 8).None?) ||
      (8 <= o <= 15 && s == o + 16 && Occupant(masks, o + 16).None?) ||
      ((s == o + 7 || s == o + 9) && OccupiedByColor(masks, s, Black))
  {
  }

  lemma BlackPawnCandidatesMembers(masks: seq<bv64>, o: nat, s: nat)
    requires |masks| == 12 && o < 64
    ensures s in BlackPawnCandidates(masks, o, Black) <==>
      (o >= 8 && s == o - 8 && Occupant(masks, o - 8).None?) ||
      (48 <= o <= 55 && s == o - 16 && Occupant(masks, o - 16).None?) ||
      ((s + 7 == o || s + 9 == o) && OccupiedByColor(masks, s, White))
  {
  }

  /**
    A white pawn on o may push to an empty o + 8, from the second rank also to
    an empty o + 16, and capture on o + 7 or o + 9 when black stands there;
    no target may hold white (bitboards.rs:270-301).
   */
  lemma WhitePawnMoveTargets(masks: seq<bv64>, attacks: seq<bv64>, o: nat, s: nat)
    requires |masks| == 12 && |attacks| == 2 && o <= 54 && s < 64 && Occupant(masks, o) == Some(Piece(Pawn, White))
    ensures Bit(PieceMoves(masks, attacks, o, Piece(Pawn, White)), s) <==>
      ((s == o + 8 && Occupant(masks, o + 8).None?) ||
       (8 <= o <= 15 && s == o + 16 && Occupant(masks, o + 16).None?) ||
       ((s == o + 7 || s == o + 9) && OccupiedByColor(masks, s, Black))) &&
      !OccupiedByColor(masks, s, White)
  {
    WhitePawnCandidatesMembers(masks, o, s);
    FilterMovesMembers(masks, o, Piece(Pawn, White), WhitePawnCandidates(masks, o, White), s);
  }

  /**
    A black pawn on o may push to an empty o - 8, from the seventh rank also to
    an empty o - 16, and capture on o - 7 or o - 9 when white stands there,
    each only where the subtraction stays at or above zero; no target may hold
    black (bitboards.rs:303-346).
   */
  lemma BlackPawnMoveTargets(masks: seq<bv64>, attacks: seq<bv64>, o: nat, s: nat)
    requires |masks| == 12 && |attacks| == 2 && o < 64 && s < 64 && Occupant(masks, o) == Some(Piece(Pawn, Black))
    ensures Bit(PieceMoves(masks, attacks, o, Piece(Pawn, Black)), s) <==>
      ((o >= 8 && s == o - 8 && Occupant(masks, o - 8).None?) ||
       (48 <= o <= 55 && s == o - 16 && Occupant(masks, o - 16).None?) ||
       ((s + 7 == o || s + 9 == o) && OccupiedByColor(masks, s, White))) &&
      !OccupiedByColor(masks, s, Black)
  {
    BlackPawnCandidatesMembers(masks, o, s);
    FilterMovesMembers(masks, o, Piece(Pawn, Black), BlackPawnCandidates(masks, o, Black), s);
  }

  /** The double step tests only its target square: a pawn jumps a blocker on the square in between. */
  lemma WhitePawnJumpsBlocker(masks: seq<bv64>, attacks: seq<bv64>, o: nat)
    requires |masks| == 12 && |attacks| == 2 && 8 <= o <= 15 && Occupant(masks, o) == Some(Piece(Pawn, White))
    requires Occupant(masks, o + 8).Some? && Occupant(masks, o + 16).None?
    ensures Bit(PieceMoves(masks, attacks, o, Piece(Pawn, White)), o + 16)
  {
    WhitePawnMoveTargets(masks, attacks, o, o + 16);
    EmptyNotOccupied(masks, o + 16, White);
  }

  /** Captures have no file test: a white pawn on the h-file captures on the a-file one rank up. */
  lemma WhitePawnCaptureWraps(masks: seq<bv64>, attacks: seq<bv64>)
    requires |masks| == 12 && |attacks| == 2 && Occupant(masks, 15) == Some(Piece(Pawn, White))
    requires Occupant(masks, 24).Some? && Occupant(masks, 24).value.color == Black && Disjoint(masks)
    ensures Bit(PieceMoves(masks, attacks, 15, Piece(Pawn, White)), 24) && FileDiff(15, 24) == 7
  {
    WhitePawnMoveTargets(masks, attacks, 15, 24);
    OccupiedByColorOfDisjoint(masks, 24, Black);
    OccupiedByColorOfDisjoint(masks, 24, White);
  }

  /** A white pawn attacks o + 7 and o + 9 whenever they are squares of the board (bitboards.rs:546-560). */
  lemma WhitePawnAttackTargets(masks: seq<bv64>, o: nat, s: nat)
    requires |masks| == 12 && o < 64 && s < 64 && Occupant(masks, o) == Some(Piece(Pawn, White))
    ensures Bit(PieceAttacks(masks, o, Piece(Pawn, White)), s) <==> s == o + 7 || s == o + 9
  {
    FilterAttacksMembers(masks, o, Piece(Pawn, White), [o + 7, o + 9], s);
  }

  /** A black pawn attacks o - 7 and o - 9 where they do not underflow (bitboards.rs:562-581). */
  lemma BlackPawnAttackTargets(masks: seq<bv64>, o: nat, s: nat)
    requires |masks| == 12 && o < 64 && s < 64 && Occupant(masks, o) == Some(Piece(Pawn, Black))
    ensures Bit(PieceAttacks(masks, o, Piece(Pawn, Black)), s) <==> s + 7 == o || s + 9 == o
  {
    FilterAttacksMembers(masks, o, Piece(Pawn, Black), BlackPawnTargets(o), s);
  }

  /* ---------------- Whole-board masks ---------------- */

  /**
    `get_legal_moves(o)` is 0 on an empty square, and for a piece it never
    sets a square holding a piece of the mover's colour (bitboards.rs:227-250, 348-369).
   */
  lemma LegalMovesAvoidOwn(masks: seq<bv64>, attacks: seq<bv64>, o: nat, s: nat)
    requires |masks| == 12 && |attacks| == 2 && o < 64 && s < 64
    requires Occupant(masks, o).Some? ==> ProbesOnBoard(o, Occupant(masks, o).value)
    ensures Occupant(masks, o).None? ==> LegalMovesMask(masks, attacks, o) == 0
    ensures Bit(LegalMovesMask(masks, attacks, o), s) ==>
      Occupant(masks, o).Some? && !OccupiedByColor(masks, s, Occupant(masks, o).value.color) &&
      (Occupant(masks, s).None? || Occupant(masks, s).value.color != Occupant(masks, o).value.color)
  {
    match Occupant(masks, o)
    case None =>
      BitZero(s);
    case Some(p) =>
      FilterMovesMembers(masks, o, p, MoveCandidates(masks, attacks, o, p), s);
      if Occupant(masks, s).Some? {
        OccupiedByOccupantColor(masks, s);
      }
  }

  /** Square o holds a piece of colour c whose attack mask covers s. */
  predicate AttacksFromSquare(masks: seq<bv64>, o: nat, c: Color, s: nat)
    requires |masks| == 12 && o < 64 && s < 64
  {
    match Occupant(masks, o)
    case None => false
    case Some(q) => q.color == c && Bit(PieceAttacks(masks, o, q), s)
  }

  /** Square m's contribution to colour c's mask: nothing when m does not hold a piece of colour c. */
  lemma ColorAttacksStepOther(masks: seq<bv64>, c: Color, n: nat, s: nat)
    requires |masks| == 12 && 0 < n <= 64 && s < 64
    requires Occupant(masks, n - 1).None? || Occupant(masks, n - 1).value.color != c
    ensures ColorAttacksUpTo(masks, c, n) == ColorAttacksUpTo(masks, c, n - 1)
    ensures !AttacksFromSquare(masks, n - 1, c, s)
  {
  }

  /** Square m's contribution to colour c's mask when m holds a piece p of colour c. */
  lemma ColorAttacksStepOwn(masks: seq<bv64>, c: Color, n: nat, p: Piece)
    requires |masks| == 12 && 0 < n <= 64 && Occupant(masks, n - 1) == Some(p) && p.color == c
    ensures ColorAttacksUpTo(masks, c, n) == ColorAttacksUpTo(masks, c, n - 1) | PieceAttacks(masks, n - 1, p)
  {
  }

  lemma AttacksFromPiece(masks: seq<bv64>, m: nat, p: Piece, c: Color, s: nat)
    requires |masks| == 12 && m < 64 && s < 64 && Occupant(masks, m) == Some(p)
    ensures AttacksFromSquare(masks, m, c, s) == (p.color == c && Bit(PieceAttacks(masks, m, p), s))
  {
  }

  /** Or-ing a piece's attack mask into a colour's mask sets s exactly when one of them has s. */
  lemma OrIntoMask(before: bv64, after: bv64, x: bv64, s: nat)
    requires s < 64 && after == before | x
    ensures Bit(after, s) <==> Bit(before, s) || Bit(x, s)
  {
    BitOr(before, x, s);
  }

  /** Equal masks have equal bits. */
  lemma SameMask(before: bv64, after: bv64, s: nat)
    requires s < 64 && after == before
    ensures Bit(after, s) <==> Bit(before, s)
  {
  }

  /** One of the first n flags is set. */
  predicate AnyBelow(flags: seq<bool>, n: nat)
    requires n <= |flags|
  {
    n > 0 && (AnyBelow(flags, n - 1) || flags[n - 1])
  }

  lemma {:induction false} AnyBelowExists(flags: seq<bool>, n: nat)
    requires n <= |flags|
    ensures AnyBelow(flags, n) <==> exists o | 0 <= o < n :: flags[o]
  {
    if n > 0 {
      AnyBelowExists(flags, n - 1);
    }
  }

  /** For each square, whether it holds a piece of colour c attacking s. */
  function AttackFlags(masks: seq<bv64>, c: Color, s: nat): (flags: seq<bool>)
    requires |masks| == 12 && s < 64
    ensures |flags| == 64
  {
    seq(64, o requires 0 <= o < 64 => AttacksFromSquare(masks, o, c, s))
  }

  /** Some square below n holds a piece of colour c attacking s. */
  predicate AttackedBelow(masks: seq<bv64>, n: nat, c: Color, s: nat)
    requires |masks| == 12 && n <= 64 && s < 64
  {
    AnyBelow(AttackFlags(masks, c, s), n)
  }

  /** Visiting square n - 1 sets s in colour c's mask exactly when that square attacks s for c. */
  lemma ColorAttacksStepBits(masks: seq<bv64>, c: Color, n: nat, s: nat)
    requires |masks| == 12 && 0 < n <= 64 && s < 64
    ensures Bit(ColorAttacksUpTo(masks, c, n), s) <==>
      Bit(ColorAttacksUpTo(masks, c, n - 1), s) || AttacksFromSquare(masks, n - 1, c, s)
  {
    var occ := Occupant(masks, n - 1);
    if occ.Some? && occ.value.color == c {
      ColorAttacksStepBitsOwn(masks, c, n, occ.value, s);
    } else {
      ColorAttacksStepOther(masks, c, n, s);
      SameMask(ColorAttacksUpTo(masks, c, n - 1), ColorAttacksUpTo(masks, c, n), s);
    }
  }

  lemma ColorAttacksStepBitsOwn(masks: seq<bv64>, c: Color, n: nat, p: Piece, s: nat)
    requires |masks| == 12 && 0 < n <= 64 && s < 64 && Occupant(masks, n - 1) == Some(p) && p.color == c
    ensures Bit(ColorAttacksUpTo(masks, c, n), s) <==>
      Bit(ColorAttacksUpTo(masks, c, n - 1), s) || AttacksFromSquare(masks, n - 1, c, s)
  {
    ColorAttacksStepOwn(masks, c, n, p);
    OrIntoMask(ColorAttacksUpTo(masks, c, n - 1), ColorAttacksUpTo(masks, c, n), PieceAttacks(masks, n - 1, p), s);
    AttacksFromPiece(masks, n - 1, p, c, s);
  }

  lemma {:induction false} ColorAttacksUpToMembers(masks: seq<bv64>, c: Color, n: nat, s: nat)
    requires |masks| == 12 && n <= 64 && s < 64
    ensures Bit(ColorAttacksUpTo(masks, c, n), s) <==> AttackedBelow(masks, n, c, s)
  {
    if n == 0 {
      BitZero(s);
    } else {
      ColorAttacksUpToMembers(masks, c, n - 1, s);
      ColorAttacksStepBits(masks, c, n, s);
    }
  }

  /**
    `get_all_attacks` sets square s in colour c's mask exactly when some piece
    of colour c attacks s (bitboards.rs:41-55).
   */
  lemma AllAttacksMembers(masks: seq<bv64>, c: Color, s: nat)
    requires |masks| == 12 && s < 64
    ensures Bit(AllAttacks(masks)[ColorToIndex(c)], s) <==> exists o | 0 <= o < 64 :: AttacksFromSquare(masks, o, c, s)
  {
    var flags := AttackFlags(masks, c, s);
    ColorAttacksUpToMembers(masks, c, 64, s);
    SameMask(ColorAttacksUpTo(masks, c, 64), AllAttacks(masks)[ColorToIndex(c)], s);
    AnyBelowExists(flags, 64);
    assert forall o | 0 <= o < 64 :: flags[o] == AttacksFromSquare(masks, o, c, s);
  }

  /**
    With the attack masks that `get_all_legal_moves` computes first, a king
    never moves onto a square that an enemy piece attacks.
   */
  lemma KingAvoidsAttackedSquares(masks: seq<bv64>, o: nat, p: Piece, s: nat, e: nat)
    requires |masks| == 12 && o < 64 && s < 64 && e < 64 && Occupant(masks, o) == Some(p) && p.group == King
    requires Bit(PieceMoves(masks, AllAttacks(masks), o, p), s)
    ensures !AttacksFromSquare(masks, e, OppositeColor(p.color), s)
  {
    KingAvoidsAttacks(masks, AllAttacks(masks), o, p, s);
    AllAttacksMembers(masks, OppositeColor(p.color), s);
  }

  /* ---------------- Moving a piece ---------------- */

  /**
    With disjoint masks, `move_piece` accepts a move exactly when the origin
    holds a piece and the destination is a square that is empty or holds the
    opponent's colour (bitboards.rs:58-72, 747-767).
   */
  lemma MoveAcceptedMeans(masks: seq<bv64>, o: nat, d: nat)
    requires |masks| == 12 && o < 64 && Disjoint(masks)
    ensures MoveAccepted(masks, o, d) <==>
      Occupant(masks, o).Some? && d < 64 &&
      (Occupant(masks, d).None? || Occupant(masks, d).value.color != Occupant(masks, o).value.color)
  {
    if Occupant(masks, o).Some? {
      OccupantLowest(masks, o, Occupant(masks, o).value);
      if d < 64 {
        OccupiedByColorOfDisjoint(masks, d, Occupant(masks, o).value.color);
      }
    }
  }

  /** The captured piece, when there is one, is never the mover's own kind. */
  lemma CapturedIsOpponent(masks: seq<bv64>, o: nat, d: nat)
    requires |masks| == 12 && o < 64 && d < 64 && MoveAccepted(masks, o, d)
    ensures var p := Occupant(masks, o).value;
      Captured(masks, d, p.color).Some? ==>
        Captured(masks, d, p.color).value.color == OppositeColor(p.color) &&
        Bit(masks[ToIndex(Captured(masks, d, p.color).value)], d)
  {
    var p := Occupant(masks, o).value;
    if Captured(masks, d, p.color).Some? {
      var c := Captured(masks, d, p.color).value;
      OccupiedByOccupantColor(masks, d);
      OccupantLowest(masks, d, c);
      if c.color != OppositeColor(p.color) {
        OppositeColorInvolution(p.color);
      }
    }
  }

  /** Clearing the captured square removes d from the captured piece's mask and nothing else from it. */
  lemma ClearCapturedBits(masks: seq<bv64>, d: nat, color: Color, c: Piece, s: nat)
    requires |masks| == 12 && d < 64 && s < 64 && Captured(masks, d, color) == Some(c)
    ensures Bit(ClearCaptured(masks, d, color)[ToIndex(c)], s) <==> Bit(masks[ToIndex(c)], s) && s != d
  {
    ClearCapturedEntry(masks, d, color, c);
    ClearedBit(masks[ToIndex(c)], ClearCaptured(masks, d, color)[ToIndex(c)], d, s);
  }

  lemma ClearCapturedEntry(masks: seq<bv64>, d: nat, color: Color, c: Piece)
    requires |masks| == 12 && d < 64 && Captured(masks, d, color) == Some(c)
    ensures ClearCaptured(masks, d, color)[ToIndex(c)] == masks[ToIndex(c)] & !ConvertToBit(d)
  {
  }

  lemma ClearedBit(before: bv64, after: bv64, d: nat, s: nat)
    requires d < 64 && s < 64 && after == before & !ConvertToBit(d)
    ensures Bit(after, s) <==> Bit(before, s) && s != d
  {
    BitClear(before, d, s);
  }

  /** Clearing the captured square leaves every other mask as it was. */
  lemma ClearCapturedOthers(masks: seq<bv64>, d: nat, color: Color, i: nat)
    requires |masks| == 12 && d < 64 && i < 12
    requires var cap := Captured(masks, d, color); cap.None? || i != ToIndex(cap.value)
    ensures ClearCaptured(masks, d, color)[i] == masks[i]
  {
  }

  /** An accepted move clears the origin and sets the destination in the mover's mask (bitboards.rs:84-85). */
  lemma AfterMoveMover(masks: seq<bv64>, o: nat, d: nat, s: nat)
    requires |masks| == 12 && o < 64 && d < 64 && s < 64 && MoveAccepted(masks, o, d)
    ensures var p := Occupant(masks, o).value;
      Bit(AfterMove(masks, o, d, p)[ToIndex(p)], s) <==> (Bit(masks[ToIndex(p)], s) && s != o) || s == d
  {
    ClearedKeepsMover(masks, o, d);
    MoverBits(masks, o, d, Occupant(masks, o).value, s);
  }

  lemma MoverBits(masks: seq<bv64>, o: nat, d: nat, p: Piece, s: nat)
    requires |masks| == 12 && o < 64 && d < 64 && s < 64
    requires ClearCaptured(masks, d, p.color)[ToIndex(p)] == masks[ToIndex(p)]
    ensures Bit(AfterMove(masks, o, d, p)[ToIndex(p)], s) <==> (Bit(masks[ToIndex(p)], s) && s != o) || s == d
  {
    var m := masks[ToIndex(p)];
    assert AfterMove(masks, o, d, p)[ToIndex(p)] == (m & !ConvertToBit(o)) | ConvertToBit(d);
    BitMove(m, o, d, s);
  }

  lemma ClearedKeepsMover(masks: seq<bv64>, o: nat, d: nat)
    requires |masks| == 12 && o < 64 && d < 64 && MoveAccepted(masks, o, d)
    ensures var p := Occupant(masks, o).value; ClearCaptured(masks, d, p.color)[ToIndex(p)] == masks[ToIndex(p)]
  {
    var p := Occupant(masks, o).value;
    var cap := Captured(masks, d, p.color);
    CapturedIsOpponent(masks, o, d);
    if cap.Some? {
      ToIndexInColorBlock(p);
      ToIndexInColorBlock(cap.value);
    }
  }

  /** An accepted capture clears the destination in the captured piece's mask, a mask other than the mover's (bitboards.rs:73-82). */
  lemma AfterMoveCaptured(masks: seq<bv64>, o: nat, d: nat, s: nat)
    requires |masks| == 12 && o < 64 && d < 64 && s < 64 && MoveAccepted(masks, o, d)
    requires Captured(masks, d, Occupant(masks, o).value.color).Some?
    ensures var p := Occupant(masks, o).value; var c := Captured(masks, d, p.color).value;
      ToIndex(c) != ToIndex(p) &&
      (Bit(AfterMove(masks, o, d, p)[ToIndex(c)], s) <==> Bit(masks[ToIndex(c)], s) && s != d)
  {
    var p := Occupant(masks, o).value;
    var c := Captured(masks, d, p.color).value;
    CapturedIsOpponent(masks, o, d);
    ClearCapturedBits(masks, d, p.color, c, s);
    ToIndexInColorBlock(p);
    ToIndexInColorBlock(c);
  }

  /** An accepted move leaves every mask but the mover's and the captured piece's as it was. */
  lemma AfterMoveOthers(masks: seq<bv64>, o: nat, d: nat, i: nat)
    requires |masks| == 12 && o < 64 && d < 64 && i < 12 && MoveAccepted(masks, o, d)
    requires i != ToIndex(Occupant(masks, o).value)
    requires var cap := Captured(masks, d, Occupant(masks, o).value.color); cap.None? || i != ToIndex(cap.value)
    ensures AfterMove(masks, o, d, Occupant(masks, o).value)[i] == masks[i]
  {
    ClearCapturedOthers(masks, d, Occupant(masks, o).value.color, i);
  }

  lemma DisjointAt(masks: seq<bv64>, i: nat, j: nat, s: nat)
    requires |masks| == 12 && i < 12 && j < 12 && i != j && s < 64 && Disjoint(masks) && Bit(masks[j], s)
    ensures !Bit(masks[i], s)
  {
  }

  /** A square occupied by neither colour is in no mask. */
  lemma InNoMask(masks: seq<bv64>, s: nat, i: nat)
    requires |masks| == 12 && s < 64 && i < 12
    requires !OccupiedByColor(masks, s, White) && !OccupiedByColor(masks, s, Black)
    ensures !Bit(masks[i], s)
  {
    assert ColorBase(White) == 0 && ColorBase(Black) == 6;
  }

  /** An accepted move leaves its origin different from its destination. */
  lemma MoveLeavesOrigin(masks: seq<bv64>, o: nat, d: nat, p: Piece)
    requires |masks| == 12 && o < 64 && MoveAccepted(masks, o, d) && Occupant(masks, o) == Some(p)
    ensures d != o && Bit(masks[ToIndex(p)], o)
  {
    OccupiedByOccupantColor(masks, o);
    OccupantLowest(masks, o, p);
  }

  /** Before the move, only the mover's mask holds o and only the captured piece's mask can hold d. */
  lemma MoveSquaresBefore(masks: seq<bv64>, o: nat, d: nat, p: Piece, i: nat)
    requires |masks| == 12 && o < 64 && d < 64 && i < 12 && Disjoint(masks)
    requires MoveAccepted(masks, o, d) && Occupant(masks, o) == Some(p)
    ensures i != ToIndex(p) ==> !Bit(masks[i], o)
    ensures var cap := Captured(masks, d, p.color); (cap.None? || i != ToIndex(cap.value)) ==> !Bit(masks[i], d)
  {
    MoveLeavesOrigin(masks, o, d, p);
    if i != ToIndex(p) {
      DisjointAt(masks, i, ToIndex(p), o);
    }
    CapturedIsOpponent(masks, o, d);
    match Captured(masks, d, p.color)
    case Some(c) =>
      if i != ToIndex(c) {
        DisjointAt(masks, i, ToIndex(c), d);
      }
    case None =>
      if OccupiedByColor(masks, d, OppositeColor(p.color)) {
        EmptyNotOccupied(masks, d, OppositeColor(p.color));
      } else {
        InNoMask(masks, d, i);
      }
  }

  /**
    With disjoint masks, after an accepted move square s is in mask i exactly
    when s is the destination and i the mover's mask, or s is any other square
    but the origin and was in mask i before.
   */
  lemma MoveBitsOfDisjoint(masks: seq<bv64>, o: nat, d: nat, p: Piece, i: nat, s: nat)
    requires |masks| == 12 && o < 64 && d < 64 && i < 12 && s < 64 && Disjoint(masks)
    requires MoveAccepted(masks, o, d) && Occupant(masks, o) == Some(p)
    ensures Bit(AfterMove(masks, o, d, p)[i], s) <==> (s == d && i == ToIndex(p)) || (s != d && s != o && Bit(masks[i], s))
  {
    MoveLeavesOrigin(masks, o, d, p);
    MoveSquaresBefore(masks, o, d, p, i);
    var cap := Captured(masks, d, p.color);
    if i == ToIndex(p) {
      AfterMoveMover(masks, o, d, s);
    } else if cap.Some? && i == ToIndex(cap.value) {
      AfterMoveCaptured(masks, o, d, s);
    } else {
      AfterMoveOthers(masks, o, d, i);
    }
  }

  /** An accepted move keeps the masks disjoint: every square still holds at most one piece. */
  lemma MovePreservesDisjoint(masks: seq<bv64>, o: nat, d: nat)
    requires |masks| == 12 && o < 64 && d < 64 && Disjoint(masks) && MoveAccepted(masks, o, d)
    ensures Disjoint(AfterMove(masks, o, d, Occupant(masks, o).value))
  {
    var p := Occupant(masks, o).value;
    var r := AfterMove(masks, o, d, p);
    forall s, i, j | 0 <= s < 64 && 0 <= i < j < 12
      ensures !(Bit(r[i], s) && Bit(r[j], s))
    {
      MoveBitsOfDisjoint(masks, o, d, p, i, s);
      MoveBitsOfDisjoint(masks, o, d, p, j, s);
    }
  }

  /**
    An accepted move does to the occupants what `move_piece` does to the
    array board: the destination gets the mover, the origin becomes empty,
    and every other square keeps its occupant (bitboards.rs:84-88).
   */
  lemma MoveKeepsMirror(masks: seq<bv64>, squares: seq<Option<Piece>>, o: nat, d: nat)
    requires |masks| == 12 && o < 64 && d < 64 && Disjoint(masks) && Mirrors(masks, squares) && MoveAccepted(masks, o, d)
    ensures Mirrors(AfterMove(masks, o, d, Occupant(masks, o).value), squares[d := Occupant(masks, o)][o := None])
  {
    var p := Occupant(masks, o).value;
    var r := AfterMove(masks, o, d, p);
    var after := squares[d := Some(p)][o := None];
    MovePreservesDisjoint(masks, o, d);
    MoveLeavesOrigin(masks, o, d, p);
    forall s | 0 <= s < 64
      ensures after[s] == Occupant(r, s)
    {
      MoveOccupant(masks, o, d, p, s);
    }
  }

  lemma MoveOccupant(masks: seq<bv64>, o: nat, d: nat, p: Piece, s: nat)
    requires |masks| == 12 && o < 64 && d < 64 && s < 64 && Disjoint(masks)
    requires MoveAccepted(masks, o, d) && Occupant(masks, o) == Some(p)
    ensures var r := AfterMove(masks, o, d, p);
      Occupant(r, s) == if s == d then Some(p) else if s == o then None else Occupant(masks, s)
  {
    var r := AfterMove(masks, o, d, p);
    MoveLeavesOrigin(masks, o, d, p);
    forall i | 0 <= i < 12
      ensures Bit(r[i], s) <==> (s == d && i == ToIndex(p)) || (s != d && s != o && Bit(masks[i], s))
    {
      MoveBitsOfDisjoint(masks, o, d, p, i, s);
    }
    if s == d {
      MovePreservesDisjoint(masks, o, d);
      OccupantOfDisjoint(r, s, p);
    } else if s == o {
      OccupantNone(r, s);
    } else {
      OccupantFromSameSquare(r, masks, s, 0);
    }
  }

  /* ---------------- The initial masks ---------------- */

  /** Each piece kind's mask holds exactly that kind's start squares. */
  ghost predicate HoldsStartSquares(masks: seq<bv64>)
    requires |masks| == 12
  {
    forall p: Piece, s: nat | s < 64 :: Bit(masks[ToIndex(p)], s) <==> s in StartSquares(p)
  }

  /**
    Masks that hold each kind's start squares are disjoint and read back as
    the opening layout, square by square.
   */
  lemma InitialMasksLayout(masks: seq<bv64>)
    requires |masks| == 12 && HoldsStartSquares(masks)
    ensures Disjoint(masks)
    ensures forall s | 0 <= s < 64 :: Occupant(masks, s) == StartingPiece(s)
  {
    forall s, i, j | 0 <= s < 64 && 0 <= i < j < 12
      ensures !(Bit(masks[i], s) && Bit(masks[j], s))
    {
      var a, b := FromIndex(i).value, FromIndex(j).value;
      StartingPieceSquares(s, a);
      StartingPieceSquares(s, b);
    }
    forall s | 0 <= s < 64
      ensures Occupant(masks, s) == StartingPiece(s)
    {
      match StartingPiece(s)
      case Some(q) =>
        StartingPieceSquares(s, q);
        OccupantOfDisjoint(masks, s, q);
      case None =>
        if Occupant(masks, s).Some? {
          var q := Occupant(masks, s).value;
          OccupantOfDisjoint(masks, s, q);
          StartingPieceSquares(s, q);
        }
    }
  }
}
