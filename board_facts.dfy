/**
  What the array engine's move lists mean (src/models/board.rs): the sliding
  pieces reach exactly the free squares of their rays, the knight exactly its
  L-shaped squares, the king exactly the neighbours it may enter, the pawn its
  pushes and captures; every listed destination is on the board and differs
  from the origin, and get_all_moves lists exactly one move list per square.
 */
module ArrayBoardFacts {
  import opened Options
  import opened Pieces
  import opened Geometry
  import opened ArrayBoard

  /* ---------------- One list per square ---------------- */

  lemma {:induction false} AllMovesFromShape(sq: seq<Option<Piece>>, turn: Color, color: Color, i: nat, acc: seq<seq<nat>>)
    requires |sq| == 64 && i <= 64
    ensures |AllMovesFrom(sq, turn, color, i, acc)| == |acc| + 64 - i
    ensures forall j | 0 <= j < |acc| :: AllMovesFrom(sq, turn, color, i, acc)[j] == acc[j]
    ensures forall j | i <= j < 64 :: AllMovesFrom(sq, turn, color, i, acc)[|acc| + j - i] == LegalMoves(sq, turn, j, color)
    decreases 64 - i
  {
    if i < 64 {
      var next := acc + [LegalMoves(sq, turn, i, color)];
      AllMovesFromShape(sq, turn, color, i + 1, next);
      assert next[|acc|] == LegalMoves(sq, turn, i, color);
    }
  }

  /** get_all_moves (helpers.rs:7-21) returns 64 lists, list j being the moves of square j. */
  lemma AllMovesEntries(sq: seq<Option<Piece>>, turn: Color, color: Color)
    requires |sq| == 64
    ensures |AllMovesFrom(sq, turn, color, 0, [])| == 64
    ensures forall j | 0 <= j < 64 :: AllMovesFrom(sq, turn, color, 0, [])[j] == LegalMoves(sq, turn, j, color)
  {
    AllMovesFromShape(sq, turn, color, 0, []);
  }

  /** Some piece of colour color on the board sq has d among its moves. */
  predicate SomeMoveReaches(sq: seq<Option<Piece>>, turn: Color, color: Color, d: nat)
    requires |sq| == 64
  {
    exists a | 0 <= a < 64 :: d in LegalMoves(sq, turn, a, color)
  }

  /** A square is defended exactly when some piece of the opponent can move to it once it is emptied. */
  lemma DefendedMeans(sq: seq<Option<Piece>>, turn: Color, d: nat)
    requires |sq| == 64 && d < 64 && sq[d].Some?
    ensures Defended(sq, turn, d) <==> SomeMoveReaches(sq[d := None], turn, OppositeColor(turn), d)
  {
    var emptied := sq[d := None];
    var all := AllMovesFrom(emptied, turn, OppositeColor(turn), 0, []);
    CountRemove(sq, d, 64);
    AllMovesEntries(emptied, turn, OppositeColor(turn));
    assert Defended(sq, turn, d) == Reaches(all, d);
    if Reaches(all, d) {
      var a :| 0 <= a < |all| && d in all[a];
      assert d in LegalMoves(emptied, turn, a, OppositeColor(turn));
    }
    if SomeMoveReaches(emptied, turn, OppositeColor(turn), d) {
      var a :| 0 <= a < 64 && d in LegalMoves(emptied, turn, a, OppositeColor(turn));
      assert d in all[a];
    }
  }

  /* ---------------- Sliding pieces ---------------- */

  /** The direction list each sliding group walks. */
  function SlidingDirections(group: Group): seq<int>
  {
    match group
    case Rook => RookDeltas
    case Bishop => BishopDeltas
    case Queen => QueenDeltas
    case _ => []
  }

  lemma SlidingDirectionsAreDirections(group: Group)
    ensures AllDirections(SlidingDirections(group))
  {
  }

  /**
    A rook, bishop or queen of colour color on pos reaches d exactly when d is
    on one of its rays, every square before d is empty, and d does not hold a
    piece of its own colour.
   */
  lemma LegalSlidingMoves(sq: seq<Option<Piece>>, turn: Color, pos: nat, color: Color, d: int)
    requires |sq| == 64 && pos < 64
    requires sq[pos].Some? && sq[pos].value.color == color
    requires sq[pos].value.group in {Rook, Bishop, Queen}
    ensures d in LegalMoves(sq, turn, pos, color) <==>
      exists j | 0 <= j < |SlidingDirections(sq[pos].value.group)| ::
        SlideTarget(sq, pos, color, SlidingDirections(sq[pos].value.group)[j], d)
  {
    var dirs := SlidingDirections(sq[pos].value.group);
    SlidingDirectionsAreDirections(sq[pos].value.group);
    SlidingMovesExact(sq, pos, color, dirs, 0, [], d);
    SlideTargetFromExists(sq, pos, color, dirs, 0, d);
  }

  /* ---------------- Knights ---------------- */

  lemma {:induction false} KnightMovesMembers(sq: seq<Option<Piece>>, idx: nat, color: Color, deltas: seq<int>, i: nat, acc: seq<nat>, d: int)
    requires |sq| == 64 && i <= |deltas|
    ensures d in KnightMoves(sq, idx, color, deltas, i, acc) <==>
      d in acc ||
      (OnBoard(d) && KnightShape(idx, d) && !OwnAt(sq, d, color) && exists j | i <= j < |deltas| :: deltas[j] == d - idx)
    decreases |deltas| - i
  {
    if i < |deltas| {
      var e := idx + deltas[i];
      KnightMovesMembers(sq, idx, color, deltas, i + 1, KnightStep(sq, idx, color, e, acc), d);
    }
  }

  /** A knight reaches exactly the on-board L-shaped squares not held by its own colour. */
  lemma LegalKnightMoves(sq: seq<Option<Piece>>, turn: Color, pos: nat, color: Color, d: int)
    requires |sq| == 64 && pos < 64
    requires sq[pos] == Some(Piece(Knight, color))
    ensures d in LegalMoves(sq, turn, pos, color) <==> OnBoard(d) && KnightShape(pos, d) && !OwnAt(sq, d, color)
  {
    KnightMovesMembers(sq, pos, color, KnightDeltas, 0, [], d);
    if OnBoard(d) && KnightShape(pos, d) {
      KnightShapeOffset(pos, d);
      var j :| 0 <= j < |KnightDeltas| && KnightDeltas[j] == d - pos;
    }
  }

  /* ---------------- Kings ---------------- */

  lemma {:induction false} KingMovesMembers(sq: seq<Option<Piece>>, turn: Color, start: nat, color: Color, deltas: seq<int>, i: nat, acc: seq<nat>, d: int)
    requires |sq| == 64 && start < 64 && i <= |deltas|
    ensures d in KingMovesFrom(sq, turn, start, color, deltas, i, acc) <==>
      d in acc ||
      (OnBoard(d) && KingShape(start, d) && KingMayEnter(sq, turn, color, d) && exists j | i <= j < |deltas| :: deltas[j] == d - start)
    decreases |deltas| - i
  {
    if i < |deltas| {
      var next := KingStep(sq, turn, start, color, start + deltas[i], acc);
      KingMovesUnfold(sq, turn, start, color, deltas, i, acc);
      KingMovesMembers(sq, turn, start, color, deltas, i + 1, next, d);
    }
  }

  lemma KingDeltasCoverDirections(x: int)
    requires IsDirection(x)
    ensures exists j | 0 <= j < |KingDeltas| :: KingDeltas[j] == x
  {
    if x == 1 { assert KingDeltas[0] == x; }
    else if x == -1 { assert KingDeltas[1] == x; }
    else if x == 8 { assert KingDeltas[2] == x; }
    else if x == -8 { assert KingDeltas[3] == x; }
    else if x == 7 { assert KingDeltas[4] == x; }
    else if x == -7 { assert KingDeltas[5] == x; }
    else if x == 9 { assert KingDeltas[6] == x; }
    else { assert KingDeltas[7] == x; }
  }

  /**
    A king reaches exactly the neighbouring squares that are empty or hold an
    enemy piece no opponent move could reach once that piece is gone.
   */
  lemma LegalKingMoves(sq: seq<Option<Piece>>, turn: Color, pos: nat, color: Color, d: int)
    requires |sq| == 64 && pos < 64
    requires sq[pos] == Some(Piece(King, color))
    ensures d in LegalMoves(sq, turn, pos, color) <==>
      OnBoard(d) && KingShape(pos, d) && KingMayEnter(sq, turn, color, d)
  {
    KingMovesMembers(sq, turn, pos, color, KingDeltas, 0, [], d);
    if OnBoard(d) && KingShape(pos, d) {
      KingShapeOffset(pos, d);
      KingDeltasCoverDirections(d - pos);
    }
  }

  /* ---------------- Pawns ---------------- */

  /** The pawn rule of board.rs:65-135, square by square. */
  predicate PawnReaches(sq: seq<Option<Piece>>, idx: nat, color: Color, d: int)
    requires |sq| == 64 && idx < 64
  {
    if color == White then
      (idx + 8 < 64 && sq[idx + 8].None? && (d == idx + 8 || (8 <= idx <= 15 && d == idx + 16))) ||
      ((d == idx + 7 || d == idx + 9) && d < 64 && EnemyAt(sq, d, White))
    else
      (idx >= 8 && sq[idx - 8].None? && (d == idx - 8 || (48 <= idx <= 55 && d == idx - 16))) ||
      (idx >= 9 && (d == idx - 7 || d == idx - 9) && EnemyAt(sq, d, Black))
  }

  lemma LegalPawnMoves(sq: seq<Option<Piece>>, turn: Color, pos: nat, color: Color, d: int)
    requires |sq| == 64 && pos < 64
    requires sq[pos] == Some(Piece(Pawn, color))
    ensures d in LegalMoves(sq, turn, pos, color) <==> PawnReaches(sq, pos, color, d)
  {
  }

  /**
    The double step is checked against the square in between only, so a pawn
    on its start rank lists the square two ahead even when a piece stands there.
   */
  lemma PawnDoubleStepOntoOccupied()
    ensures var sq := seq(64, s => if s == 8 || s == 24 then Some(Piece(Pawn, White)) else None);
      24 in LegalMoves(sq, White, 8, White) && OwnAt(sq, 24, White)
  {
    var sq := seq(64, s => if s == 8 || s == 24 then Some(Piece(Pawn, White)) else None);
    LegalPawnMoves(sq, White, 8, White, 24);
  }

  /**
    The capture test has no file guard, so a white pawn on H2 (15) captures on
    A4 (24), seven files away.
   */
  lemma PawnCaptureAcrossEdge()
    ensures var sq := seq(64, s => if s == 15 then Some(Piece(Pawn, White)) else if s == 24 then Some(Piece(Rook, Black)) else None);
      24 in LegalMoves(sq, White, 15, White) && FileDiff(15, 24) == 7
  {
    var sq := seq(64, s => if s == 15 then Some(Piece(Pawn, White)) else if s == 24 then Some(Piece(Rook, Black)) else None);
    LegalPawnMoves(sq, White, 15, White, 24);
  }

  /* ---------------- Every generator ---------------- */

  /** Only a piece of colour color has moves in LegalMoves(.., color). */
  lemma LegalMovesOwner(sq: seq<Option<Piece>>, turn: Color, pos: nat, color: Color, d: int)
    requires |sq| == 64 && pos < 64
    requires d in LegalMoves(sq, turn, pos, color)
    ensures sq[pos].Some? && sq[pos].value.color == color
  {
  }

  /** Every listed destination is a square of the board other than the origin. */
  lemma LegalMovesOnBoard(sq: seq<Option<Piece>>, turn: Color, pos: nat, color: Color, d: int)
    requires |sq| == 64 && pos < 64
    requires d in LegalMoves(sq, turn, pos, color)
    ensures 0 <= d < 64 && d != pos
  {
    var group := sq[pos].value.group;
    if group == Pawn {
      LegalPawnMoves(sq, turn, pos, color, d);
    } else {
      LegalMovesAvoidOwn(sq, turn, pos, color, d);
    }
  }

  /** Apart from the pawn's double step, no generator lists a square held by the mover's own colour. */
  lemma LegalMovesAvoidOwn(sq: seq<Option<Piece>>, turn: Color, pos: nat, color: Color, d: int)
    requires |sq| == 64 && pos < 64 && sq[pos].Some? && sq[pos].value.group != Pawn
    requires d in LegalMoves(sq, turn, pos, color)
    ensures 0 <= d < 64 && d != pos && !OwnAt(sq, d, color)
  {
    var group := sq[pos].value.group;
    if group == Knight {
      LegalKnightMoves(sq, turn, pos, color, d);
    } else if group == King {
      LegalKingMoves(sq, turn, pos, color, d);
    } else {
      SlidingAvoidOwn(sq, turn, pos, color, d);
    }
  }

  lemma SlidingAvoidOwn(sq: seq<Option<Piece>>, turn: Color, pos: nat, color: Color, d: int)
    requires |sq| == 64 && pos < 64 && sq[pos].Some? && sq[pos].value.group in {Rook, Bishop, Queen}
    requires d in LegalMoves(sq, turn, pos, color)
    ensures 0 <= d < 64 && d != pos && !OwnAt(sq, d, color)
  {
    var dirs := SlidingDirections(sq[pos].value.group);
    LegalMovesOwner(sq, turn, pos, color, d);
    SlidingDirectionsAreDirections(sq[pos].value.group);
    assert LegalMoves(sq, turn, pos, color) == SlidingMoves(sq, pos, color, dirs, 0, []);
    SlidingMovesExact(sq, pos, color, dirs, 0, [], d);
    SlideTargetFromBasics(sq, pos, color, dirs, 0, d);
  }

  /** A slide target along any of the directions is a board square other than the origin, free of the mover's colour. */
  lemma {:induction false} SlideTargetFromBasics(view: seq<Option<Piece>>, o: int, color: Color, dirs: seq<int>, i: nat, d: int)
    requires |view| == 64 && AllDirections(dirs) && i <= |dirs| && SlideTargetFrom(view, o, color, dirs, i, d)
    ensures 0 <= d < 64 && d != o && (view[d].None? || view[d].value.color != color)
    decreases |dirs| - i
  {
    if SlideTarget(view, o, color, dirs[i], d) {
      SlideTargetBasics(view, o, color, dirs[i], d);
    } else {
      SlideTargetFromBasics(view, o, color, dirs, i + 1, d);
    }
  }

  /** A move the engine accepts starts on a piece of the side to move and ends elsewhere on the board. */
  lemma ValidMoveMeans(sq: seq<Option<Piece>>, turn: Color, origin: nat, destination: nat)
    requires |sq| == 64 && origin < 64
    requires ValidMove(sq, turn, origin, destination)
    ensures sq[origin].Some? && sq[origin].value.color == turn
    ensures destination < 64 && destination != origin
  {
    LegalMovesOnBoard(sq, turn, origin, turn, destination);
  }
}
