/**
  The array engine: a board of 64 optional pieces plus the side to move, the
  per-piece move lists it generates, and the turn-checked move
  (src/models/board.rs), together with get_all_moves (src/chess/helpers.rs).

  The functions on values are the specification; the methods of Board and
  GetAllMoves compute them with the source's loops and are proved equal to
  them. The king's capture rule asks for every opponent move on a copy of the
  board with the captured piece removed, so KingMovesFrom, Defended,
  AllMovesFrom and LegalMoves are mutually recursive; every nested call sees
  one piece fewer, which is the termination measure.
 */
module ArrayBoard {
  import opened Options
  import opened Pieces
  import opened Geometry

  /** Direction orders of the sliding and king generators (board.rs:140, :238, :291, :347). */
  const RookDeltas: seq<int> := [1, -1, 8, -8]
  const BishopDeltas: seq<int> := [7, 9, -7, -9]
  const QueenDeltas: seq<int> := [1, 8, 7, 9, -1, -8, -7, -9]
  const KingDeltas: seq<int> := [1, -1, 8, -8, 7, -7, 9, -9]

  predicate OwnAt(sq: seq<Option<Piece>>, s: nat, color: Color)
    requires |sq| == 64 && s < 64
  {
    sq[s].Some? && sq[s].value.color == color
  }

  predicate EnemyAt(sq: seq<Option<Piece>>, s: nat, color: Color)
    requires |sq| == 64 && s < 64
  {
    sq[s].Some? && sq[s].value.color != color
  }

  /** Number of occupied squares of a board. */
  function Count(sq: seq<Option<Piece>>): nat
  {
    CountPieces(sq, |sq|)
  }

  /* ---------------- Pawns ---------------- */

  /** One square forward: idx + 8 for White, idx - 8 for Black when it does not underflow. */
  function OneForward(idx: nat, color: Color): Option<nat>
  {
    if color == White then Some(idx + 8) else if idx >= 8 then Some(idx - 8) else None
  }

  predicate OnStartRank(idx: nat, color: Color)
  {
    if color == White then 8 <= idx <= 15 else 48 <= idx <= 55
  }

  function TwoForward(idx: nat, color: Color): nat
    requires OnStartRank(idx, color)
  {
    if color == White then idx + 16 else idx - 16
  }

  /** Both forward diagonals, only when both indices are computable (no underflow). */
  function Diagonals(idx: nat, color: Color): Option<(nat, nat)>
  {
    if color == White then Some((idx + 7, idx + 9))
    else if idx >= 9 then Some((idx - 7, idx - 9))
    else None
  }

  /** The forward moves: one square if it is empty, and then two from the start rank. */
  function PawnPushes(sq: seq<Option<Piece>>, idx: nat, color: Color): seq<nat>
    requires |sq| == 64
  {
    match OneForward(idx, color)
    case Some(one) =>
      if one < 64 && sq[one].None? then
        [one] + if OnStartRank(idx, color) then [TwoForward(idx, color)] else []
      else []
    case None => []
  }

  /** A forward diagonal s is a capture when it is on the board and holds an enemy piece. */
  function CaptureAt(sq: seq<Option<Piece>>, s: nat, color: Color): seq<nat>
    requires |sq| == 64
  {
    if s < 64 && EnemyAt(sq, s, color) then [s] else []
  }

  /** The pushes, then the left and the right capture when both diagonals are computable. */
  function PawnMoves(sq: seq<Option<Piece>>, idx: nat, color: Color): seq<nat>
    requires |sq| == 64
  {
    match Diagonals(idx, color)
    case Some(pair) => PawnPushes(sq, idx, color) + CaptureAt(sq, pair.0, color) + CaptureAt(sq, pair.1, color)
    case None => PawnPushes(sq, idx, color)
  }

  /* ---------------- Knights ---------------- */

  /** acc, followed by d when d is on the board, L-shaped from idx and not held by colour color. */
  function KnightStep(sq: seq<Option<Piece>>, idx: nat, color: Color, d: int, acc: seq<nat>): seq<nat>
    requires |sq| == 64
  {
    if d < 0 || d > 63 || !KnightShape(idx, d) || OwnAt(sq, d, color) then acc else acc + [d as nat]
  }

  lemma KnightStepTaken(sq: seq<Option<Piece>>, idx: nat, color: Color, d: int, acc: seq<nat>, lands: bool)
    requires |sq| == 64 && lands == (0 <= d <= 63 && KnightShape(idx, d) && !OwnAt(sq, d, color))
    ensures KnightStep(sq, idx, color, d, acc) == if lands then acc + [d as nat] else acc
  {
  }

  /** acc followed by the knight destinations for deltas[i..], in order. */
  function KnightMoves(sq: seq<Option<Piece>>, idx: nat, color: Color, deltas: seq<int>, i: nat, acc: seq<nat>): seq<nat>
    requires |sq| == 64 && i <= |deltas|
    decreases |deltas| - i
  {
    if i == |deltas| then acc
    else KnightMoves(sq, idx, color, deltas, i + 1, KnightStep(sq, idx, color, idx + deltas[i], acc))
  }

  lemma KnightMovesUnfold(sq: seq<Option<Piece>>, idx: nat, color: Color, deltas: seq<int>, i: nat, acc: seq<nat>)
    requires |sq| == 64 && i < |deltas|
    ensures KnightMoves(sq, idx, color, deltas, i, acc) ==
      KnightMoves(sq, idx, color, deltas, i + 1, KnightStep(sq, idx, color, idx + deltas[i], acc))
  {
  }

  /* ---------------- Kings and the mutual recursion ---------------- */

  /** Some list of all contains d. */
  predicate Reaches(all: seq<seq<nat>>, d: nat)
  {
    exists a | 0 <= a < |all| :: d in all[a]
  }

  /**
    acc followed by the king destinations for deltas[i..], in order: empty
    neighbours, and enemy neighbours that are not Defended.
   */
  function KingMovesFrom(sq: seq<Option<Piece>>, turn: Color, start: nat, color: Color, deltas: seq<int>, i: nat, acc: seq<nat>): seq<nat>
    requires |sq| == 64 && start < 64 && i <= |deltas|
    decreases Count(sq), 0, |deltas| - i + 3
  {
    if i == |deltas| then acc
    else KingMovesFrom(sq, turn, start, color, deltas, i + 1, KingStep(sq, turn, start, color, start + deltas[i], acc))
  }

  /** An empty square, or an enemy whose capture is not Defended. */
  predicate KingMayEnter(sq: seq<Option<Piece>>, turn: Color, color: Color, d: nat)
    requires |sq| == 64 && d < 64
    decreases Count(sq), 0, 1
  {
    sq[d].None? || (sq[d].value.color != color && !Defended(sq, turn, d))
  }

  /** acc, extended by d when d is a king step the king may enter. */
  function KingStep(sq: seq<Option<Piece>>, turn: Color, start: nat, color: Color, d: int, acc: seq<nat>): seq<nat>
    requires |sq| == 64 && start < 64
    decreases Count(sq), 0, 2
  {
    if 0 <= d <= 63 && KingShape(start, d) && KingMayEnter(sq, turn, color, d as nat) then acc + [d as nat] else acc
  }

  /** One iteration of the king loop, given the outcome of its candidate test. */
  lemma KingMovesAdvance(sq: seq<Option<Piece>>, turn: Color, start: nat, color: Color, deltas: seq<int>, i: nat, acc: seq<nat>, enters: bool)
    requires |sq| == 64 && start < 64 && i < |deltas|
    requires enters == (0 <= start + deltas[i] <= 63 && KingShape(start, start + deltas[i]) && KingMayEnter(sq, turn, color, start + deltas[i]))
    ensures KingMovesFrom(sq, turn, start, color, deltas, i, acc) ==
      KingMovesFrom(sq, turn, start, color, deltas, i + 1, if enters then acc + [start + deltas[i]] else acc)
  {
    KingMovesUnfold(sq, turn, start, color, deltas, i, acc);
  }

  lemma KingMovesUnfold(sq: seq<Option<Piece>>, turn: Color, start: nat, color: Color, deltas: seq<int>, i: nat, acc: seq<nat>)
    requires |sq| == 64 && start < 64 && i < |deltas|
    ensures KingMovesFrom(sq, turn, start, color, deltas, i, acc) ==
      KingMovesFrom(sq, turn, start, color, deltas, i + 1, KingStep(sq, turn, start, color, start + deltas[i], acc))
  {
  }

  /**
    The occupied square d is defended: with its piece removed, some move of
    the colour opposite to the side to move reaches it (board.rs:391-412).
   */
  predicate Defended(sq: seq<Option<Piece>>, turn: Color, d: nat)
    requires |sq| == 64 && d < 64 && sq[d].Some?
    decreases Count(sq), 0, 0
  {
    CountRemove(sq, d, 64);
    Reaches(AllMovesFrom(sq[d := None], turn, OppositeColor(turn), 0, []), d)
  }

  /** acc followed by the move lists of squares i .. 63 for pieces of colour color. */
  function AllMovesFrom(sq: seq<Option<Piece>>, turn: Color, color: Color, i: nat, acc: seq<seq<nat>>): seq<seq<nat>>
    requires |sq| == 64 && i <= 64
    decreases Count(sq), 2, 64 - i
  {
    if i == 64 then acc else AllMovesFrom(sq, turn, color, i + 1, acc + [LegalMoves(sq, turn, i, color)])
  }

  /** The move list of the piece on pos, empty unless it has colour color. */
  function LegalMoves(sq: seq<Option<Piece>>, turn: Color, pos: nat, color: Color): (r: seq<nat>)
    requires |sq| == 64 && pos < 64
    ensures sq[pos].None? || sq[pos].value.color != color ==> r == []
    decreases Count(sq), 1, 0
  {
    match sq[pos]
    case None => []
    case Some(piece) =>
      if piece.color != color then []
      else match piece.group
        case Pawn => PawnMoves(sq, pos, color)
        case Rook => SlidingMoves(sq, pos, color, RookDeltas, 0, [])
        case Knight => KnightMoves(sq, pos, color, KnightDeltas, 0, [])
        case Bishop => SlidingMoves(sq, pos, color, BishopDeltas, 0, [])
        case Queen => SlidingMoves(sq, pos, color, QueenDeltas, 0, [])
        case King => KingMovesFrom(sq, turn, pos, color, KingDeltas, 0, [])
  }

  /** The side to move owns the piece on origin and destination is among its moves. */
  predicate ValidMove(sq: seq<Option<Piece>>, turn: Color, origin: nat, destination: nat)
    requires |sq| == 64 && origin < 64
  {
    sq[origin].Some? && sq[origin].value.color == turn && destination in LegalMoves(sq, turn, origin, turn)
  }

  /* ---------------- The generators' guards ---------------- */

  /** The knight's distance test (board.rs:199-207) is the shared L-shape guard. */
  lemma KnightGuard(start: int, current: int)
    ensures ((Abs(start % 8 - current % 8) == 1 && Abs(start / 8 - current / 8) == 2) ||
      (Abs(start % 8 - current % 8) == 2 && Abs(start / 8 - current / 8) == 1)) == KnightShape(start, current)
  {
  }

  /** The rook's horizontal test (board.rs:152-157) is the shared wrap guard for rook directions. */
  lemma RookGuard(start: int, current: int, delta: int)
    requires delta == 1 || delta == -1 || delta == 8 || delta == -8
    ensures ((delta == 1 && current % 8 <= start % 8) || (delta == -1 && current % 8 >= start % 8)) == Wraps(start, current, delta)
  {
  }

  /** The bishop's diagonal test (board.rs:250-259) is the shared wrap guard for diagonals. */
  lemma BishopGuard(start: int, current: int, delta: int)
    requires delta == 7 || delta == 9 || delta == -7 || delta == -9
    ensures !(Abs(start % 8 - current % 8) == Abs(start / 8 - current / 8)) == Wraps(start, current, delta)
  {
  }

  /** The queen's combined test (board.rs:303-315) is the shared wrap guard. */
  lemma QueenGuard(start: int, current: int, delta: int)
    ensures ((delta == 1 && current % 8 <= start % 8) || (delta == -1 && current % 8 >= start % 8) ||
      ((delta == 7 || delta == -7 || delta == 9 || delta == -9) && Abs(start % 8 - current % 8) != Abs(start / 8 - current / 8)))
      == Wraps(start, current, delta)
  {
  }

  /* ---------------- The board ---------------- */

  class Board {
    var squares: seq<Option<Piece>>
    var turnColor: Color

    predicate Valid()
      reads this
    {
      |squares| == 64
    }

    constructor Init(squares: seq<Option<Piece>>, turnColor: Color)
      requires |squares| == 64
      ensures Valid() && this.squares == squares && this.turnColor == turnColor
    {
      this.squares := squares;
      this.turnColor := turnColor;
    }

    method GetLegalMoves(pos: nat, color: Color) returns (moves: seq<nat>)
      requires Valid() && pos < 64
      ensures moves == LegalMoves(squares, turnColor, pos, color)
      decreases Count(squares), 1, 0
    {
      match squares[pos]
      case None =>
        moves := [];
      case Some(piece) =>
        if piece.color != color {
          moves := [];
        } else {
          match piece.group
          case Pawn => moves := GetPawnMoves(pos, color);
          case Rook => moves := GetRookMoves(pos, color);
          case Knight => moves := GetKnightMoves(pos, color);
          case Bishop => moves := GetBishopMoves(pos, color);
          case Queen => moves := GetQueenMoves(pos, color);
          case King => moves := GetKingMoves(pos, color);
        }
    }

    method MovePiece(origin: nat, destination: nat)
      requires Valid()
      modifies this
      ensures Valid()
      ensures if origin < 64 && destination < 64 && ValidMove(old(squares), old(turnColor), origin, destination)
        then squares == old(squares)[destination := old(squares)[origin]][origin := None] &&
             turnColor == OppositeColor(old(turnColor))
        else squares == old(squares) && turnColor == old(turnColor)
    {
      if origin < 64 && destination < 64 {
        var valid := IsValidMove(origin, destination);
        if valid {
          squares := squares[destination := squares[origin]];
          squares := squares[origin := None];
          ToggleTurnColor();
        }
      }
    }

    /** Writes one square; the bitboard engine's move mirrors itself onto the board through it. */
    method UpdateSquare(index: nat, piece: Option<Piece>)
      requires Valid() && index < 64
      modifies this
      ensures Valid() && squares == old(squares)[index := piece] && turnColor == old(turnColor)
    {
      squares := squares[index := piece];
    }

    method ToggleTurnColor()
      modifies this
      ensures turnColor != old(turnColor) && turnColor == OppositeColor(old(turnColor))
      ensures squares == old(squares)
    {
      match turnColor
      case White => turnColor := Black;
      case Black => turnColor := White;
    }

    method IsValidMove(origin: nat, destination: nat) returns (valid: bool)
      requires Valid() && origin < 64
      ensures valid == ValidMove(squares, turnColor, origin, destination)
    {
      match squares[origin]
      case None =>
        valid := false;
      case Some(piece) =>
        if piece.color == turnColor {
          var moves := GetLegalMoves(origin, turnColor);
          valid := destination in moves;
        } else {
          valid := false;
        }
    }

    /** The pushes, then the diagonal captures (board.rs:65-135). */
    method GetPawnMoves(pos: nat, color: Color) returns (moves: seq<nat>)
      requires Valid() && pos < 64
      ensures moves == PawnMoves(squares, pos, color)
    {
      moves := GetPawnPushes(pos, color);
      moves := AddPawnCaptures(pos, color, moves);
    }

    /** The first half of get_pawn_moves: one square forward, and two from the start rank. */
    method GetPawnPushes(pos: nat, color: Color) returns (moves: seq<nat>)
      requires Valid() && pos < 64
      ensures moves == PawnPushes(squares, pos, color)
    {
      moves := [];
      var idx := pos;
      var oneForward := if color == White then Some(idx + 8) else if idx >= 8 then Some(idx - 8) else None;
      var startingRange := if color == White then (8, 15) else (48, 55);
      if oneForward.Some? {
        var one := oneForward.value;
        if one < 64 && squares[one].None? {
          moves := moves + [one];
          if idx >= startingRange.0 && idx <= startingRange.1 {
            var twoForward := if color == White then idx + 16 else idx - 16;
            moves := moves + [twoForward];
          }
        }
      }
    }

    /** The second half of get_pawn_moves: the captures, appended to moves. */
    method AddPawnCaptures(pos: nat, color: Color, pushes: seq<nat>) returns (moves: seq<nat>)
      requires Valid() && pos < 64
      ensures moves == match Diagonals(pos, color)
        case Some(pair) => pushes + CaptureAt(squares, pair.0, color) + CaptureAt(squares, pair.1, color)
        case None => pushes
    {
      moves := pushes;
      var idx := pos;
      var leftForward: Option<nat>, rightForward: Option<nat>;
      if color == White {
        leftForward, rightForward := Some(idx + 7), Some(idx + 9);
      } else {
        leftForward := if idx >= 7 then Some(idx - 7) else None;
        rightForward := if idx >= 9 then Some(idx - 9) else None;
      }
      if leftForward.Some? && rightForward.Some? {
        var left, right := leftForward.value, rightForward.value;
        if left < 64 && squares[left].Some? && squares[left].value.color != color {
          moves := moves + [left];
        }
        if right < 64 && squares[right].Some? && squares[right].value.color != color {
          moves := moves + [right];
        }
      }
    }

    /** Walks the four rook directions; a step that changes rank on a horizontal ray ends it. */
    method GetRookMoves(pos: nat, color: Color) returns (moves: seq<nat>)
      requires Valid() && pos < 64
      ensures moves == SlidingMoves(squares, pos, color, RookDeltas, 0, [])
    {
      moves := [];
      var start := pos;
      var deltas := RookDeltas;
      var i := 0;
      ghost var all := SlidingMoves(squares, start, color, deltas, 0, []);
      while i < |deltas|
        invariant 0 <= i <= |deltas|
        invariant SlidingMoves(squares, start, color, deltas, i, moves) == all
      {
        var delta := deltas[i];
        ghost var ray := RayMoves(squares, start, color, delta, 0, start, moves);
        var current: int := start;
        var k := 0;
        while k < 7
          invariant 0 <= k <= 7
          invariant RayMoves(squares, start, color, delta, k, current, moves) == ray
        {
          ghost var previous := current;
          current := current + delta;
          if current < 0 || current > 63 {
            break;
          }
          var stops := RookStops(start, current, delta);
          if stops {
            break;
          }
          match squares[current] {
            case Some(occupant) =>
              if occupant.color == color {
                break;
              } else {
                moves := moves + [current as nat];
                break;
              }
            case None =>
          }
          RayMovesAdvance(squares, start, color, delta, k, previous, moves);
          moves := moves + [current as nat];
          k := k + 1;
        }
        i := i + 1;
      }
    }

    /** The eight knight offsets, skipping squares off the board, not L-shaped, or held by own pieces. */
    method GetKnightMoves(pos: nat, color: Color) returns (moves: seq<nat>)
      requires Valid() && pos < 64
      ensures moves == KnightMoves(squares, pos, color, KnightDeltas, 0, [])
    {
      moves := [];
      var idx := pos;
      var deltas := KnightDeltas;
      var i := 0;
      ghost var all := KnightMoves(squares, idx, color, deltas, 0, []);
      while i < |deltas|
        invariant 0 <= i <= |deltas|
        invariant KnightMoves(squares, idx, color, deltas, i, moves) == all
      {
        var current := idx + deltas[i];
        ghost var before := moves;
        var lands := KnightLands(idx, current, color);
        if lands {
          moves := moves + [current as nat];
        }
        KnightStepTaken(squares, idx, color, current, before, lands);
        KnightMovesUnfold(squares, idx, color, deltas, i, before);
        i := i + 1;
      }
    }

    /** One candidate of the knight loop: on the board, an L-shaped leap, and not onto an own piece. */
    method KnightLands(idx: nat, current: int, color: Color) returns (lands: bool)
      requires Valid()
      ensures lands == (0 <= current <= 63 && KnightShape(idx, current) && !OwnAt(squares, current, color))
    {
      lands := false;
      if 0 <= current <= 63 {
        var fromFile, toFile := idx % 8, current % 8;
        var fromRank, toRank := idx / 8, current / 8;
        var fileDiff, rankDiff := Abs(fromFile - toFile), Abs(fromRank - toRank);
        KnightGuard(idx, current);
        if (fileDiff == 1 && rankDiff == 2) || (fileDiff == 2 && rankDiff == 1) {
          match squares[current] {
            case Some(occupant) =>
              lands := occupant.color != color;
            case None =>
              lands := true;
          }
        }
      }
    }

    /** Walks the four diagonals; a step whose file and rank distances differ ends the ray. */
    method GetBishopMoves(pos: nat, color: Color) returns (moves: seq<nat>)
      requires Valid() && pos < 64
      ensures moves == SlidingMoves(squares, pos, color, BishopDeltas, 0, [])
    {
      moves := [];
      var start := pos;
      var deltas := BishopDeltas;
      var i := 0;
      ghost var all := SlidingMoves(squares, start, color, deltas, 0, []);
      while i < |deltas|
        invariant 0 <= i <= |deltas|
        invariant SlidingMoves(squares, start, color, deltas, i, moves) == all
      {
        var delta := deltas[i];
        ghost var ray := RayMoves(squares, start, color, delta, 0, start, moves);
        var current: int := start;
        var k := 0;
        while k < 7
          invariant 0 <= k <= 7
          invariant RayMoves(squares, start, color, delta, k, current, moves) == ray
        {
          ghost var previous := current;
          current := current + delta;
          if current < 0 || current > 63 {
            break;
          }
          var stops := BishopStops(start, current, delta);
          if stops {
            break;
          }
          match squares[current] {
            case Some(occupant) =>
              if occupant.color == color {
                break;
              } else {
                moves := moves + [current as nat];
                break;
              }
            case None =>
          }
          RayMovesAdvance(squares, start, color, delta, k, previous, moves);
          moves := moves + [current as nat];
          k := k + 1;
        }
        i := i + 1;
      }
    }

    /** Walks all eight directions with both the rook and the bishop guard. */
    method GetQueenMoves(pos: nat, color: Color) returns (moves: seq<nat>)
      requires Valid() && pos < 64
      ensures moves == SlidingMoves(squares, pos, color, QueenDeltas, 0, [])
    {
      moves := [];
      var start := pos;
      var deltas := QueenDeltas;
      var i := 0;
      ghost var all := SlidingMoves(squares, start, color, deltas, 0, []);
      while i < |deltas|
        invariant 0 <= i <= |deltas|
        invariant SlidingMoves(squares, start, color, deltas, i, moves) == all
      {
        var delta := deltas[i];
        ghost var ray := RayMoves(squares, start, color, delta, 0, start, moves);
        var current: int := start;
        var k := 0;
        while k < 7
          invariant 0 <= k <= 7
          invariant RayMoves(squares, start, color, delta, k, current, moves) == ray
        {
          ghost var previous := current;
          current := current + delta;
          if current < 0 || current > 63 {
            break;
          }
          var stops := QueenStops(start, current, delta);
          if stops {
            break;
          }
          match squares[current] {
            case Some(occupant) =>
              if occupant.color == color {
                break;
              } else {
                moves := moves + [current as nat];
                break;
              }
            case None =>
          }
          RayMovesAdvance(squares, start, color, delta, k, previous, moves);
          moves := moves + [current as nat];
          k := k + 1;
        }
        i := i + 1;
      }
    }

    /** The rook's file test (board.rs:160-166): a horizontal step that lands on a file not beyond the start wrapped. */
    static method RookStops(start: int, current: int, delta: int) returns (stops: bool)
      requires delta == 1 || delta == -1 || delta == 8 || delta == -8
      ensures stops == Wraps(start, current, delta)
    {
      var fromFile := start % 8;
      var toFile := current % 8;
      RookGuard(start, current, delta);
      stops := (delta == 1 && toFile <= fromFile) || (delta == -1 && toFile >= fromFile);
    }

    /** The bishop's diagonal test (board.rs:250-259): file and rank distances must agree. */
    static method BishopStops(start: int, current: int, delta: int) returns (stops: bool)
      requires delta == 7 || delta == 9 || delta == -7 || delta == -9
      ensures stops == Wraps(start, current, delta)
    {
      var fromFile, toFile := start % 8, current % 8;
      var fromRank, toRank := start / 8, current / 8;
      var fileDiff, rankDiff := Abs(fromFile - toFile), Abs(fromRank - toRank);
      BishopGuard(start, current, delta);
      stops := !(fileDiff == rankDiff);
    }

    /** The queen's combined test (board.rs:303-315). */
    static method QueenStops(start: int, current: int, delta: int) returns (stops: bool)
      ensures stops == Wraps(start, current, delta)
    {
      var fromFile, toFile := start % 8, current % 8;
      var fromRank, toRank := start / 8, current / 8;
      var fileDiff, rankDiff := Abs(fromFile - toFile), Abs(fromRank - toRank);
      QueenGuard(start, current, delta);
      stops := (delta == 1 && toFile <= fromFile) || (delta == -1 && toFile >= fromFile) ||
        ((delta == 7 || delta == -7 || delta == 9 || delta == -9) && fileDiff != rankDiff);
    }

    /**
      The eight king steps: empty neighbours, and enemy neighbours whose
      capture IsDefended does not forbid.
     */
    method GetKingMoves(pos: nat, color: Color) returns (moves: seq<nat>)
      requires Valid() && pos < 64
      ensures moves == KingMovesFrom(squares, turnColor, pos, color, KingDeltas, 0, [])
      decreases Count(squares), 0, 2
    {
      moves := [];
      var start := pos;
      var deltas := KingDeltas;
      var i := 0;
      ghost var all := KingMovesFrom(squares, turnColor, start, color, deltas, 0, []);
      while i < |deltas|
        invariant 0 <= i <= |deltas|
        invariant KingMovesFrom(squares, turnColor, start, color, deltas, i, moves) == all
      {
        var destination := start + deltas[i];
        ghost var before := moves;
        var enters := KingEnters(start, destination, color);
        if enters {
          moves := moves + [destination as nat];
        }
        KingMovesAdvance(squares, turnColor, start, color, deltas, i, before, enters);
        i := i + 1;
      }
    }

    /**
      One candidate of the king loop: on the board, one step away, and either
      empty or an enemy whose capture IsDefended does not forbid.
     */
    method KingEnters(start: nat, destination: int, color: Color) returns (enters: bool)
      requires Valid() && start < 64
      ensures enters == (0 <= destination <= 63 && KingShape(start, destination) && KingMayEnter(squares, turnColor, color, destination as nat))
      decreases Count(squares), 0, 1
    {
      enters := false;
      if 0 <= destination <= 63 {
        var fromFile, toFile := start % 8, destination % 8;
        var fromRank, toRank := start / 8, destination / 8;
        var fileDiff, rankDiff := Abs(fromFile - toFile), Abs(fromRank - toRank);
        assert fileDiff == FileDiff(start, destination) && rankDiff == RankDiff(start, destination);
        if !(fileDiff > 1 || rankDiff > 1 || (fileDiff == 0 && rankDiff == 0)) {
          var opponentColor := OppositeColor(turnColor);
          match squares[destination] {
            case Some(occupant) =>
              if occupant.color != color {
                var defended := IsDefended(destination, opponentColor);
                enters := !defended;
              }
            case None =>
              enters := true;
          }
        }
      }
    }

    /**
      Removes the piece on destination from a copy of the board and asks
      whether some move of opponentColor reaches it (board.rs:390-412).
     */
    method IsDefended(destination: nat, opponentColor: Color) returns (defended: bool)
      requires Valid() && destination < 64 && squares[destination].Some?
      requires opponentColor == OppositeColor(turnColor)
      ensures defended == Defended(squares, turnColor, destination)
      decreases Count(squares), 0, 0
    {
      CountRemove(squares, destination, 64);
      var updatedBoard := new Board.Init(squares[destination := None], turnColor);
      var opponentMoves := GetAllMoves(updatedBoard, opponentColor);
      defended := AnyReaches(opponentMoves, destination);
    }
  }

  /** Whether some list of all contains d (the source's flatten().any(..)). */
  method AnyReaches(all: seq<seq<nat>>, d: nat) returns (found: bool)
    ensures found == Reaches(all, d)
  {
    found := false;
    var a := 0;
    while a < |all|
      invariant 0 <= a <= |all|
      invariant found <==> exists b | 0 <= b < a :: d in all[b]
    {
      if d in all[a] {
        found := true;
      }
      a := a + 1;
    }
  }

  /** The move lists of all 64 squares for pieces of colour color (helpers.rs:7-21). */
  method GetAllMoves(board: Board, color: Color) returns (moves: seq<seq<nat>>)
    requires board.Valid()
    ensures moves == AllMovesFrom(board.squares, board.turnColor, color, 0, [])
    decreases Count(board.squares), 2, 0
  {
    moves := [];
    var idx := 0;
    ghost var all := AllMovesFrom(board.squares, board.turnColor, color, 0, []);
    while idx < 64
      invariant 0 <= idx <= 64
      invariant AllMovesFrom(board.squares, board.turnColor, color, idx, moves) == all
    {
      var legal := board.GetLegalMoves(idx, color);
      moves := moves + [legal];
      idx := idx + 1;
    }
  }
}
