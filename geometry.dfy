/**
  Board geometry shared by both move engines. A square is the index
  `rank * 8 + file` (0 = A1, 7 = H1, 63 = H8). Both engines compute files and
  ranks with `%` and `/` on non-negative values, so Dafny's operators agree
  with the source's.

  The sliding generators of both engines walk a ray one step at a time and
  stop at a wrap-around guard; `Wraps` is that guard and `RayMoves` /
  `RayAttacks` are the walks. `OnRay`, `SlideTarget` and `AttackTarget` are
  the geometric reference definitions they are proved against.
 */
module Geometry {
  import opened Options
  import opened Pieces

  function File(s: int): int { s % 8 }
  function Rank(s: int): int { s / 8 }

  function Abs(x: int): nat { if x < 0 then -x else x }
  function FileDiff(o: int, d: int): nat { Abs(File(o) - File(d)) }
  function RankDiff(o: int, d: int): nat { Abs(Rank(o) - Rank(d)) }

  /** Number of king steps between two squares. */
  function Chebyshev(o: int, d: int): nat
  {
    if FileDiff(o, d) < RankDiff(o, d) then RankDiff(o, d) else FileDiff(o, d)
  }

  predicate OnBoard(s: int) { 0 <= s < 64 }

  /** The knight guard of both engines (board.rs:205, bitboards.rs:447, :601). */
  predicate KnightShape(o: int, d: int)
  {
    (FileDiff(o, d) == 1 && RankDiff(o, d) == 2) || (FileDiff(o, d) == 2 && RankDiff(o, d) == 1)
  }

  /** The king guard of both engines (board.rs:363, bitboards.rs:493, :693). */
  predicate KingShape(o: int, d: int)
  {
    !(FileDiff(o, d) > 1 || RankDiff(o, d) > 1 || (FileDiff(o, d) == 0 && RankDiff(o, d) == 0))
  }

  lemma KingShapeIsDistanceOne(o: int, d: int)
    ensures KingShape(o, d) <==> Chebyshev(o, d) == 1
  {
  }

  lemma SquareOf(s: int, r: int, f: int)
    requires 0 <= f < 8 && s == 8 * r + f
    ensures File(s) == f && Rank(s) == r
  {
  }

  lemma Decompose(s: int)
    ensures s == 8 * Rank(s) + File(s) && 0 <= File(s) < 8
  {
  }

  lemma OnBoardCoordinates(s: int)
    requires OnBoard(s)
    ensures 0 <= File(s) < 8 && 0 <= Rank(s) < 8
  {
  }

  /** Two squares with the same file and rank are the same square. */
  lemma SameCoordinates(a: int, b: int)
    requires File(a) == File(b) && Rank(a) == Rank(b)
    ensures a == b
  {
    Decompose(a);
    Decompose(b);
  }

  /* ---------------- Directions and rays ---------------- */

  /** The eight ray directions as index offsets. */
  predicate IsDirection(delta: int)
  {
    delta == 1 || delta == -1 || delta == 7 || delta == -7 ||
    delta == 8 || delta == -8 || delta == 9 || delta == -9
  }

  /** File change of one step along a direction. */
  function FileStep(delta: int): int
    requires IsDirection(delta)
  {
    if delta == 1 || delta == -7 || delta == 9 then 1
    else if delta == 8 || delta == -8 then 0
    else -1
  }

  /** Rank change of one step along a direction. */
  function RankStep(delta: int): int
    requires IsDirection(delta)
  {
    if delta == 1 || delta == -1 then 0
    else if delta == 7 || delta == 8 || delta == 9 then 1
    else -1
  }

  /** `step * k` for a step in {-1, 0, 1}, kept linear for the solver. */
  function Scale(step: int, k: int): int
  {
    if step == 1 then k else if step == -1 then -k else 0
  }

  lemma DirectionSteps(delta: int)
    requires IsDirection(delta)
    ensures delta == 8 * RankStep(delta) + FileStep(delta)
    ensures FileStep(delta) != 0 || RankStep(delta) != 0
  {
  }

  /** Square d is reached from o by k steps along delta without leaving the board. */
  predicate OnRayAt(o: int, d: int, delta: int, k: nat)
    requires IsDirection(delta)
  {
    OnBoard(o) && OnBoard(d) &&
    File(d) == File(o) + Scale(FileStep(delta), k) &&
    Rank(d) == Rank(o) + Scale(RankStep(delta), k)
  }

  /** Square d lies on the ray from o along delta (o itself excluded). */
  predicate OnRay(o: int, d: int, delta: int)
    requires IsDirection(delta)
  {
    Chebyshev(o, d) >= 1 && OnRayAt(o, d, delta, Chebyshev(o, d))
  }

  lemma ChebyshevOnBoard(o: int, d: int)
    requires OnBoard(o) && OnBoard(d)
    ensures Chebyshev(o, d) <= 7
  {
  }

  /** A square k steps along a ray is at distance k. */
  lemma RayDistance(o: int, d: int, delta: int, k: nat)
    requires IsDirection(delta) && OnRayAt(o, d, delta, k)
    ensures Chebyshev(o, d) == k
    ensures k >= 1 ==> OnRay(o, d, delta)
  {
  }

  /** Each step of a ray is one square. */
  lemma RayUnique(o: int, a: int, b: int, delta: int, k: nat)
    requires IsDirection(delta) && OnRayAt(o, a, delta, k) && OnRayAt(o, b, delta, k)
    ensures a == b
  {
    SameCoordinates(a, b);
  }

  /** The coordinates k steps along a ray lie on the board. */
  predicate StepOnBoard(o: int, delta: int, k: nat)
    requires IsDirection(delta)
  {
    0 <= File(o) + Scale(FileStep(delta), k) < 8 && 0 <= Rank(o) + Scale(RankStep(delta), k) < 8
  }

  /** The board is convex: a ray that reaches step m passes every earlier step. */
  lemma StepOnBoardBefore(o: int, d: int, delta: int, m: nat, j: nat)
    requires IsDirection(delta) && OnRayAt(o, d, delta, m) && j <= m
    ensures StepOnBoard(o, delta, j)
  {
    OnBoardCoordinates(o);
    OnBoardCoordinates(d);
  }

  /**
    The sliding generators' wrap-around guard at candidate d of a walk from
    o along delta (board.rs:155, :257, :310-315; bitboards.rs:397-402, :647-652).
   */
  predicate Wraps(o: int, d: int, delta: int)
  {
    (delta == 1 && File(d) <= File(o)) ||
    (delta == -1 && File(d) >= File(o)) ||
    ((delta == 7 || delta == -7 || delta == 9 || delta == -9) && FileDiff(o, d) != RankDiff(o, d))
  }

  /**
    One step of a walk: from the square k steps along the ray, adding delta
    passes the range check and the guard exactly when step k + 1 is on the
    board, and then it is that square.
   */
  lemma RayStep(o: int, delta: int, k: nat, cur: int)
    requires IsDirection(delta) && OnRayAt(o, cur, delta, k)
    ensures (OnBoard(cur + delta) && !Wraps(o, cur + delta, delta)) <==> StepOnBoard(o, delta, k + 1)
    ensures OnBoard(cur + delta) && !Wraps(o, cur + delta, delta) ==> OnRayAt(o, cur + delta, delta, k + 1)
  {
    if delta == 1 || delta == -1 {
      RayStepAlongRank(o, delta, k, cur);
    } else if delta == 8 || delta == -8 {
      RayStepAlongFile(o, delta, k, cur);
    } else if delta == 7 || delta == -7 {
      RayStepAntiDiagonal(o, delta, k, cur);
    } else {
      RayStepDiagonal(o, delta, k, cur);
    }
  }

  lemma RayStepAlongRank(o: int, delta: int, k: nat, cur: int)
    requires IsDirection(delta) && OnRayAt(o, cur, delta, k) && (delta == 1 || delta == -1)
    ensures (OnBoard(cur + delta) && !Wraps(o, cur + delta, delta)) <==> StepOnBoard(o, delta, k + 1)
    ensures OnBoard(cur + delta) && !Wraps(o, cur + delta, delta) ==> OnRayAt(o, cur + delta, delta, k + 1)
  {
    var f, r := File(cur), Rank(cur);
    Decompose(cur);
    OnBoardCoordinates(o);
    OnBoardCoordinates(cur);
    var next := cur + delta;
    if delta == 1 {
      if f < 7 { SquareOf(next, r, f + 1); } else { SquareOf(next, r + 1, 0); }
    } else {
      if f > 0 { SquareOf(next, r, f - 1); } else { SquareOf(next, r - 1, 7); }
    }
  }

  lemma RayStepAlongFile(o: int, delta: int, k: nat, cur: int)
    requires IsDirection(delta) && OnRayAt(o, cur, delta, k) && (delta == 8 || delta == -8)
    ensures (OnBoard(cur + delta) && !Wraps(o, cur + delta, delta)) <==> StepOnBoard(o, delta, k + 1)
    ensures OnBoard(cur + delta) && !Wraps(o, cur + delta, delta) ==> OnRayAt(o, cur + delta, delta, k + 1)
  {
    var f, r := File(cur), Rank(cur);
    Decompose(cur);
    OnBoardCoordinates(o);
    OnBoardCoordinates(cur);
    var next := cur + delta;
    if delta == 8 {
      SquareOf(next, r + 1, f);
    } else {
      SquareOf(next, r - 1, f);
    }
  }

  lemma RayStepAntiDiagonal(o: int, delta: int, k: nat, cur: int)
    requires IsDirection(delta) && OnRayAt(o, cur, delta, k) && (delta == 7 || delta == -7)
    ensures (OnBoard(cur + delta) && !Wraps(o, cur + delta, delta)) <==> StepOnBoard(o, delta, k + 1)
    ensures OnBoard(cur + delta) && !Wraps(o, cur + delta, delta) ==> OnRayAt(o, cur + delta, delta, k + 1)
  {
    var f, r := File(cur), Rank(cur);
    Decompose(cur);
    OnBoardCoordinates(o);
    OnBoardCoordinates(cur);
    var next := cur + delta;
    if delta == 7 {
      if f > 0 { SquareOf(next, r + 1, f - 1); } else { SquareOf(next, r, 7); }
    } else {
      if f < 7 { SquareOf(next, r - 1, f + 1); } else { SquareOf(next, r, 0); }
    }
  }

  lemma RayStepDiagonal(o: int, delta: int, k: nat, cur: int)
    requires IsDirection(delta) && OnRayAt(o, cur, delta, k) && (delta == 9 || delta == -9)
    ensures (OnBoard(cur + delta) && !Wraps(o, cur + delta, delta)) <==> StepOnBoard(o, delta, k + 1)
    ensures OnBoard(cur + delta) && !Wraps(o, cur + delta, delta) ==> OnRayAt(o, cur + delta, delta, k + 1)
  {
    if delta == 9 {
      RayStepUpRight(o, k, cur);
    } else {
      RayStepDownLeft(o, k, cur);
    }
  }

  lemma RayStepUpRight(o: int, k: nat, cur: int)
    requires OnRayAt(o, cur, 9, k)
    ensures (OnBoard(cur + 9) && !Wraps(o, cur + 9, 9)) <==> StepOnBoard(o, 9, k + 1)
    ensures OnBoard(cur + 9) && !Wraps(o, cur + 9, 9) ==> OnRayAt(o, cur + 9, 9, k + 1)
  {
    var f, r := File(cur), Rank(cur);
    Decompose(cur);
    OnBoardCoordinates(o);
    OnBoardCoordinates(cur);
    if f < 7 { SquareOf(cur + 9, r + 1, f + 1); } else { SquareOf(cur + 9, r + 2, 0); }
  }

  lemma RayStepDownLeft(o: int, k: nat, cur: int)
    requires OnRayAt(o, cur, -9, k)
    ensures (OnBoard(cur - 9) && !Wraps(o, cur - 9, -9)) <==> StepOnBoard(o, -9, k + 1)
    ensures OnBoard(cur - 9) && !Wraps(o, cur - 9, -9) ==> OnRayAt(o, cur - 9, -9, k + 1)
  {
    var f, r := File(cur), Rank(cur);
    Decompose(cur);
    OnBoardCoordinates(o);
    OnBoardCoordinates(cur);
    if f > 0 { SquareOf(cur - 9, r - 1, f - 1); } else { SquareOf(cur - 9, r - 2, 7); }
  }

  /* ---------------- Reference definitions of a slide ---------------- */

  /** Every square of the ray closer to o than distance n is empty. */
  predicate ClearBefore(view: seq<Option<Piece>>, o: int, delta: int, n: nat)
    requires |view| == 64 && IsDirection(delta)
  {
    forall s | 0 <= s < 64 && OnRay(o, s, delta) && Chebyshev(o, s) < n :: view[s].None?
  }

  /** d is attacked along delta from o: on the ray with nothing in between. */
  predicate AttackTarget(view: seq<Option<Piece>>, o: int, delta: int, d: int)
    requires |view| == 64 && IsDirection(delta)
  {
    OnBoard(d) && OnRay(o, d, delta) && ClearBefore(view, o, delta, Chebyshev(o, d))
  }

  /**
    d is a sliding destination along delta for a piece of colour color on o:
    attacked from o, and not held by the mover's colour.
   */
  predicate SlideTarget(view: seq<Option<Piece>>, o: int, color: Color, delta: int, d: int)
    requires |view| == 64 && IsDirection(delta)
  {
    AttackTarget(view, o, delta, d) && (view[d].None? || view[d].value.color != color)
  }

  /** A slide target is a square of the board other than the origin, free of the mover's colour. */
  lemma SlideTargetBasics(view: seq<Option<Piece>>, o: int, color: Color, delta: int, d: int)
    requires |view| == 64 && IsDirection(delta) && SlideTarget(view, o, color, delta, d)
    ensures 0 <= d < 64 && d != o && (view[d].None? || view[d].value.color != color)
  {
  }

  /* ---------------- The walks ---------------- */

  /**
    The walk from o along delta that has made k of its at most 7 steps, stands
    on cur and has collected acc: stop off the board or at the guard, stop
    before an own piece, stop after taking an enemy piece, otherwise take the
    square and go on.
   */
  function RayMoves(view: seq<Option<Piece>>, o: int, color: Color, delta: int, k: nat, cur: int, acc: seq<nat>): seq<nat>
    requires |view| == 64 && k <= 7
    decreases 7 - k
  {
    if k == 7 then acc
    else
      var next := cur + delta;
      if next < 0 || next > 63 || Wraps(o, next, delta) then acc
      else match view[next]
        case Some(p) => if p.color == color then acc else acc + [next]
        case None => RayMoves(view, o, color, delta, k + 1, next, acc + [next])
  }

  /** One step of the move walk past an empty square. */
  lemma RayMovesAdvance(view: seq<Option<Piece>>, o: int, color: Color, delta: int, k: nat, cur: int, acc: seq<nat>)
    requires |view| == 64 && k < 7
    requires 0 <= cur + delta <= 63 && !Wraps(o, cur + delta, delta) && view[cur + delta].None?
    ensures RayMoves(view, o, color, delta, k, cur, acc) == RayMoves(view, o, color, delta, k + 1, cur + delta, acc + [cur + delta])
  {
  }

  /** The attack walk: every square is taken, and the walk stops after a piece. */
  function RayAttacks(view: seq<Option<Piece>>, o: int, delta: int, k: nat, cur: int, acc: seq<nat>): seq<nat>
    requires |view| == 64 && k <= 7
    decreases 7 - k
  {
    if k == 7 then acc
    else
      var next := cur + delta;
      if next < 0 || next > 63 || Wraps(o, next, delta) then acc
      else if view[next].Some? then acc + [next]
      else RayAttacks(view, o, delta, k + 1, next, acc + [next])
  }

  /** One step of the attack walk past an empty square. */
  lemma RayAttacksAdvance(view: seq<Option<Piece>>, o: int, delta: int, k: nat, cur: int, acc: seq<nat>)
    requires |view| == 64 && k < 7
    requires 0 <= cur + delta <= 63 && !Wraps(o, cur + delta, delta) && view[cur + delta].None?
    ensures RayAttacks(view, o, delta, k, cur, acc) == RayAttacks(view, o, delta, k + 1, cur + delta, acc + [cur + delta])
  {
  }

  /** Extending ClearBefore past one more empty square of the ray. */
  lemma ClearBeforeStep(view: seq<Option<Piece>>, o: int, delta: int, k: nat, next: int)
    requires |view| == 64 && IsDirection(delta)
    requires ClearBefore(view, o, delta, k + 1) && OnRayAt(o, next, delta, k + 1) && view[next].None?
    ensures ClearBefore(view, o, delta, k + 2)
  {
    forall s | 0 <= s < 64 && OnRay(o, s, delta) && Chebyshev(o, s) < k + 2
      ensures view[s].None?
    {
      if Chebyshev(o, s) == k + 1 {
        RayUnique(o, s, next, delta, k + 1);
      }
    }
  }

  /** A walk that stops at cur + delta finds no target farther out. */
  lemma NoTargetPastEnd(view: seq<Option<Piece>>, o: int, delta: int, k: nat, cur: int, d: int)
    requires |view| == 64 && IsDirection(delta) && OnRayAt(o, cur, delta, k)
    requires !(OnBoard(cur + delta) && !Wraps(o, cur + delta, delta))
    ensures !(OnBoard(d) && OnRay(o, d, delta) && Chebyshev(o, d) > k)
  {
    RayStep(o, delta, k, cur);
    if OnBoard(d) && OnRay(o, d, delta) && Chebyshev(o, d) > k {
      StepOnBoardBefore(o, d, delta, Chebyshev(o, d), k + 1);
    }
  }

  /** No target lies beyond an occupied square of the ray. */
  lemma BlockedPast(view: seq<Option<Piece>>, o: int, delta: int, k: nat, next: int, d: int)
    requires |view| == 64 && IsDirection(delta) && OnRayAt(o, next, delta, k + 1) && view[next].Some?
    requires OnBoard(d) && OnRay(o, d, delta) && Chebyshev(o, d) > k + 1
    ensures !ClearBefore(view, o, delta, Chebyshev(o, d))
  {
    RayDistance(o, next, delta, k + 1);
  }

  /** Beyond k steps, only the occupied ray square k + 1 steps out is attacked. */
  lemma AttackTargetsAtBlocker(view: seq<Option<Piece>>, o: int, delta: int, k: nat, next: int, d: int)
    requires |view| == 64 && IsDirection(delta)
    requires OnRayAt(o, next, delta, k + 1) && ClearBefore(view, o, delta, k + 1) && view[next].Some?
    ensures AttackTarget(view, o, delta, d) && Chebyshev(o, d) > k <==> d == next
  {
    RayDistance(o, next, delta, k + 1);
    if OnBoard(d) && OnRay(o, d, delta) && Chebyshev(o, d) == k + 1 {
      RayStepIsUnique(o, d, next, delta, k + 1);
    }
    if OnBoard(d) && OnRay(o, d, delta) && Chebyshev(o, d) > k + 1 {
      BlockedPast(view, o, delta, k, next, d);
    }
  }

  /** The ray square at distance n is the one n steps out. */
  lemma RayStepIsUnique(o: int, d: int, next: int, delta: int, n: nat)
    requires IsDirection(delta) && OnRayAt(o, next, delta, n)
    requires OnBoard(d) && OnRay(o, d, delta) && Chebyshev(o, d) == n
    ensures d == next
  {
    RayUnique(o, d, next, delta, n);
  }

  /** A slide beyond an occupied ray square k + 1 steps out can only end on it, and only on an enemy. */
  lemma SlideTargetsAtBlocker(view: seq<Option<Piece>>, o: int, color: Color, delta: int, k: nat, next: int, d: int)
    requires |view| == 64 && IsDirection(delta)
    requires OnRayAt(o, next, delta, k + 1) && ClearBefore(view, o, delta, k + 1) && view[next].Some?
    ensures SlideTarget(view, o, color, delta, d) && Chebyshev(o, d) > k <==> d == next && view[next].value.color != color
  {
    AttackTargetsAtBlocker(view, o, delta, k, next, d);
  }

  /** Past an empty ray square k + 1 steps out, the attacked squares are it and those farther on. */
  lemma AttackTargetsPastEmpty(view: seq<Option<Piece>>, o: int, delta: int, k: nat, next: int, d: int)
    requires |view| == 64 && IsDirection(delta)
    requires OnRayAt(o, next, delta, k + 1) && ClearBefore(view, o, delta, k + 1) && view[next].None?
    ensures AttackTarget(view, o, delta, d) && Chebyshev(o, d) > k <==>
      d == next || (AttackTarget(view, o, delta, d) && Chebyshev(o, d) > k + 1)
  {
    RayDistance(o, next, delta, k + 1);
    if OnBoard(d) && OnRay(o, d, delta) && Chebyshev(o, d) == k + 1 {
      RayStepIsUnique(o, d, next, delta, k + 1);
    }
  }

  /** Past an empty ray square k + 1 steps out, the slide targets are it and those farther on. */
  lemma SlideTargetsPastEmpty(view: seq<Option<Piece>>, o: int, color: Color, delta: int, k: nat, next: int, d: int)
    requires |view| == 64 && IsDirection(delta)
    requires OnRayAt(o, next, delta, k + 1) && ClearBefore(view, o, delta, k + 1) && view[next].None?
    ensures SlideTarget(view, o, color, delta, d) && Chebyshev(o, d) > k <==>
      d == next || (SlideTarget(view, o, color, delta, d) && Chebyshev(o, d) > k + 1)
  {
    AttackTargetsPastEmpty(view, o, delta, k, next, d);
  }

  /**
    The move walk is exact: once the first k squares of the ray are empty, the
    walk from step k adds exactly the slide targets farther than k.
   */
  lemma {:induction false} RayMovesExact(view: seq<Option<Piece>>, o: int, color: Color, delta: int, k: nat, cur: int, acc: seq<nat>, d: int)
    requires |view| == 64 && IsDirection(delta) && k <= 7
    requires OnRayAt(o, cur, delta, k) && ClearBefore(view, o, delta, k + 1)
    ensures d in RayMoves(view, o, color, delta, k, cur, acc) <==>
      d in acc || (SlideTarget(view, o, color, delta, d) && Chebyshev(o, d) > k)
    decreases 7 - k, 1
  {
    if k == 7 {
      if OnBoard(d) { ChebyshevOnBoard(o, d); }
    } else {
      var next := cur + delta;
      RayStep(o, delta, k, cur);
      if next < 0 || next > 63 || Wraps(o, next, delta) {
        NoTargetPastEnd(view, o, delta, k, cur, d);
      } else if view[next].Some? {
        assert RayMoves(view, o, color, delta, k, cur, acc) == if view[next].value.color == color then acc else acc + [next];
        SlideTargetsAtBlocker(view, o, color, delta, k, next, d);
      } else {
        RayMovesPastEmpty(view, o, color, delta, k, cur, acc, d);
      }
    }
  }

  /** The step of RayMovesExact past an empty square. */
  lemma {:induction false} RayMovesPastEmpty(view: seq<Option<Piece>>, o: int, color: Color, delta: int, k: nat, cur: int, acc: seq<nat>, d: int)
    requires |view| == 64 && IsDirection(delta) && k < 7
    requires OnRayAt(o, cur, delta, k) && ClearBefore(view, o, delta, k + 1)
    requires OnRayAt(o, cur + delta, delta, k + 1) && 0 <= cur + delta <= 63 && !Wraps(o, cur + delta, delta)
    requires view[cur + delta].None?
    ensures d in RayMoves(view, o, color, delta, k, cur, acc) <==>
      d in acc || (SlideTarget(view, o, color, delta, d) && Chebyshev(o, d) > k)
    decreases 7 - k, 0
  {
    var next := cur + delta;
    RayMovesAdvance(view, o, color, delta, k, cur, acc);
    SlideTargetsPastEmpty(view, o, color, delta, k, next, d);
    ClearBeforeStep(view, o, delta, k, next);
    RayMovesExact(view, o, color, delta, k + 1, next, acc + [next], d);
  }

  /** The attack walk is exact in the same sense, for attack targets. */
  lemma {:induction false} RayAttacksExact(view: seq<Option<Piece>>, o: int, delta: int, k: nat, cur: int, acc: seq<nat>, d: int)
    requires |view| == 64 && IsDirection(delta) && k <= 7
    requires OnRayAt(o, cur, delta, k) && ClearBefore(view, o, delta, k + 1)
    ensures d in RayAttacks(view, o, delta, k, cur, acc) <==>
      d in acc || (AttackTarget(view, o, delta, d) && Chebyshev(o, d) > k)
    decreases 7 - k, 1
  {
    if k == 7 {
      if OnBoard(d) { ChebyshevOnBoard(o, d); }
    } else {
      var next := cur + delta;
      RayStep(o, delta, k, cur);
      if next < 0 || next > 63 || Wraps(o, next, delta) {
        NoTargetPastEnd(view, o, delta, k, cur, d);
      } else if view[next].Some? {
        assert RayAttacks(view, o, delta, k, cur, acc) == acc + [next];
        AttackTargetsAtBlocker(view, o, delta, k, next, d);
      } else {
        RayAttacksPastEmpty(view, o, delta, k, cur, acc, d);
      }
    }
  }

  /** The step of RayAttacksExact past an empty square. */
  lemma {:induction false} RayAttacksPastEmpty(view: seq<Option<Piece>>, o: int, delta: int, k: nat, cur: int, acc: seq<nat>, d: int)
    requires |view| == 64 && IsDirection(delta) && k < 7
    requires OnRayAt(o, cur, delta, k) && ClearBefore(view, o, delta, k + 1)
    requires OnRayAt(o, cur + delta, delta, k + 1) && 0 <= cur + delta <= 63 && !Wraps(o, cur + delta, delta)
    requires view[cur + delta].None?
    ensures d in RayAttacks(view, o, delta, k, cur, acc) <==>
      d in acc || (AttackTarget(view, o, delta, d) && Chebyshev(o, d) > k)
    decreases 7 - k, 0
  {
    var next := cur + delta;
    RayAttacksAdvance(view, o, delta, k, cur, acc);
    AttackTargetsPastEmpty(view, o, delta, k, next, d);
    ClearBeforeStep(view, o, delta, k, next);
    RayAttacksExact(view, o, delta, k + 1, next, acc + [next], d);
  }

  /* ---------------- Sets of directions ---------------- */

  predicate AllDirections(dirs: seq<int>)
  {
    forall i | 0 <= i < |dirs| :: IsDirection(dirs[i])
  }

  /** The walks along dirs[i..], one direction after the other, appended to acc. */
  function SlidingMoves(view: seq<Option<Piece>>, o: int, color: Color, dirs: seq<int>, i: nat, acc: seq<nat>): seq<nat>
    requires |view| == 64 && i <= |dirs|
    decreases |dirs| - i
  {
    if i == |dirs| then acc
    else SlidingMoves(view, o, color, dirs, i + 1, RayMoves(view, o, color, dirs[i], 0, o, acc))
  }

  function SlidingAttacks(view: seq<Option<Piece>>, o: int, dirs: seq<int>, i: nat, acc: seq<nat>): seq<nat>
    requires |view| == 64 && i <= |dirs|
    decreases |dirs| - i
  {
    if i == |dirs| then acc
    else SlidingAttacks(view, o, dirs, i + 1, RayAttacks(view, o, dirs[i], 0, o, acc))
  }

  /** From the origin, the move walk adds exactly the slide targets along delta. */
  lemma RayMovesFromOrigin(view: seq<Option<Piece>>, o: int, color: Color, delta: int, acc: seq<nat>, d: int)
    requires |view| == 64 && IsDirection(delta) && OnBoard(o)
    ensures d in RayMoves(view, o, color, delta, 0, o, acc) <==> d in acc || SlideTarget(view, o, color, delta, d)
  {
    RayMovesExact(view, o, color, delta, 0, o, acc, d);
  }

  lemma RayAttacksFromOrigin(view: seq<Option<Piece>>, o: int, delta: int, acc: seq<nat>, d: int)
    requires |view| == 64 && IsDirection(delta) && OnBoard(o)
    ensures d in RayAttacks(view, o, delta, 0, o, acc) <==> d in acc || AttackTarget(view, o, delta, d)
  {
    RayAttacksExact(view, o, delta, 0, o, acc, d);
  }

  /** d is a slide target along one of dirs[i..]. */
  predicate SlideTargetFrom(view: seq<Option<Piece>>, o: int, color: Color, dirs: seq<int>, i: nat, d: int)
    requires |view| == 64 && AllDirections(dirs) && i <= |dirs|
    decreases |dirs| - i
  {
    i < |dirs| && (SlideTarget(view, o, color, dirs[i], d) || SlideTargetFrom(view, o, color, dirs, i + 1, d))
  }

  /** d is attacked along one of dirs[i..]. */
  predicate AttackTargetFrom(view: seq<Option<Piece>>, o: int, dirs: seq<int>, i: nat, d: int)
    requires |view| == 64 && AllDirections(dirs) && i <= |dirs|
    decreases |dirs| - i
  {
    i < |dirs| && (AttackTarget(view, o, dirs[i], d) || AttackTargetFrom(view, o, dirs, i + 1, d))
  }

  lemma {:induction false} SlideTargetFromExists(view: seq<Option<Piece>>, o: int, color: Color, dirs: seq<int>, i: nat, d: int)
    requires |view| == 64 && AllDirections(dirs) && i <= |dirs|
    ensures SlideTargetFrom(view, o, color, dirs, i, d) <==> exists j | i <= j < |dirs| :: SlideTarget(view, o, color, dirs[j], d)
    decreases |dirs| - i
  {
    if i < |dirs| {
      SlideTargetFromExists(view, o, color, dirs, i + 1, d);
      if exists j | i <= j < |dirs| :: SlideTarget(view, o, color, dirs[j], d) {
        var j :| i <= j < |dirs| && SlideTarget(view, o, color, dirs[j], d);
        if j > i {
          assert i + 1 <= j < |dirs| && SlideTarget(view, o, color, dirs[j], d);
        }
      }
    }
  }

  lemma {:induction false} AttackTargetFromExists(view: seq<Option<Piece>>, o: int, dirs: seq<int>, i: nat, d: int)
    requires |view| == 64 && AllDirections(dirs) && i <= |dirs|
    ensures AttackTargetFrom(view, o, dirs, i, d) <==> exists j | i <= j < |dirs| :: AttackTarget(view, o, dirs[j], d)
    decreases |dirs| - i
  {
    if i < |dirs| {
      AttackTargetFromExists(view, o, dirs, i + 1, d);
      if exists j | i <= j < |dirs| :: AttackTarget(view, o, dirs[j], d) {
        var j :| i <= j < |dirs| && AttackTarget(view, o, dirs[j], d);
        if j > i {
          assert i + 1 <= j < |dirs| && AttackTarget(view, o, dirs[j], d);
        }
      }
    }
  }

  /** The sliding walks add exactly the slide targets along one of the directions. */
  lemma {:induction false} SlidingMovesExact(view: seq<Option<Piece>>, o: int, color: Color, dirs: seq<int>, i: nat, acc: seq<nat>, d: int)
    requires |view| == 64 && OnBoard(o) && AllDirections(dirs) && i <= |dirs|
    ensures d in SlidingMoves(view, o, color, dirs, i, acc) <==> d in acc || SlideTargetFrom(view, o, color, dirs, i, d)
    decreases |dirs| - i
  {
    if i < |dirs| {
      RayMovesFromOrigin(view, o, color, dirs[i], acc, d);
      SlidingMovesExact(view, o, color, dirs, i + 1, RayMoves(view, o, color, dirs[i], 0, o, acc), d);
    }
  }

  lemma {:induction false} SlidingAttacksExact(view: seq<Option<Piece>>, o: int, dirs: seq<int>, i: nat, acc: seq<nat>, d: int)
    requires |view| == 64 && OnBoard(o) && AllDirections(dirs) && i <= |dirs|
    ensures d in SlidingAttacks(view, o, dirs, i, acc) <==> d in acc || AttackTargetFrom(view, o, dirs, i, d)
    decreases |dirs| - i
  {
    if i < |dirs| {
      RayAttacksFromOrigin(view, o, dirs[i], acc, d);
      SlidingAttacksExact(view, o, dirs, i + 1, RayAttacks(view, o, dirs[i], 0, o, acc), d);
    }
  }

  /* ---------------- Knight and king offsets ---------------- */

  /** The knight offsets, in the order both engines try them (board.rs:189, bitboards.rs:430, :584). */
  const KnightDeltas: seq<int> := [6, 10, 15, 17, -6, -10, -15, -17]

  /** acc followed by the in-range, L-shaped squares o + deltas[j] for j = i, i + 1, ... */
  function KnightLeaps(o: int, deltas: seq<int>, i: nat, acc: seq<nat>): seq<nat>
    requires i <= |deltas|
    decreases |deltas| - i
  {
    if i == |deltas| then acc
    else
      var d := o + deltas[i];
      KnightLeaps(o, deltas, i + 1, if 0 <= d <= 63 && KnightShape(o, d) then acc + [d as nat] else acc)
  }

  /** acc followed by the in-range squares o + deltas[j] at king distance, j = i, i + 1, ... */
  function KingSteps(o: int, deltas: seq<int>, i: nat, acc: seq<nat>): seq<nat>
    requires i <= |deltas|
    decreases |deltas| - i
  {
    if i == |deltas| then acc
    else
      var d := o + deltas[i];
      KingSteps(o, deltas, i + 1, if 0 <= d <= 63 && KingShape(o, d) then acc + [d as nat] else acc)
  }

  lemma {:induction false} KnightLeapsMembers(o: int, deltas: seq<int>, i: nat, acc: seq<nat>, d: int)
    requires i <= |deltas|
    ensures d in KnightLeaps(o, deltas, i, acc) <==>
      d in acc || (OnBoard(d) && KnightShape(o, d) && exists j | i <= j < |deltas| :: deltas[j] == d - o)
    decreases |deltas| - i
  {
    if i < |deltas| {
      var e := o + deltas[i];
      KnightLeapsMembers(o, deltas, i + 1, if 0 <= e <= 63 && KnightShape(o, e) then acc + [e as nat] else acc, d);
    }
  }

  lemma {:induction false} KingStepsMembers(o: int, deltas: seq<int>, i: nat, acc: seq<nat>, d: int)
    requires i <= |deltas|
    ensures d in KingSteps(o, deltas, i, acc) <==>
      d in acc || (OnBoard(d) && KingShape(o, d) && exists j | i <= j < |deltas| :: deltas[j] == d - o)
    decreases |deltas| - i
  {
    if i < |deltas| {
      var e := o + deltas[i];
      KingStepsMembers(o, deltas, i + 1, if 0 <= e <= 63 && KingShape(o, e) then acc + [e as nat] else acc, d);
    }
  }

  /** Every knight move between two squares of the board is one of the eight offsets. */
  lemma KnightShapeOffset(o: int, d: int)
    requires OnBoard(o) && OnBoard(d) && KnightShape(o, d)
    ensures d - o in KnightDeltas
  {
    Decompose(o);
    Decompose(d);
  }

  /** Every king step between two squares of the board is a ray direction. */
  lemma KingShapeOffset(o: int, d: int)
    requires OnBoard(o) && OnBoard(d) && KingShape(o, d)
    ensures IsDirection(d - o)
  {
    Decompose(o);
    Decompose(d);
  }

  /** The knight leaps from a square are exactly the L-shaped squares of the board. */
  lemma KnightLeapsExact(o: int, d: int)
    requires OnBoard(o)
    ensures d in KnightLeaps(o, KnightDeltas, 0, []) <==> OnBoard(d) && KnightShape(o, d)
  {
    KnightLeapsMembers(o, KnightDeltas, 0, [], d);
    if OnBoard(d) && KnightShape(o, d) {
      KnightShapeOffset(o, d);
    }
  }

  /** With every direction among the offsets, the king steps are exactly the neighbouring squares. */
  lemma KingStepsExact(o: int, deltas: seq<int>, d: int)
    requires OnBoard(o) && forall x :: IsDirection(x) ==> x in deltas
    ensures d in KingSteps(o, deltas, 0, []) <==> OnBoard(d) && KingShape(o, d)
  {
    KingStepsMembers(o, deltas, 0, [], d);
    if OnBoard(d) && KingShape(o, d) {
      KingShapeOffset(o, d);
      var j :| 0 <= j < |deltas| && deltas[j] == d - o;
    }
  }

  /* ---------------- Counting pieces ---------------- */

  /** Number of occupied squares among the first n. */
  function CountPieces(view: seq<Option<Piece>>, n: nat): nat
    requires n <= |view|
  {
    if n == 0 then 0 else CountPieces(view, n - 1) + if view[n - 1].Some? then 1 else 0
  }

  lemma {:induction false} CountEmptyStretch(view: seq<Option<Piece>>, lo: nat, n: nat)
    requires lo <= n <= |view| && forall s | lo <= s < n :: view[s].None?
    ensures CountPieces(view, n) == CountPieces(view, lo)
    decreases n
  {
    if n > lo {
      CountEmptyStretch(view, lo, n - 1);
    }
  }

  lemma {:induction false} CountFullStretch(view: seq<Option<Piece>>, lo: nat, n: nat)
    requires lo <= n <= |view| && forall s | lo <= s < n :: view[s].Some?
    ensures CountPieces(view, n) == CountPieces(view, lo) + (n - lo)
    decreases n
  {
    if n > lo {
      CountFullStretch(view, lo, n - 1);
    }
  }

  /** Emptying an occupied square lowers the count by one. */
  lemma {:induction false} CountRemove(view: seq<Option<Piece>>, d: nat, n: nat)
    requires d < |view| && n <= |view| && view[d].Some?
    ensures CountPieces(view[d := None], n) == CountPieces(view, n) - (if d < n then 1 else 0)
  {
    if n > 0 {
      CountRemove(view, d, n - 1);
    }
  }
}
