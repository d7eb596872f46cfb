/**
  Bit-level facts about 64-bit occupancy masks. Square s is set in mask m
  when bit s of m is 1. Shift amounts are `bv8` values: `ShiftAmount(n)` is
  the square n as a `bv8` (it equals `n as bv8`, see ShiftAmountIsCast),
  written by recursion so that the solver reasons about it only through the
  two facts of ShiftAmountFacts. Every fact below is first proved for `bv8`
  amounts and then restated for squares given as `nat`.
 */
module Bits {

  function ShiftAmount(n: nat): bv8
    requires n < 64
  {
    if n == 0 then 0 else ShiftAmount(n - 1) + 1
  }

  lemma {:induction false} ShiftAmountValue(n: nat)
    requires n < 64
    ensures ShiftAmount(n) as int == n
  {
    if n > 0 {
      ShiftAmountValue(n - 1);
    }
  }

  lemma ShiftAmountIsCast(n: nat)
    requires n < 64
    ensures ShiftAmount(n) == n as bv8
  {
    ShiftAmountValue(n);
  }

  lemma ShiftAmountFacts(n: nat, s: nat)
    requires n < 64 && s < 64
    ensures ShiftAmount(n) < 64 && ShiftAmount(s) < 64
    ensures ShiftAmount(n) == ShiftAmount(s) <==> n == s
  {
    ShiftAmountValue(n);
    ShiftAmountValue(s);
  }

  predicate BitAt(m: bv64, t: bv8)
    requires t < 64
  {
    (m >> t) & 1 == 1
  }

  /** Square s is set in mask m. */
  predicate Bit(m: bv64, s: nat)
    requires s < 64
  {
    ShiftAmountFacts(s, s);
    BitAt(m, ShiftAmount(s))
  }

  /** The one-square mask `1 << num` (src/models/bitboards.rs:807-809). */
  function ConvertToBit(num: nat): bv64
    requires num < 64
  {
    ShiftAmountFacts(num, num);
    1 << ShiftAmount(num)
  }

  lemma BitAtOr(a: bv64, b: bv64, t: bv8)
    requires t < 64
    ensures BitAt(a | b, t) <==> BitAt(a, t) || BitAt(b, t)
  {
  }

  lemma BitAtAnd(a: bv64, b: bv64, t: bv8)
    requires t < 64
    ensures BitAt(a & b, t) <==> BitAt(a, t) && BitAt(b, t)
  {
  }

  lemma BitAtNot(a: bv64, t: bv8)
    requires t < 64
    ensures BitAt(!a, t) <==> !BitAt(a, t)
  {
  }

  lemma BitAtShift(n: bv8, t: bv8)
    requires n < 64 && t < 64
    ensures BitAt(1 << n, t) <==> n == t
  {
  }

  lemma BitAtZero(t: bv8)
    requires t < 64
    ensures !BitAt(0, t)
  {
  }

  lemma AndShiftNonZero(a: bv64, t: bv8)
    requires t < 64
    ensures (1 << t) & a != 0 <==> BitAt(a, t)
  {
  }

  lemma BitAtSet(m: bv64, n: bv8, t: bv8)
    requires n < 64 && t < 64
    ensures BitAt(m | (1 << n), t) <==> BitAt(m, t) || t == n
  {
  }

  lemma BitAtClear(m: bv64, n: bv8, t: bv8)
    requires n < 64 && t < 64
    ensures BitAt(m & !(1 << n), t) <==> BitAt(m, t) && t != n
  {
  }

  lemma BitOr(a: bv64, b: bv64, s: nat)
    requires s < 64
    ensures Bit(a | b, s) <==> Bit(a, s) || Bit(b, s)
  {
    ShiftAmountFacts(s, s);
    BitAtOr(a, b, ShiftAmount(s));
  }

  lemma BitAnd(a: bv64, b: bv64, s: nat)
    requires s < 64
    ensures Bit(a & b, s) <==> Bit(a, s) && Bit(b, s)
  {
    ShiftAmountFacts(s, s);
    BitAtAnd(a, b, ShiftAmount(s));
  }

  lemma BitNot(a: bv64, s: nat)
    requires s < 64
    ensures Bit(!a, s) <==> !Bit(a, s)
  {
    ShiftAmountFacts(s, s);
    BitAtNot(a, ShiftAmount(s));
  }

  /** The empty mask has no square set. */
  lemma BitZero(s: nat)
    requires s < 64
    ensures !Bit(0, s)
  {
    ShiftAmountFacts(s, s);
    BitAtZero(ShiftAmount(s));
  }

  /** `convert_to_bit(n)` has exactly square n set. */
  lemma ConvertToBitIsSingleSquare(n: nat, s: nat)
    requires n < 64 && s < 64
    ensures Bit(ConvertToBit(n), s) <==> n == s
  {
    ShiftAmountFacts(n, s);
    BitAtShift(ShiftAmount(n), ShiftAmount(s));
  }

  /** The source's occupancy test `convert_to_bit(n) & m != 0` reads square n of m. */
  lemma ConvertToBitAnd(m: bv64, n: nat)
    requires n < 64
    ensures ConvertToBit(n) & m != 0 <==> Bit(m, n)
  {
    ShiftAmountFacts(n, n);
    AndShiftNonZero(m, ShiftAmount(n));
  }

  /** Setting one square: `m | convert_to_bit(n)`. */
  lemma BitSet(m: bv64, n: nat, s: nat)
    requires n < 64 && s < 64
    ensures Bit(m | ConvertToBit(n), s) <==> Bit(m, s) || s == n
  {
    ShiftAmountFacts(n, s);
    BitAtSet(m, ShiftAmount(n), ShiftAmount(s));
  }

  /** Clearing one square: `m & !convert_to_bit(n)`. */
  lemma BitClear(m: bv64, n: nat, s: nat)
    requires n < 64 && s < 64
    ensures Bit(m & !ConvertToBit(n), s) <==> Bit(m, s) && s != n
  {
    ShiftAmountFacts(n, s);
    BitAtClear(m, ShiftAmount(n), ShiftAmount(s));
  }

  /** Moving one square: `(m & !convert_to_bit(o)) | convert_to_bit(d)`. */
  lemma BitMove(m: bv64, o: nat, d: nat, s: nat)
    requires o < 64 && d < 64 && s < 64
    ensures Bit((m & !ConvertToBit(o)) | ConvertToBit(d), s) <==> (Bit(m, s) && s != o) || s == d
  {
    var cleared := m & !ConvertToBit(o);
    BitClear(m, o, s);
    BitSet(cleared, d, s);
  }
}
