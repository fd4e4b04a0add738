/**
 "Unrounded" numbers: a non-negative value as an integer with two fraction bits, the last
 of which is sticky, and the rounding, division and shift functions on them.
 */
module Unrounded {
  import opened Words
  import opened Machine

  /** Sets the last bit. */
  function Or1(x: nat): nat { if x % 2 == 0 then x + 1 else x }

  /** The unrounded form of v. */
  function Unround(v: real): (u: nat)
    requires v >= 0.0
  {
    var q := (4.0 * v).Floor;
    if q as real == 4.0 * v then q else Or1(q)
  }

  function Bit(b: bool): Word { if b then 1 else 0 }

  // ----- the functions of the source, on 64-bit words -----

  function UFloor(u: Word): Word { Wrap(u + 0) / 4 }

  function UCeil(u: Word): Word { Wrap(u + 3) / 4 }

  function RoundHalfDown(u: Word): Word { Wrap(u + 1) / 4 }

  function Round(u: Word): Word { Wrap(u + 1 + Word64(BitAnd, u / 4, 1)) / 4 }

  function RoundHalfUp(u: Word): Word { Wrap(u + 2) / 4 }

  function Quotient(x: Word, d: Word): Word
    requires d >= 1
  {
    DivBounds(x, d);
    x / d
  }

  function Div(u: Word, d: Word): Word
    requires d >= 1
  {
    Word64(BitOr, Word64(BitOr, Quotient(u, d), Word64(BitAnd, u, 1)), Bit(u % d != 0))
  }

  function Rsh(u: Word, s: nat): Word
    requires s < 64
  {
    Word64(BitOr, Word64(BitOr, ShiftRight(u, s), Word64(BitAnd, u, 1)),
           Bit(Word64(BitAnd, u, Wrap(ShiftLeft(1, s) - 1)) != 0))
  }

  function Nudge(u: Word, delta: int): Word { Wrap(u + delta) }

  // ----- roundings of real numbers -----

  function Ceil(v: real): int { -(-v).Floor }

  /** The nearest integer; of two, the even one. */
  function RoundEven(v: real): int {
    var f := v.Floor;
    var r := v - f as real;
    if r < 0.5 || (r == 0.5 && f % 2 == 0) then f else f + 1
  }

  // ----- bits -----

  lemma LastBit(u: Word)
    ensures Word64(BitAnd, u, 1) == u % 2
  {
    hide Bits, Pow2;
    AndMask(64, u, 1);
    Pow2One();
  }

  lemma Pow2One()
    ensures Pow2(1) == 2
  {
  }

  lemma OrBit(x: Word, b: bool)
    ensures Word64(BitOr, x, Bit(b)) == if b then Or1(x) else x
  {
    Pow2Values();
    hide Bits, Pow2;
    if !b {
      OrZero(64, x);
    } else {
      OrOneStep(64, x);
    }
  }

  lemma {:induction false} OrZero(k: nat, x: nat)
    requires x < Pow2(k)
    ensures Bits(BitOr, k, x, 0) == x
    decreases k
  {
    if k > 0 {
      OrZero(k - 1, x / 2);
    }
  }

  lemma OrOneStep(k: nat, x: nat)
    requires x < Pow2(k) && k >= 1
    ensures Bits(BitOr, k, x, 1) == Or1(x)
  {
    OrZero(k - 1, x / 2);
  }

  lemma DivIs(u: Word, d: Word)
    requires d >= 1
    ensures Div(u, d) == if u % 2 == 1 || u % d != 0 then Or1(u / d) else u / d
  {
    hide Word64;
    LastBit(u);
    DivBounds(u, d);
    OrBit(Quotient(u, d), u % 2 == 1);
    OrBit(Word64(BitOr, Quotient(u, d), Word64(BitAnd, u, 1)), u % d != 0);
  }

  // ----- exactness -----

  // How u relates to 4v: it is exact, or it is odd and 4v lies strictly between its neighbours.
  lemma UnroundMeans(v: real)
    requires v >= 0.0
    ensures var u := Unround(v);
            u as real == 4.0 * v || (u % 2 == 1 && (u - 1) as real < 4.0 * v < (u + 1) as real)
  {
  }

  lemma UnroundUnique(v: real, u: nat)
    requires v >= 0.0
    requires u as real == 4.0 * v || (u % 2 == 1 && (u - 1) as real < 4.0 * v < (u + 1) as real)
    ensures Unround(v) == u
  {
  }

  lemma WrapNear(w: nat)
    requires w < 2 * WORD
    ensures Wrap(w) == if w < WORD then w else w - WORD
  {
  }

  // The integer part q and the fraction bits r, and how they locate v.
  lemma Quarters(v: real) returns (q: nat, r: nat)
    requires v >= 0.0
    ensures r < 4 && Unround(v) == 4 * q + r && Unround(v) / 4 == q && Unround(v) % 4 == r
    ensures var x := v - q as real;
            r as real == 4.0 * x || ((r == 1 || r == 3) && (r - 1) as real < 4.0 * x < (r + 1) as real)
  {
    UnroundMeans(v);
    hide Unround;
    var u := Unround(v);
    q, r := u / 4, u % 4;
    assert u == 4 * q + r;
    assert u as real == 4.0 * (q as real) + r as real;
  }

  lemma OverFour(q: nat, t: nat)
    ensures (4 * q + t) / 4 == q + t / 4
  {
  }

  lemma FloorIs(x: real, n: int)
    requires n as real <= x < (n + 1) as real
    ensures x.Floor == n
  {
  }

  lemma CeilOf(x: real, n: int)
    requires (n - 1) as real < x <= n as real
    ensures Ceil(x) == n
  {
  }

  lemma FloorExact(v: real)
    requires v >= 0.0 && Unround(v) < WORD
    ensures UFloor(Unround(v)) == v.Floor
  {
    var q, r := Quarters(v);
    WrapNear(Unround(v));
    hide Unround, Wrap;
    FloorIs(v, q);
  }

  lemma CeilIs(v: real)
    requires v >= 0.0
    ensures Ceil(v) == (Unround(v) + 3) / 4
  {
    var q, r := Quarters(v);
    hide Unround;
    OverFour(q, r + 3);
    CeilOf(v, if r == 0 then q else q + 1);
  }

  lemma CeilExact(v: real)
    requires v >= 0.0 && Unround(v) < WORD
    ensures UCeil(Unround(v)) == Ceil(v) <==> Unround(v) + 3 < WORD
  {
    CeilIs(v);
    WrapNear(Unround(v) + 3);
    hide Unround, Wrap;
  }

  // A value just below 2^62, whose unrounded form is 2^64 - 2: three of the roundings wrap to 0.
  lemma RoundingsWrap()
    ensures Unround(4611686018427387903.5) == WORD - 2
    ensures UCeil(WORD - 2) == 0 && Round(WORD - 2) == 0 && RoundHalfUp(WORD - 2) == 0
    ensures RoundHalfDown(WORD - 2) == HALF / 2 - 1
  {
    var u := WORD - 2;
    UnroundUnique(4611686018427387903.5, u);
    RoundIs(u, u / 4, u % 4);
  }

  lemma HalfDownIs(v: real)
    requires v >= 0.0
    ensures Ceil(v - 0.5) == (Unround(v) + 1) / 4
  {
    var q, r := Quarters(v);
    hide Unround;
    OverFour(q, r + 1);
    CeilOf(v - 0.5, if r == 3 then q + 1 else q);
  }

  lemma HalfDownExact(v: real)
    requires v >= 0.0 && Unround(v) < WORD
    ensures RoundHalfDown(Unround(v)) == Ceil(v - 0.5) <==> Unround(v) + 1 < WORD
  {
    HalfDownIs(v);
    WrapNear(Unround(v) + 1);
    hide Unround, Wrap;
  }

  lemma HalfUpIs(v: real)
    requires v >= 0.0
    ensures (v + 0.5).Floor == (Unround(v) + 2) / 4
  {
    var q, r := Quarters(v);
    hide Unround;
    OverFour(q, r + 2);
    FloorIs(v + 0.5, if r >= 2 then q + 1 else q);
  }

  lemma HalfUpExact(v: real)
    requires v >= 0.0 && Unround(v) < WORD
    ensures RoundHalfUp(Unround(v)) == (v + 0.5).Floor <==> Unround(v) + 2 < WORD
  {
    HalfUpIs(v);
    WrapNear(Unround(v) + 2);
    hide Unround, Wrap;
  }

  // Rounding goes up when the fraction bits, or a tie with an odd integer part, ask for it.
  lemma RoundIs(u: Word, q: nat, r: nat)
    requires u == 4 * q + r && r < 4
    ensures u + 2 < WORD ==> Round(u) == if r + q % 2 >= 3 then q + 1 else q
    ensures u + 2 >= WORD ==> Round(u) == 0
  {
    hide Word64, Wrap;
    OverFour(q, r);
    LastBit(q);
    var odd := q % 2;
    assert Round(u) == Wrap(u + 1 + odd) / 4;
    WrapNear(u + 1 + odd);
    hide Round, Wrap;
    OverFour(q, r + 1 + odd);
  }

  lemma RoundEvenIs(v: real, q: nat, r: nat)
    requires v >= 0.0 && r < 4
    requires var x := v - q as real;
             r as real == 4.0 * x || ((r == 1 || r == 3) && (r - 1) as real < 4.0 * x < (r + 1) as real)
    ensures RoundEven(v) == if r + q % 2 >= 3 then q + 1 else q
  {
    FloorIs(v, q);
  }

  lemma RoundExact(v: real)
    requires v >= 0.0 && Unround(v) < WORD
    ensures Round(Unround(v)) == RoundEven(v) <==> Unround(v) + 2 < WORD
  {
    var q, r := Quarters(v);
    RoundIs(Unround(v), q, r);
    RoundEvenIs(v, q, r);
    hide Unround, Round, RoundEven;
  }

  lemma NudgeDown(v: real)
    requires v > 0.0 && Unround(v) < WORD
    ensures UFloor(Nudge(Unround(v), -1)) == Ceil(v) - 1
  {
    var q, r := Quarters(v);
    CeilIs(v);
    hide Unround, Ceil;
    OverFour(q, r + 3);
    WrapNear(Unround(v) - 1);
    hide Wrap;
    if r == 0 {
      OverFour(q - 1, 3);
    } else {
      OverFour(q, r - 1);
    }
  }

  lemma NudgeUp(v: real)
    requires v >= 0.0 && Unround(v) < WORD
    ensures UCeil(Nudge(Unround(v), 1)) == v.Floor + 1 <==> Unround(v) + 4 < WORD
  {
    var q, r := Quarters(v);
    hide Unround;
    FloorIs(v, q);
    OverFour(q, r + 4);
    WrapNear(Unround(v) + 1);
    WrapNear(Nudge(Unround(v), 1) + 3);
    hide Wrap;
  }

  // ----- division and shift -----

  lemma CastMul(a: int, b: int)
    ensures (a * b) as real == (a as real) * (b as real)
  {
  }

  // Dividing a real number by d, and its integer part, give quotients with the same integer part.
  lemma FloorDiv(x: real, d: int)
    requires x >= 0.0 && d >= 1
    ensures (x / d as real).Floor == x.Floor / d
    ensures (x / d as real).Floor as real == x / d as real <==> x == x.Floor as real && x.Floor % d == 0
  {
    var q, k := x.Floor, x.Floor / d;
    var y := x / d as real;
    assert y * d as real == x;
    assert k * d <= q < k * d + d;
    CastMul(k, d);
    CastMul(k + 1, d);
    Between(y, d as real, k as real, (k + 1) as real, x);
  }

  lemma Between(y: real, d: real, k: real, k1: real, x: real)
    requires d > 0.0 && y * d == x
    ensures k * d <= x <==> k <= y
    ensures x < k1 * d <==> y < k1
    ensures k * d == x <==> k == y
  {
    AtMost(y, d, k);
    AtMost(k, d, y);
    AtMost(y, d, k1);
  }

  lemma AtMost(y: real, d: real, k: real)
    requires d > 0.0
    ensures y * d < k * d <==> y < k
  {
    if y < k {
      assert (k - y) * d > 0.0;
    } else {
      assert (y - k) * d >= 0.0;
    }
  }

  /** Dividing the unrounded form of v by d gives the unrounded form of v / d. */
  lemma DivExact(v: real, d: Word)
    requires v >= 0.0 && Unround(v) < WORD && d >= 1
    ensures v / d as real >= 0.0 && Div(Unround(v), d) == Unround(v / d as real)
  {
    DivIs(Unround(v), d);
    UnroundDiv(v, d);
    hide Div, Unround;
  }

  lemma UnroundDiv(v: real, d: int)
    requires v >= 0.0 && d >= 1
    ensures v / d as real >= 0.0
    ensures var u := Unround(v);
            Unround(v / d as real) == if u % 2 == 1 || u % d != 0 then Or1(u / d) else u / d
  {
    var x := 4.0 * v;
    var q := x.Floor;
    FloorDiv(x, d);
    assert 4.0 * (v / d as real) == x / d as real;
    OddQuotient(q, d);
    OddNext(q, d);
    hide Or1;
    assert Unround(v) == if q as real == x then q else Or1(q);
    assert Unround(v / d as real) == if q as real == x && q % d == 0 then q / d else Or1(q / d);
    Or1Odd(q);
    Or1Odd(q / d);
  }

  lemma Or1Odd(x: nat)
    ensures Or1(x) % 2 == 1
    ensures Or1(x) == if x % 2 == 0 then x + 1 else x
  {
  }

  // An odd product has an odd factor.
  lemma OddQuotient(q: nat, d: int)
    requires d >= 1
    ensures q % 2 == 1 && q % d == 0 ==> (q / d) % 2 == 1
  {
    var k := q / d;
    if q % d == 0 && k % 2 == 0 {
      assert q == (k / 2) * d * 2;
    }
  }

  // The sticky bit of an even q changes neither the quotient nor, when it divides, what is lost.
  lemma OddNext(q: nat, d: int)
    requires d >= 1
    ensures q % 2 == 0 ==> Or1((q + 1) / d) == Or1(q / d)
  {
    var k, r := q / d, q % d;
    assert q == k * d + r;
    if r + 1 < d {
      DivModUnique(q + 1, d, k, r + 1);
    } else {
      assert q + 1 == (k + 1) * d;
      DivModUnique(q + 1, d, k + 1, 0);
      OddQuotient(q + 1, d);
    }
  }

  lemma ShiftedOne(s: nat)
    requires s < 64
    ensures 1 <= Pow2(s) < WORD && ShiftLeft(1, s) == Pow2(s)
    ensures Wrap(ShiftLeft(1, s) - 1) == Pow2(s) - 1
  {
    hide Pow2, Wrap;
    Pow2Values();
    Pow2Mono(s, 63);
    var p := Pow2(s);
    assert ShiftLeft(1, s) == Wrap(p) by {
      assert s % 64 == s;
    }
    hide ShiftLeft;
    WrapNear(p);
    WrapNear(p - 1);
  }

  lemma MaskedBits(u: Word, s: nat)
    requires s < 64
    ensures Word64(BitAnd, u, Wrap(ShiftLeft(1, s) - 1)) == u % Pow2(s)
  {
    ShiftedOne(s);
    AndMask(64, u, s);
    hide Bits, ShiftLeft, Pow2, Wrap;
  }

  lemma ShiftedRight(u: Word, s: nat)
    requires s < 64
    ensures ShiftRight(u, s) == u / Pow2(s)
  {
    assert s % 64 == s;
  }

  // A shift is the division by a power of two: the mask keeps the remainder.
  lemma RshIsDiv(u: Word, s: nat)
    requires s < 64
    ensures Pow2(s) < WORD && Rsh(u, s) == Div(u, Pow2(s))
  {
    ShiftedOne(s);
    MaskedBits(u, s);
    ShiftedRight(u, s);
    hide Word64, ShiftLeft, ShiftRight, Pow2, Wrap;
  }

  lemma RshExact(v: real, s: nat)
    requires v >= 0.0 && Unround(v) < WORD && s < 64
    ensures v / Pow2(s) as real >= 0.0 && Rsh(Unround(v), s) == Unround(v / Pow2(s) as real)
  {
    hide Unround, Rsh, Div;
    RshIsDiv(Unround(v), s);
    DivExact(v, Pow2(s));
  }
}
