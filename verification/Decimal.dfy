/** Lengths, digit counts and fixed-width decimal forms of binary64 numbers. */
module Decimal {
  import opened Words
  import opened Machine
  import opened Powers
  import opened Unrounded
  import opened Scaling

  // ----- bit length -----

  lemma DivDiv(x: nat, a: nat, b: nat)
    requires a >= 1 && b >= 1
    ensures a * b >= 1 && x / a / b == x / (a * b)
  {
    var q, r := x / a, x % a;
    var k, t := q / b, q % b;
    MulAtLeast(a, b);
    Regrouped(x, a, b, q, r, k, t);
    DivModUnique(x, a * b, k, t * a + r);
  }

  lemma Regrouped(x: nat, a: nat, b: nat, q: nat, r: nat, k: nat, t: nat)
    requires x == q * a + r && q == k * b + t && r < a && t < b
    ensures x == k * (a * b) + (t * a + r) && 0 <= t * a + r < a * b
  {
    assert (k * b + t) * a == k * (a * b) + t * a;
    MulMono(t, b - 1, a);
    assert (b - 1) * a == a * b - a;
    MulMono(0, t, a);
  }

  // One step of Len64: k low bits of x, which is x0 / 2^n, are dropped.
  lemma LenStep(x0: Word, n: nat, x: Word, k: nat)
    requires x == x0 / Pow2(n) && k < 64 && x < Pow2(2 * k)
    ensures ShiftRight(x, k) == x0 / Pow2(n + k) && ShiftRight(x, k) < Pow2(k)
    ensures x >= Pow2(k) ==> ShiftRight(x, k) >= 1
  {
    hide Pow2, ShiftRight;
    ShiftedRight(x, k);
    Pow2Add(n, k);
    Pow2Add(k, k);
    DivDiv(x0, Pow2(n), Pow2(k));
    Smaller(x, Pow2(k));
  }

  lemma Smaller(x: nat, p: nat)
    requires p >= 1 && x < p * p
    ensures x / p < p
    ensures x >= p ==> x / p >= 1
  {
    var q := x / p;
    assert x == q * p + x % p;
    MulMono(p, q, p);
  }

  lemma MulMono(a: int, b: int, c: nat)
    ensures a <= b ==> a * c <= b * c
  {
  }

  /** The number of bits of x. */
  method Len64(x: Word) returns (n: nat)
    ensures x == 0 ==> n == 0
    ensures x > 0 ==> 1 <= n <= 64 && Pow2(n - 1) <= x < Pow2(n)
  {
    LenPowers();
    hide Pow2, ShiftRight;
    n := 0;
    var y := x;
    if y >= 0x1_0000_0000 {
      LenStep(x, n, y, 32);
      y := ShiftRight(y, 32);
      n := n + 32;
    }
    assert y == x / Pow2(n) && y < 0x1_0000_0000 && (y == 0 ==> x == 0 && n == 0);
    if y >= 0x1_0000 {
      LenStep(x, n, y, 16);
      y := ShiftRight(y, 16);
      n := n + 16;
    }
    assert y == x / Pow2(n) && y < 0x1_0000 && (y == 0 ==> x == 0 && n == 0);
    if y >= 0x100 {
      LenStep(x, n, y, 8);
      y := ShiftRight(y, 8);
      n := n + 8;
    }
    assert y == x / Pow2(n) && y < 0x100 && (y == 0 ==> x == 0 && n == 0);
    if y >= 0x10 {
      LenStep(x, n, y, 4);
      y := ShiftRight(y, 4);
      n := n + 4;
    }
    assert y == x / Pow2(n) && y < 0x10 && (y == 0 ==> x == 0 && n == 0);
    if y >= 4 {
      LenStep(x, n, y, 2);
      y := ShiftRight(y, 2);
      n := n + 2;
    }
    assert y == x / Pow2(n) && y < 4 && (y == 0 ==> x == 0 && n == 0);
    if y >= 2 {
      LenStep(x, n, y, 1);
      y := ShiftRight(y, 1);
      n := n + 1;
    }
    assert y == x / Pow2(n) && y < 2 && (y == 0 ==> x == 0 && n == 0);
    if y >= 1 {
      LastStep(x, n);
      n := n + 1;
    }
  }

  lemma LenPowers()
    ensures Pow2(0) == 1 && Pow2(1) == 2 && Pow2(2) == 4 && Pow2(4) == 0x10 && Pow2(8) == 0x100
    ensures Pow2(16) == 0x1_0000 && Pow2(32) == 0x1_0000_0000 && Pow2(64) == WORD
  {
    Pow2Values();
    Pow2Small();
  }

  lemma LastStep(x: nat, n: nat)
    requires x / Pow2(n) == 1
    ensures Pow2(n) <= x < Pow2(n + 1)
  {
    var p := Pow2(n);
    assert x == p + x % p;
  }

  // ----- trailing zeros -----

  /**
   Removes trailing zeros: the value is kept, and no trailing zero is left exactly when
   x0 does not end in 17 zeros.
   */
  method TrimZeros(x0: Word, p0: int) returns (x: Word, p: int)
    ensures p >= p0 && x0 == x * Pow10(p - p0)
    ensures x % 10 != 0 <==> x0 % 100_000_000_000_000_000 != 0
  {
    TrimPowers();
    hide Pow10;
    x, p := x0, p0;
    Shape(x0, 10_000_000_000_000_000);
    if x % 10 != 0 {
      return;
    }
    x := x / 10;
    p := p + 1;
    assert x0 == x * Pow10(p - p0);
    TrimStep(x0, x, p - p0, 100_000_000, 8, 10_000_000_000_000_000);
    if x % 100_000_000 == 0 {
      x := x / 100_000_000;
      p := p + 8;
    }
    TrimStep(x0, x, p - p0, 10_000, 4, 100_000_000);
    if x % 10_000 == 0 {
      x := x / 10_000;
      p := p + 4;
    }
    TrimStep(x0, x, p - p0, 100, 2, 10_000);
    if x % 100 == 0 {
      x := x / 100;
      p := p + 2;
    }
    TrimStep(x0, x, p - p0, 10, 1, 100);
    if x % 10 == 0 {
      x := x / 10;
      p := p + 1;
    }
  }

  lemma TrimPowers()
    ensures Pow10(0) == 1 && Pow10(1) == 10 && Pow10(2) == 100 && Pow10(4) == 10_000 && Pow10(8) == 100_000_000
  {
  }

  // One step: zeros are removed in groups of k, and half as many can be left.
  lemma TrimStep(x0: nat, x: nat, j: nat, q: nat, k: nat, qq: nat)
    requires x0 == x * Pow10(j) && q == Pow10(k) && qq == q * q
    ensures x % q == 0 ==> x0 == (x / q) * Pow10(j + k) && ((x / q) % q == 0 <==> x % qq == 0)
    ensures x % q != 0 ==> x % qq != 0
  {
    Pow10Add(j, k);
    hide Pow10;
    var y := x / q;
    assert x == y * q + x % q;
    if x % q == 0 {
      assert y * (Pow10(j) * q) == (y * q) * Pow10(j);
    }
    Divisible(x, q);
  }

  lemma Divisible(x: nat, q: nat)
    requires q >= 1
    ensures q * q >= 1
    ensures x % q == 0 ==> ((x / q) % q == 0 <==> x % (q * q) == 0)
    ensures x % q != 0 ==> x % (q * q) != 0
  {
    MulAtLeast(q, q);
    var k := x / (q * q);
    assert x == k * (q * q) + x % (q * q);
    if x % (q * q) == 0 {
      assert x == (k * q) * q;
      DivModUnique(x, q, k * q, 0);
      DivModUnique(k * q, q, k, 0);
    }
    if x % q == 0 && (x / q) % q == 0 {
      var j := x / q / q;
      assert x == (j * q) * q == j * (q * q);
      DivModUnique(x, q * q, j, 0);
    }
  }

  // Divisibility by 10 * q.
  lemma Shape(x: nat, q: nat)
    requires q >= 1
    ensures x % 10 == 0 ==> (x % (10 * q) == 0 <==> (x / 10) % q == 0)
    ensures x % 10 != 0 ==> x % (10 * q) != 0
  {
    var k := x / (10 * q);
    assert x == k * (10 * q) + x % (10 * q);
    if x % (10 * q) == 0 {
      assert x == (k * q) * 10;
      assert x / 10 == k * q;
      DivModUnique(x / 10, q, k, 0);
    }
    if x % 10 == 0 && (x / 10) % q == 0 {
      var j := x / 10 / q;
      assert x / 10 == j * q;
      assert x == j * (10 * q);
      DivModUnique(x, 10 * q, j, 0);
    }
  }

  // ----- digit counts -----

  function Log10Pow2(x: int): int { x * 78913 / 0x4_0000 }

  const POW10_ENTRIES: nat := 20

  /** The table of powers of ten. */
  function Pow10Table(n: nat): int
    requires n < POW10_ENTRIES
  {
    match n
    case 0 => 1 case 1 => 10 case 2 => 100 case 3 => 1_000
    case 4 => 10_000 case 5 => 100_000 case 6 => 1_000_000 case 7 => 10_000_000
    case 8 => 100_000_000 case 9 => 1_000_000_000 case 10 => 10_000_000_000 case 11 => 100_000_000_000
    case 12 => 1_000_000_000_000 case 13 => 10_000_000_000_000 case 14 => 100_000_000_000_000
    case 15 => 1_000_000_000_000_000
    case 16 => 10_000_000_000_000_000 case 17 => 100_000_000_000_000_000 case 18 => 1_000_000_000_000_000_000
    case _ => 10_000_000_000_000_000_000
  }

  // The exponent of the smallest power of two that is at least 10^n, and that power.
  function BitsOf(n: nat): nat { (n * 0x4_0000 + 78912) / 78913 }

  function CoverOf(n: nat): int {
    match n
    case 0 => 0x1 case 1 => 0x10 case 2 => 0x80 case 3 => 0x400
    case 4 => 0x4000 case 5 => 0x20000 case 6 => 0x100000 case 7 => 0x1000000
    case 8 => 0x8000000 case 9 => 0x40000000 case 10 => 0x400000000 case 11 => 0x2000000000
    case 12 => 0x10000000000 case 13 => 0x100000000000 case 14 => 0x800000000000 case 15 => 0x4000000000000
    case 16 => 0x40000000000000 case 17 => 0x200000000000000 case 18 => 0x1000000000000000 case _ => 0x10000000000000000
  }

  lemma {:induction false} TableIsPow10(n: nat)
    requires n < POW10_ENTRIES
    ensures Pow10Table(n) == Pow10(n)
  {
    if n > 0 {
      TableIsPow10(n - 1);
      TenTimes(n);
      hide Pow10Table;
    }
  }

  lemma TenTimes(n: nat)
    requires 1 <= n < POW10_ENTRIES
    ensures Pow10Table(n) == 10 * Pow10Table(n - 1)
  {
  }

  lemma CoverStep(n: nat)
    requires 1 <= n < POW10_ENTRIES
    ensures BitsOf(n) == BitsOf(n - 1) + 3 || BitsOf(n) == BitsOf(n - 1) + 4
    ensures CoverOf(n) == if BitsOf(n) == BitsOf(n - 1) + 3 then 8 * CoverOf(n - 1) else 16 * CoverOf(n - 1)
  {
  }

  lemma CoverBounds(n: nat)
    requires 1 <= n < POW10_ENTRIES
    ensures CoverOf(n) < 2 * Pow10Table(n) && Pow10Table(n) <= CoverOf(n)
  {
  }

  lemma {:induction false} CoverIsPow2(n: nat)
    requires n < POW10_ENTRIES
    ensures CoverOf(n) == Pow2(BitsOf(n))
  {
    if n == 0 {
      assert BitsOf(0) == 0 && Pow2(0) == 1;
    } else {
      hide Pow2, BitsOf, CoverOf;
      CoverStep(n);
      CoverIsPow2(n - 1);
      Pow2Jump(BitsOf(n - 1), BitsOf(n));
    }
  }

  // 10^n lies between two neighbouring powers of two.
  lemma PowersMeet(n: nat)
    requires 1 <= n < POW10_ENTRIES
    ensures BitsOf(n) >= 1 && Pow2(BitsOf(n) - 1) < Pow10(n) <= Pow2(BitsOf(n))
  {
    TableIsPow10(n);
    CoverIsPow2(n);
    CoverBounds(n);
    assert BitsOf(n) >= 1;
    hide BitsOf, CoverOf, Pow10Table, Pow10;
    Pow2Step(BitsOf(n) - 1);
  }

  // The estimate from the bit length is the digit count, or one less.
  lemma LogRange(l: nat)
    requires 1 <= l <= 64
    ensures var n := Log10Pow2(l);
            0 <= n < POW10_ENTRIES && BitsOf(n) <= l < BitsOf(n + 1) && BitsOf(n + 1) >= 1
  {
  }

  lemma LengthDigits(l: nat, d: nat)
    requires 1 <= l <= 64 && Pow2(l - 1) <= d < Pow2(l)
    ensures var n := Log10Pow2(l);
            0 <= n < POW10_ENTRIES && d < Pow10(n + 1) && (n >= 1 ==> Pow10(n - 1) <= d)
  {
    LogRange(l);
    var n := Log10Pow2(l);
    hide Pow2, Log10Pow2, BitsOf;
    if n + 1 < POW10_ENTRIES {
      PowersMeet(n + 1);
      Pow2Mono(l, BitsOf(n + 1) - 1);
    } else {
      TopDigits(l);
    }
    if n >= 1 {
      PowersMeet(n);
      Pow2Mono(BitsOf(n), l);
      Pow2Step(l - 1);
    }
  }

  lemma TopDigits(l: nat)
    requires l <= 64
    ensures Pow2(l) < Pow10(POW10_ENTRIES)
  {
    hide Pow2, Pow10Table;
    TableIsPow10(19);
    assert Pow10(20) == 10 * Pow10(19);
    hide Pow10;
    Pow2Values();
    Pow2Mono(l, 64);
    LastEntry();
  }

  lemma LastEntry()
    ensures Pow10Table(19) == 10_000_000_000_000_000_000
  {
  }

  /** The number of decimal digits of d. */
  method Digits(d: Word) returns (k: nat)
    ensures d > 0 ==> k >= 1 && Pow10(k - 1) <= d < Pow10(k)
    ensures d == 0 ==> k == 0
  {
    var l := Len64(d);
    assert Pow10(0) == 1 && Log10Pow2(0) == 0;
    hide Pow2, Pow10, Log10Pow2, Pow10Table;
    if d > 0 {
      LengthDigits(l, d);
    }
    var nd := Log10Pow2(l);
    TableIsPow10(nd);
    FirstEntry();
    k := nd + (if d >= Pow10Table(nd) then 1 else 0);
  }

  lemma FirstEntry()
    ensures Pow10Table(0) == 1
  {
  }
}
