/** No left-justified 53-bit significand meets a near miss in the rows that the printing uses. */
module TableRows {
  import opened Words
  import opened Machine
  import opened Powers
  import opened Unrounded
  import opened Scaling
  import opened NearMiss
  import Lattice
  import Certificates

  // Near an even multiple of the weight, the product by a 53-bit number is near a multiple of 2^119.
  lemma NearResidue(x: Word, m: nat, pm: int, s: nat, k: int, j: int)
    requires s >= 1 && x == 2048 * m && Near(x * pm, k, Weight(s)) && k == 2 * j
    ensures -Lattice.LIMIT <= Lattice.Residue(m, pm, j * Pow2(s - 1)) <= Lattice.LIMIT
  {
    var w := Pow2(s - 1);
    assert Pow2(s) == 2 * w;
    hide Pow2;
    assert k * Weight(s) == 4 * UNIT * (j * w) by {
      EvenMultiple(j, w);
    }
    assert x * pm == 2048 * (m * pm);
  }

  lemma EvenMultiple(j: int, w: int)
    ensures (2 * j) * (UNIT * (2 * w)) == 4 * UNIT * (j * w)
  {
  }

  lemma ClearServes(x: Word, c: Scaler, p: int)
    requires Lattice.RowClear(p) && RoundedUp(Bits128(c), p) && x > 0 && x % 2048 == 0 && c.s >= 1
    ensures !Misses(Product(x, c), Weight(c.s), Prod(x as real, Mantissa(p)))
  {
    hide Mantissa, Prod, Near, Pow2, RoundedUp, Lattice.Residue;
    var pm, m := Bits128(c), x / 2048;
    assert Lattice.Clear(pm);
    forall k: int | k % 2 == 0
      ensures !Near(Product(x, c), k, Weight(c.s))
    {
      if Near(Product(x, c), k, Weight(c.s)) {
        NearResidue(x, m, pm, c.s, k, k / 2);
      }
    }
  }

  // ----- the rows 1e0 to 1e27 -----

  lemma ExactMantissa(p: nat)
    requires p <= LAST_EXACT
    ensures Mantissa(p) == (ExactHi(p) * WORD) as real && ExactHi(p) % 2 == 0
  {
    hide ExactHi, Log2Pow10, RPow, Two, Ten, Prod, Pow2, Pow10, Times;
    RowExact(p);
    var l := Log2Pow10(p);
    TenIsPow10(p);
    TwoIsPow2(l);
    TwoAdd(127 - l, l, 127);
    TopPower();
    RowReal(ExactHi(p), Pow2(l), Pow10(p));
    Cancelled(Mantissa(p), Ten(p), Two(127 - l), Pow2(l) as real, ExactHi(p) as real);
    CastMul(ExactHi(p), WORD);
  }

  lemma TopPower()
    ensures Two(127) == HALF as real * WORD as real
  {
    hide Pow2, Two;
    TwoIsPow2(127);
    Pow2Add(64, 63);
    Pow2Values();
  }

  lemma RowReal(h: int, w: int, t: int)
    requires Times(h, w) == t * HALF
    ensures Prod(h as real, w as real) == Prod(t as real, HALF as real)
  {
    CastMul(h, w);
    CastMul(t, HALF);
  }

  lemma Cancelled(y: real, t: real, b: real, w: real, h: real)
    requires y == Prod(t, b) && Prod(b, w) == HALF as real * WORD as real && Prod(h, w) == Prod(t, HALF as real)
             && w > 0.0
    ensures y == h * WORD as real
  {
    assert y * w == t * (b * w);
    assert (y - h * WORD as real) * w == 0.0;
  }

  lemma ExactBits(c: Scaler, p: nat) returns (h: int)
    requires p <= LAST_EXACT && RoundedUp(Bits128(c), p)
    ensures Bits128(c) == (2 * h) * WORD && Mantissa(p) == Bits128(c) as real
  {
    hide ExactHi, Mantissa, Bits128;
    ExactMantissa(p);
    h := ExactHi(p) / 2;
  }

  // Multiples of 2^65 are near a multiple of the weight only when they are equal to it.
  lemma ExactServes(x: Word, c: Scaler, p: nat)
    requires p <= LAST_EXACT && RoundedUp(Bits128(c), p) && c.s >= 0
    ensures !Misses(Product(x, c), Weight(c.s), Prod(x as real, Mantissa(p)))
  {
    hide Mantissa, Weight, Product, Bits128, Near, RoundedUp;
    var h := ExactBits(c, p);
    ProductIs(x, c);
    CastMul(x, Bits128(c));
    forall k: int | Near(Product(x, c), k, Weight(c.s))
      ensures Product(x, c) == k * Weight(c.s)
    {
      OnlyEqual(x, h, k, c.s);
    }
  }

  lemma ProductIs(x: Word, c: Scaler)
    ensures Product(x, c) == x * Bits128(c)
  {
  }

  lemma OnlyEqual(x: int, h: int, k: int, s: nat)
    requires Near(x * ((2 * h) * WORD), k, Weight(s))
    ensures x * ((2 * h) * WORD) == k * Weight(s)
  {
    HalfUnits(k, Pow2(s));
    var n := x * h - (k * Pow2(s)) * (WORD / 2);
    hide Pow2;
    assert x * ((2 * h) * WORD) == (2 * WORD) * (x * h) by { Doubled(x, h); }
    assert -WORD < (2 * WORD) * n <= WORD;
    assert n == 0;
  }

  lemma Doubled(x: int, h: int)
    ensures x * ((2 * h) * WORD) == (2 * WORD) * (x * h)
  {
  }

  lemma HalfUnits(k: int, w: int)
    ensures k * (UNIT * w) == (2 * WORD) * ((k * w) * (WORD / 2))
  {
  }

  // ----- the rows 1e-27 to 1e-1 -----

  function Pow5(k: nat): (r: nat)
    ensures r >= 1
  {
    if k == 0 then 1 else 5 * Pow5(k - 1)
  }

  lemma {:induction false} Pow10Factors(k: nat)
    ensures Pow10(k) == Pow5(k) * Pow2(k)
  {
    if k > 0 {
      Pow10Factors(k - 1);
      assert 10 * (Pow5(k - 1) * Pow2(k - 1)) == (5 * Pow5(k - 1)) * (2 * Pow2(k - 1));
    }
  }

  lemma {:induction false} Pow5Small(k: nat)
    requires k <= 27
    ensures Pow5(k) <= WORD && (k < 27 ==> 5 * Pow5(k) <= WORD)
    decreases 27 - k
  {
    if k == 27 {
      assert Pow5(9) == 1953125;
      hide Pow5;
      Pow5Add(9, 9);
      Pow5Add(18, 9);
    } else {
      Pow5Small(k + 1);
    }
  }

  lemma {:induction false} Pow5Add(a: nat, b: nat)
    ensures Pow5(a + b) == Pow5(a) * Pow5(b)
  {
    if a > 0 {
      Pow5Add(a - 1, b);
      assert a + b - 1 == a - 1 + b;
      assert 5 * (Pow5(a - 1) * Pow5(b)) == (5 * Pow5(a - 1)) * Pow5(b);
    }
  }

  // The mantissa of 10^-t is a power of two over 10^t, with two more factors of two than the power of ten takes away.
  lemma InverseMantissa(t: int) returns (n: nat)
    requires 1 <= t <= 27
    ensures Prod(Mantissa(-t), Pow10(t) as real) == Pow2(127 - Log2Pow10(-t)) as real
    ensures Log2Pow10(-t) <= -(t + 2) && n == -(t + 2) - Log2Pow10(-t)
    ensures Pow2(127 - Log2Pow10(-t)) == (2 * UNIT * Pow2(t)) * Pow2(n)
  {
    var l := Log2Pow10(-t);
    n := -(t + 2) - l;
    hide Log2Pow10, Pow2, Pow10, RPow, Prod, Two, Ten;
    TenIsPow10(t);
    TenCancels(t);
    TwoIsPow2(127 - l);
    Reordered(Ten(-t), Two(127 - l), Ten(t));
    PowerParts(t, n);
  }

  lemma PowerParts(t: nat, n: nat)
    ensures Pow2(129 + t + n) == (2 * UNIT * Pow2(t)) * Pow2(n)
  {
    hide Pow2;
    Pow2Values();
    Pow2Add(64, 64);
    Pow2Step(128);
    Pow2Add(129, t);
    Pow2Add(129 + t, n);
  }

  lemma TenCancels(t: int)
    requires t >= 0
    ensures Prod(Ten(-t), Ten(t)) == 1.0
  {
    RPowAdd(10.0, -t, t);
    assert -t + t == 0 && Ten(0) == 1.0;
  }

  lemma Reordered(a: real, b: real, c: real)
    requires Prod(a, c) == 1.0
    ensures Prod(Prod(a, b), c) == b
  {
    assert (a * b) * c == b * (a * c);
  }

  // Multiples of 2^129 * w that differ by less than 2^129 * w are equal.
  lemma Coincides(x: nat, pm: int, f: nat, w: nat, n: nat, j: int, ps: nat)
    requires x < WORD && f <= WORD && w >= 1
    requires 0 <= pm * (f * w) - (2 * UNIT * w) * n < f * w
    requires var kd := (2 * j) * (UNIT * ps);
             kd - WORD < x * pm <= kd + WORD
    ensures x * ((2 * UNIT * w) * n) == ((2 * j) * (UNIT * ps)) * (f * w)
  {
    var a, kd := f * w, (2 * j) * (UNIT * ps);
    var g := pm * a - (2 * UNIT * w) * n;
    var i := x * n - (j * ps) * f;
    Difference(x, pm, f, w, n, j, ps, a, kd, g, i);
    Bounded(x * pm - kd, a, x, g);
    NoMultiple(i, w, f, (x * pm - kd) * a - x * g);
  }

  lemma Difference(x: nat, pm: int, f: nat, w: nat, n: nat, j: int, ps: nat, a: nat, kd: int, g: int, i: int)
    requires a == f * w && kd == (2 * j) * (UNIT * ps) && g == pm * a - (2 * UNIT * w) * n && i == x * n - (j * ps) * f
    ensures (x * pm - kd) * a - x * g == (2 * UNIT * w) * i
    ensures x * ((2 * UNIT * w) * n) - kd * a == (2 * UNIT * w) * i
  {
    var v := 2 * UNIT * w;
    assert kd * a == v * ((j * ps) * f) by { Factors(j, ps, f, w); }
    assert x * (v * n) == v * (x * n);
    assert v * i == v * (x * n) - v * ((j * ps) * f);
    assert (x * pm - kd) * a - x * g == x * (v * n) - kd * a by { Eliminate(x, pm, kd, a, v * n); }
  }

  lemma Eliminate(x: int, pm: int, kd: int, a: int, vn: int)
    ensures (x * pm - kd) * a - x * (pm * a - vn) == x * vn - kd * a
  {
    assert (x * pm) * a == x * (pm * a);
  }

  lemma Factors(j: int, ps: int, f: int, w: int)
    ensures ((2 * j) * (UNIT * ps)) * (f * w) == (2 * UNIT * w) * ((j * ps) * f)
  {
    assert (j * ps) * (f * w) == w * ((j * ps) * f);
    assert (2 * j) * (UNIT * ps) == 2 * UNIT * (j * ps);
  }

  lemma Bounded(y: int, a: nat, x: nat, g: nat)
    requires -WORD < y <= WORD && a >= 1 && x < WORD && g < a
    ensures -(2 * WORD) * a < y * a - x * g < (2 * WORD) * a
  {
    Monotone(1 - WORD, y, a);
    Monotone(y, WORD, a);
    MulBound(x, WORD - 1, g);
    Monotone(g, a, WORD - 1);
    assert (WORD - 1) * g == g * (WORD - 1) && (WORD - 1) * a == a * (WORD - 1);
    Collect(y * a, x * g, (WORD - 1) * g, a);
  }

  lemma Monotone(a: int, b: int, c: nat)
    requires a <= b
    ensures a * c <= b * c
  {
    assert (b - a) * c >= 0;
  }

  lemma Collect(ya: int, xg: int, wg: int, a: int)
    requires (1 - WORD) * a <= ya <= WORD * a && 0 <= xg <= wg <= (WORD - 1) * a && a >= 1
    ensures -(2 * WORD) * a < ya - xg < (2 * WORD) * a
  {
  }

  lemma NoMultiple(i: int, w: nat, f: nat, z: int)
    requires w >= 1 && f <= WORD && z == (2 * UNIT * w) * i && -(2 * WORD) * (f * w) < z < (2 * WORD) * (f * w)
    ensures i == 0
  {
    assert f * w <= WORD * w by { assert (WORD - f) * w >= 0; }
    assert -(2 * UNIT * w) < (2 * UNIT * w) * i < 2 * UNIT * w;
    if i >= 1 {
      MulAtLeast(i, 2 * UNIT * w);
    } else if i <= -1 {
      MulAtLeast(-i, 2 * UNIT * w);
    }
  }

  // A product near a multiple that it divides exactly is that multiple.
  lemma SmallServes(x: Word, c: Scaler, p: int)
    requires -27 <= p < 0 && RoundedUp(Bits128(c), p) && c.s >= 0
    ensures !Misses(Product(x, c), Weight(c.s), Prod(x as real, Mantissa(p)))
  {
    hide Mantissa, Weight, Product, Bits128, Near, Prod, Pow2, Pow5, Pow10, Log2Pow10;
    var t := -p;
    var n := InverseMantissa(t);
    Pow10Factors(t);
    Pow5Small(t);
    ProductIs(x, c);
    var e := Prod(x as real, Mantissa(p));
    forall k: int | Near(Product(x, c), k, Weight(c.s)) && k % 2 == 0
      ensures e == (k * Weight(c.s)) as real
    {
      Integral(Bits128(c), Pow10(t), Pow2(127 - Log2Pow10(p)), Mantissa(p));
      SmallNear(x, Bits128(c), Pow5(t), Pow2(t), Pow2(n), k / 2, c.s);
      Exactly(x, Mantissa(p), Pow10(t), Pow2(127 - Log2Pow10(p)), k * Weight(c.s));
    }
  }

  lemma SmallNear(x: Word, pm: int, f: nat, w: nat, n: nat, j: int, s: nat)
    requires f <= WORD && w >= 1 && 0 <= pm * (f * w) - (2 * UNIT * w) * n < f * w && Near(x * pm, 2 * j, Weight(s))
    ensures x * ((2 * UNIT * w) * n) == ((2 * j) * Weight(s)) * (f * w)
  {
    Coincides(x, pm, f, w, n, j, Pow2(s));
  }

  // The rounding error of the row, in units of 1 / a.
  lemma Integral(pm: int, a: nat, n: nat, y: real)
    requires (pm - 1) as real < y <= pm as real && a >= 1 && Prod(y, a as real) == n as real
    ensures 0 <= pm * a - n < a
  {
    CastMul(pm, a);
    CastMul(pm - 1, a);
    Bracket((pm - 1) as real, y, pm as real, a as real);
    assert ((pm - 1) * a) as real < n as real <= (pm * a) as real;
    assert (pm - 1) * a == pm * a - a;
  }

  lemma Bracket(lo: real, y: real, hi: real, a: real)
    requires lo < y <= hi && a > 0.0
    ensures lo * a < Prod(y, a) <= hi * a
  {
    assert (y - lo) * a > 0.0 && (hi - y) * a >= 0.0;
  }

  lemma Exactly(x: nat, y: real, a: nat, n: nat, kd: int)
    requires Prod(y, a as real) == n as real && x * n == kd * a && a >= 1
    ensures Prod(x as real, y) == kd as real
  {
    CastMul(x, n);
    CastMul(kd, a);
    SameProduct(x as real, y, a as real, n as real, kd as real);
  }

  lemma SameProduct(x: real, y: real, a: real, n: real, kd: real)
    requires Prod(y, a) == n && x * n == kd * a && a > 0.0
    ensures Prod(x, y) == kd
  {
    var z := x * y;
    assert z * a == x * (y * a) == kd * a;
    AtMost(z, a, kd);
    AtMost(kd, a, z);
  }

  /**
   For the rows and the shifts that the printing uses, and a significand of 53 bits, the exact product is never missed.
   */
  lemma RowServes(x: Word, c: Scaler, p: int)
    requires -307 <= p <= 344 && RoundedUp(Bits128(c), p) && x > 0 && x % 2048 == 0 && c.s >= 1
    ensures !Misses(Product(x, c), Weight(c.s), Prod(x as real, Mantissa(p)))
  {
    hide RoundedUp, Misses, Bits128;
    if p < -27 || p > LAST_EXACT {
      Certificates.TableClear(p);
      ClearServes(x, c, p);
    } else if p < 0 {
      SmallServes(x, c, p);
    } else {
      ExactServes(x, c, p);
    }
  }

  /**
   uscale returns unround(x * 2^e * 10^p) for the significands of binary64 numbers, in the rows that the printing uses.
   */
  lemma UScaleServes(u: Word, x: Word, c: Scaler, e: int, p: int)
    requires -307 <= p <= 344 && RoundedUp(Bits128(c), p) && x > 0 && x % 2048 == 0
    requires 1 <= c.s && c.s == -(e + Log2Pow10(p) + 3) && IsScaled(u, Product(x, c), Weight(c.s))
    ensures u == Unround(Scaled(x, e, p))
  {
    hide Unround, Scaled, Prod, Log2Pow10, IsScaled, Product, Weight, RoundedUp, Misses, Mantissa;
    RowServes(x, c, p);
    ScaledWhen(u, x, c, e, p);
  }

  /** In the exact rows it does so for every 64-bit significand. */
  lemma UScaleExact(u: Word, x: Word, c: Scaler, e: int, p: nat)
    requires p <= LAST_EXACT && RoundedUp(Bits128(c), p)
    requires 0 <= c.s && c.s == -(e + Log2Pow10(p) + 3) && IsScaled(u, Product(x, c), Weight(c.s))
    ensures u == Unround(Scaled(x, e, p))
  {
    hide Unround, Scaled, Prod, Log2Pow10, IsScaled, Product, Weight, RoundedUp, Misses, Mantissa;
    ExactServes(x, c, p);
    ScaledWhen(u, x, c, e, p);
  }

  /** A row, with a left-justified significand of 64 bits, on which uscale is not unround(x * 2^e * 10^p). */
  const WIDE: Word := 0xd2be_41fa_c914_13d9
  const ROW44: Scaler := Scaler(0x8f7e_32ce_7bea_5c70, 0x1b7d_ffdc_5e00_0000, 5)

  // 10^44 fits in 128 bits, so the row is exact.
  lemma Mantissa44()
    ensures Mantissa(44) == Bits128(ROW44) as real
  {
    assert Log2Pow10(44) == 146 && Two(0) == 1.0;
    hide Log2Pow10, RPow, Prod, Two, Ten, Pow2, Pow10;
    Powers44();
    TenIsPow10(44);
    TwoIsPow2(19);
    TwoAdd(-19, 19, 0);
    Halved(Mantissa(44), Ten(44), Two(-19), Bits128(ROW44) as real);
  }

  lemma Powers44()
    ensures Pow10(44) == Bits128(ROW44) * 0x8_0000 && Pow2(19) == 0x8_0000
  {
    assert Pow10(11) == 100_000_000_000;
    hide Pow2, Pow10;
    Pow10Add(11, 11);
    Pow10Add(22, 22);
    Pow2Values();
    Pow2Small();
    Pow2Add(16, 3);
  }

  lemma Halved(y: real, t: real, b: real, pm: real)
    requires y == Prod(t, b) && Prod(b, 524288.0) == 1.0 && t == pm * 524288.0
    ensures y == pm
  {
    assert y == pm * (524288.0 * b);
  }

  lemma NearlyMultiple()
    ensures Near(Product(WIDE, ROW44), 265995307200675022, Weight(5))
    ensures Product(WIDE, ROW44) != 265995307200675022 * Weight(5)
  {
    assert Pow2(5) == 32;
  }

  lemma UScaleDiffers(u: Word)
    requires IsScaled(u, Product(WIDE, ROW44), Weight(5))
    ensures RoundedUp(Bits128(ROW44), 44) && u != Unround(Scaled(WIDE, -154, 44))
  {
    assert Log2Pow10(44) == 146;
    Mantissa44();
    NearlyMultiple();
    hide Mantissa, Scaled, Unround, IsScaled, Log2Pow10, Near, Product, Weight;
    ProductIs(WIDE, ROW44);
    CastMul(WIDE, Bits128(ROW44));
    ScaledWhen(u, WIDE, ROW44, -154, 44);
  }
}
