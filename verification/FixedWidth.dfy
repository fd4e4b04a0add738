/** The decimal form of a binary64 number with a given number of digits. */
module FixedWidth {
  import opened Words
  import opened Machine
  import opened Powers
  import opened Unrounded
  import opened Scaling
  import opened Decimal
  import opened Binary64
  import opened NearMiss
  import Logarithms
  import TableRows

  // ----- magnitudes -----

  lemma ProdMono(a: real, b: real, c: real)
    requires c > 0.0
    ensures a <= b ==> Prod(a, c) <= Prod(b, c)
    ensures a < b ==> Prod(a, c) < Prod(b, c)
  {
    if a <= b {
      assert (b - a) * c >= 0.0;
    }
    if a < b {
      assert (b - a) * c > 0.0;
    }
  }

  lemma TenAdd(x: int, y: int, z: int)
    requires z == x + y
    ensures Prod(Ten(x), Ten(y)) == Ten(z)
  {
    RPowAdd(10.0, x, y);
  }

  lemma TwoNext(x: int)
    ensures Two(x + 1) == 2.0 * Two(x)
  {
    RPowStep(2.0, x, x + 1);
  }

  lemma TenNext(x: int)
    ensures Ten(x + 1) == 10.0 * Ten(x)
  {
    RPowStep(10.0, x, x + 1);
  }

  lemma Doubled(a: real, c: real)
    ensures Prod(2.0 * a, c) == 2.0 * Prod(a, c)
  {
  }

  // The value of a left-justified significand, between powers of two.
  lemma Magnitude(m: Word, e: int)
    requires m >= HALF
    ensures Two(e + 63) <= Prod(m as real, Two(e)) < 2.0 * Two(e + 63)
  {
    hide Two, Prod;
    HiddenBit();
    TwoIsPow2(63);
    TwoAdd(63, e, e + 63);
    TwoIsPow2(64);
    TwoAdd(64, e, e + 64);
    TwoNext(e + 63);
    ProdMono(HALF as real, m as real, Two(e));
    ProdMono(m as real, WORD as real, Two(e));
  }

  // Scaled by the chosen power of ten it has n digits, or a few more units.
  lemma ScaledRange(m: Word, e: int, n: nat, p: int)
    requires m >= HALF && Logarithms.FloorLog(e + 63) && p == n - 1 - Log10Pow2(e + 63) && n >= 1
    ensures Pow10(n - 1) as real <= Scaled(m, e, p) < 2.0 * Pow10(n) as real
  {
    var k, v := Log10Pow2(e + 63), Prod(m as real, Two(e));
    Magnitude(m, e);
    assert Scaled(m, e, p) == Prod(v, Ten(p));
    assert Ten(k) <= Two(e + 63) < Ten(k + 1);
    hide Two, Ten, Prod, Pow10, Log10Pow2, Scaled;
    ProdMono(Ten(k), v, Ten(p));
    ProdMono(v, 2.0 * Ten(k + 1), Ten(p));
    Doubled(Ten(k + 1), Ten(p));
    TenAdd(k, p, n - 1);
    TenAdd(k + 1, p, n);
    TenIsPow10(n - 1);
    TenIsPow10(n);
  }

  // ----- rounding to n digits -----

  lemma RoundEvenBounds(v: real, lo: int)
    ensures v >= lo as real ==> RoundEven(v) >= lo
    ensures v < lo as real ==> RoundEven(v) <= lo
    ensures v >= lo as real - 0.25 ==> RoundEven(v) >= lo
    ensures RoundEven(v) >= lo ==> v >= lo as real - 0.5
  {
  }

  lemma Unwrapped(v: real, bound: int)
    requires 0.0 <= v < 2.0 * bound as real && bound <= 1_000_000_000_000_000_000
    ensures Unround(v) + 2 < WORD
  {
    UnroundMeans(v);
  }

  lemma TenPowers(n: nat)
    requires 1 <= n <= 18
    ensures 1 <= Pow10(n - 1) <= 100_000_000_000_000_000 && Pow10(n) == 10 * Pow10(n - 1)
  {
    var t := Pow10(n - 1);
    assert Pow10(n) == 10 * t;
    hide Pow10;
    TableIsPow10(n);
    TableBound(n);
  }

  lemma TableBound(n: nat)
    requires n <= 18
    ensures Pow10Table(n) <= 1_000_000_000_000_000_000
  {
  }

  // Rounding v, between a and 20 * a, to an integer.
  lemma FirstRounding(v: real, a: int, u: Word)
    requires 1 <= a <= 100_000_000_000_000_000 && a as real <= v < (20 * a) as real && u == Unround(v)
    ensures Round(u) == RoundEven(v) && RoundEven(v) >= a
  {
    hide Unround, Round, RoundEven;
    Unwrapped(v, 10 * a);
    RoundExact(v);
    RoundEvenBounds(v, a);
  }

  // When that has a digit too many, v / 10 is rounded instead, from the unrounded form of v.
  lemma SecondRounding(v: real, a: int, u: Word)
    requires 1 <= a <= 100_000_000_000_000_000 && a as real <= v < (20 * a) as real && u == Unround(v)
    ensures v / 10.0 >= 0.0 && Round(Div(u, 10)) == RoundEven(v / 10.0)
    ensures RoundEven(v) >= 10 * a ==> a <= RoundEven(v / 10.0) < 10 * a
  {
    hide Unround, Round, RoundEven, Div;
    Unwrapped(v, 10 * a);
    DivExact(v, 10);
    var w := v / 10.0;
    assert w < (2 * a) as real;
    Unwrapped(w, a);
    RoundExact(w);
    RoundEvenBounds(v, 10 * a);
    RoundEvenBounds(w, a);
    RoundEvenBounds(w, 2 * a);
  }

  lemma ExponentRange(b: Word, m: Word, e: int)
    requires Finite(b) && Unpacked(b, m, e)
    ensures -1148 <= e <= 960
  {
    hide Prod, Two, ValueOf, Pow2;
  }

  // The chosen row is in the table, and the shift is a shift.
  lemma RowInRange(e: int, n: nat)
    requires -1148 <= e <= 960 && 1 <= n <= 18
    ensures var p := n - 1 - Log10Pow2(e + 63);
            -307 <= p <= 344 && 1 <= -(e + Log2Pow10(p) + 3) < 64
  {
  }

  lemma ScaledNext(m: nat, e: int, p: int)
    ensures Scaled(m, e, p) / 10.0 == Scaled(m, e, p - 1)
  {
    TenNext(p - 1);
    var v := Prod(m as real, Two(e));
    hide Ten, Two;
    assert Prod(v, 10.0 * Ten(p - 1)) == 10.0 * Prod(v, Ten(p - 1));
  }

  /** A row holds 10^p, scaled to 128 bits and rounded up, in two words. */
  ghost predicate IsRow(hi: Word, lo: Word, p: int) {
    hi >= HALF && RoundedUp(hi * WORD - lo, p)
  }

  /** The table of powers of ten: 696 rows, from 10^-348 to 10^347. */
  ghost predicate PowerTable(tab: seq<Word>) {
    && |tab| == 2 * (POW10_MAX - POW10_MIN + 1)
    && forall i :: 0 <= i <= POW10_MAX - POW10_MIN ==> IsRow(tab[2 * i], tab[2 * i + 1], i + POW10_MIN)
  }

  /**
   f as d * 10^q with n digits, 1 <= n <= 18: d is f / 10^q rounded once, to the nearest integer, ties to even
   (section 4.3.1 of IEEE 754-2019), and q is the smallest exponent for which that has no more than n digits.
   */
  method FixedWidth(f: Word, n: nat, tab: seq<Word>) returns (d: Word, q: int)
    requires Finite(f) && PowerTable(tab) && n >= 1
    ensures n > 18 ==> d == 0 && q == 0
    ensures -344 <= q <= 308
    ensures n <= 18 ==> Pow10(n - 1) <= d < Pow10(n) && d == RoundEven(Prod(ValueOf(f), Ten(-q)))
    ensures n <= 18 ==> RoundEven(Prod(ValueOf(f), Ten(1 - q))) >= Pow10(n)
  {
    hide Pow10, Unround, Round, RoundEven, Div, Scaled, Prod, Ten, Two, Log10Pow2, Log2Pow10, Unpacked, ValueOf;
    hide IsScaled, Product, Weight, RoundedUp;
    if n > 18 {
      return 0, 0;
    }
    var m, e := Unpack64(f);
    ExponentRange(f, m, e);
    RowInRange(e, n);
    var p := n - 1 - Log10Pow2(e + 63);
    var l := Log2Pow10(p);
    var c := Prescale(e, p, l, tab);
    TableRow(e, p, l, tab);
    var u := UScale(m, c);
    d := Round(u);
    Logarithms.LogIsFloor(e + 63);
    GoodScale(f, m, e, n, p, c, u);
    TenPowers(n);
    TableIsPow10(n);
    q := -p;
    if d >= Pow10Table(n) {
      d := Round(Div(u, 10));
      p := p - 1;
      q := -p;
    }
  }

  lemma TableRow(e: int, p: int, l: int, tab: seq<Word>)
    requires PowerTable(tab) && POW10_MIN <= p <= POW10_MAX
    ensures var c := Prescale(e, p, l, tab); c.hi >= HALF && c.s == -(e + l + 3) && RoundedUp(Bits128(c), p)
  {
    var i := p - POW10_MIN;
    hide RoundedUp;
    assert IsRow(tab[2 * i], tab[2 * i + 1], i + POW10_MIN);
  }

  // The significand has at most 53 bits.
  lemma LowBitsZero(f: Word, m: Word, e: int)
    requires Unpacked(f, m, e)
    ensures m >= HALF && m % 2048 == 0
  {
    hide Prod, Two, ValueOf, Pow2;
    if Field(f) == 0 {
      var w := Pow2(-1085 - e);
      assert m == 2048 * (Fraction(f) * w);
    }
  }

  // The two roundings are those of f / 10^q.
  lemma GoodScale(f: Word, m: Word, e: int, n: nat, p: int, c: Scaler, u: Word)
    requires 1 <= n <= 18 && Unpacked(f, m, e) && p == n - 1 - Log10Pow2(e + 63) && Logarithms.FloorLog(e + 63)
    requires -307 <= p <= 344 && RoundedUp(Bits128(c), p)
    requires 1 <= c.s && c.s == -(e + Log2Pow10(p) + 3) && IsScaled(u, Product(m, c), Weight(c.s))
    ensures Round(u) == RoundEven(Prod(ValueOf(f), Ten(p))) >= Pow10(n - 1)
    ensures Round(u) >= Pow10(n) ==>
              Pow10(n - 1) <= Round(Div(u, 10)) < Pow10(n)
                && Round(Div(u, 10)) == RoundEven(Prod(ValueOf(f), Ten(p - 1)))
    ensures RoundEven(Prod(ValueOf(f), Ten(p + 1))) >= Pow10(n)
  {
    hide Pow10, Unround, Round, RoundEven, Div, Scaled, Prod, Ten, Two, Log10Pow2, Log2Pow10, Unpacked, ValueOf;
    hide IsScaled, Product, Weight, Logarithms.FloorLog, RoundedUp;
    ScaledValue(f, m, e, p);
    ScaledValue(f, m, e, p - 1);
    LowBitsZero(f, m, e);
    TableRows.UScaleServes(u, m, c, e, p);
    ScaledRange(m, e, n, p);
    TenPowers(n);
    ScaledNext(m, e, p);
    BothRoundings(Scaled(m, e, p), Pow10(n - 1), u);
    ScaledValue(f, m, e, p + 1);
    ScaledNext(m, e, p + 1);
    RoundEvenBounds(Scaled(m, e, p + 1), Pow10(n));
  }

  lemma BothRoundings(v: real, a: int, u: Word)
    requires 1 <= a <= 100_000_000_000_000_000 && a as real <= v < 2.0 * (10 * a) as real && u == Unround(v)
    ensures Round(u) == RoundEven(v) >= a
    ensures v / 10.0 >= 0.0 && Round(Div(u, 10)) == RoundEven(v / 10.0)
    ensures Round(u) >= 10 * a ==> a <= Round(Div(u, 10)) < 10 * a
  {
    hide Unround, Round, RoundEven, Div;
    FirstRounding(v, a, u);
    SecondRounding(v, a, u);
  }

  /** There is one such exponent, and so one such d: with a greater one there are too few digits. */
  lemma OneExponent(f: Word, n: nat, q: int, x: int)
    requires Finite(f) && n >= 1
    requires RoundEven(Prod(ValueOf(f), Ten(-q))) < Pow10(n) <= RoundEven(Prod(ValueOf(f), Ten(1 - q)))
    ensures x < q ==> RoundEven(Prod(ValueOf(f), Ten(-x))) >= Pow10(n)
    ensures x > q ==> RoundEven(Prod(ValueOf(f), Ten(1 - x))) < Pow10(n)
  {
    hide Pow10, RoundEven, Prod, Ten, ValueOf;
    ValuePositive(f);
    if x < q {
      RoundedMono(ValueOf(f), 1 - q, -x);
    } else if x > q {
      RoundedMono(ValueOf(f), 1 - x, -q);
    }
  }

  lemma ValuePositive(f: Word)
    requires Finite(f)
    ensures ValueOf(f) > 0.0
  {
    hide Two;
    var k := if Field(f) == 0 then -1074 else Field(f) - 1075;
    ProdMono(0.0, (if Field(f) == 0 then Fraction(f) else HIDDEN + Fraction(f)) as real, Two(k));
  }

  lemma RoundedMono(v: real, a: int, b: int)
    requires v > 0.0 && a <= b
    ensures 0.0 <= Prod(v, Ten(a)) <= Prod(v, Ten(b)) && RoundEven(Prod(v, Ten(a))) <= RoundEven(Prod(v, Ten(b)))
  {
    Logarithms.TenMono(a, b);
    hide Ten;
    ProdMono(Ten(a), Ten(b), v);
    ProdMono(0.0, Ten(a), v);
    assert Prod(v, Ten(a)) == Prod(Ten(a), v) && Prod(v, Ten(b)) == Prod(Ten(b), v);
  }

  lemma ScaledValue(f: Word, m: Word, e: int, p: int)
    requires Unpacked(f, m, e)
    ensures m >= HALF && Scaled(m, e, p) == Prod(ValueOf(f), Ten(p))
  {
    hide Prod, Ten, Two, ValueOf;
  }
}
