/**
 The integer estimate of the decimal logarithm of a power of two is its floor, for every exponent of a binary64 number.
 */
module Logarithms {
  import opened Words
  import opened Powers
  import opened Decimal

  /** The documented meaning of log10Pow2 at x: the integer part of the decimal logarithm of 2^x. */
  predicate FloorLog(x: int) {
    Ten(Log10Pow2(x)) <= Two(x) < Ten(Log10Pow2(x) + 1)
  }

  /** 2^x / 10^n. */
  function Ratio(x: int, n: int): (r: real)
    ensures r > 0.0
  {
    Prod(Two(x), Ten(-n))
  }

  lemma RatioAdd(x: int, n: int, y: int, m: int)
    ensures Ratio(x + y, n + m) == Prod(Ratio(x, n), Ratio(y, m))
  {
    RPowAdd(2.0, x, y);
    RPowAdd(10.0, -n, -m);
    assert -(n + m) == -n + -m;
    hide RPow;
    Exchanged(Two(x), Two(y), Ten(-n), Ten(-m));
  }

  lemma Exchanged(a: real, b: real, c: real, d: real)
    ensures Prod(Prod(a, b), Prod(c, d)) == Prod(Prod(a, c), Prod(b, d))
  {
  }

  // Powers of a ratio lie on the same side of 1 as the ratio.
  lemma {:induction false} RatioPower(x: int, n: int, k: nat)
    requires k >= 1
    ensures Ratio(x, n) > 1.0 <==> Ratio(Times(x, k), Times(n, k)) > 1.0
    ensures Ratio(x, n) < 1.0 <==> Ratio(Times(x, k), Times(n, k)) < 1.0
  {
    hide Ratio;
    if k > 1 {
      RatioPower(x, n, k - 1);
      assert Times(x, k) == Times(x, k - 1) + x && Times(n, k) == Times(n, k - 1) + n;
      RatioAdd(Times(x, k - 1), Times(n, k - 1), x, n);
      SameSide(Ratio(Times(x, k - 1), Times(n, k - 1)), Ratio(x, n));
    } else {
      assert Times(x, 1) == x && Times(n, 1) == n;
    }
  }

  lemma SameSide(a: real, b: real)
    requires a > 0.0 && b > 0.0
    ensures a > 1.0 && b > 1.0 ==> Prod(a, b) > 1.0
    ensures a < 1.0 && b < 1.0 ==> Prod(a, b) < 1.0
    ensures a == 1.0 && b == 1.0 ==> Prod(a, b) == 1.0
  {
    assert a > 1.0 && b > 1.0 ==> (a - 1.0) * b > 0.0;
    assert a < 1.0 && b < 1.0 ==> (1.0 - a) * b > 0.0;
  }

  // The ratio of the opposite exponents is the inverse.
  lemma RatioOpposite(x: int, n: int)
    ensures Ratio(x, n) > 1.0 ==> Ratio(-x, -n) < 1.0
    ensures Ratio(x, n) < 1.0 ==> Ratio(-x, -n) > 1.0
  {
    RatioAdd(x, n, -x, -n);
    assert Ratio(0, 0) == 1.0;
    hide Ratio;
    SameSide(Ratio(x, n), Ratio(-x, -n));
    Opposite(Ratio(x, n), Ratio(-x, -n));
  }

  lemma Opposite(a: real, b: real)
    requires a > 0.0 && b > 0.0 && Prod(a, b) == 1.0
    ensures a > 1.0 <==> b < 1.0
    ensures a < 1.0 <==> b > 1.0
  {
    if a > 1.0 {
      assert (a - 1.0) * b > 0.0;
    } else if a < 1.0 {
      assert (1.0 - a) * b > 0.0;
    }
  }

  lemma {:induction false} TenMono(i: int, j: int)
    requires i <= j
    ensures Ten(i) <= Ten(j)
    decreases j - i
  {
    if i < j {
      TenMono(i, j - 1);
      RPowStep(10.0, j - 1, j);
    }
  }

  lemma RatioMono(x: int, n: int, m: int)
    requires n <= m
    ensures Ratio(x, n) >= Ratio(x, m)
  {
    TenMono(-m, -n);
    Scaled(Two(x), Ten(-m), Ten(-n));
  }

  lemma Scaled(a: real, b: real, c: real)
    requires a > 0.0 && b <= c
    ensures Prod(a, b) <= Prod(a, c)
  {
    assert a * (c - b) >= 0.0;
  }

  // ----- two fractions near the logarithm of 2 -----

  predicate Lies(x: int, n: int, lo: real, hi: real) { lo <= Ratio(x, n) <= hi }

  lemma Join(x: int, n: int, lo: real, hi: real, y: int, m: int, lo2: real, hi2: real, lo3: real, hi3: real)
    requires Lies(x, n, lo, hi) && Lies(y, m, lo2, hi2) && lo > 0.0 && lo2 > 0.0
    requires lo3 <= lo * lo2 && hi * hi2 <= hi3
    ensures Lies(x + y, n + m, lo3, hi3)
  {
    RatioAdd(x, n, y, m);
    hide Ratio;
    Bounds(Ratio(x, n), Ratio(y, m), lo, hi, lo2, hi2);
  }

  lemma Bounds(a: real, b: real, lo: real, hi: real, lo2: real, hi2: real)
    requires 0.0 < lo <= a <= hi && 0.0 < lo2 <= b <= hi2
    ensures lo * lo2 <= Prod(a, b) <= hi * hi2
  {
    assert (a - lo) * b >= 0.0 && lo * (b - lo2) >= 0.0;
    assert (hi - a) * b >= 0.0 && hi * (hi2 - b) >= 0.0;
  }

  lemma FirstRatios()
    ensures Ratio(10, 3) == 1.024 && Ratio(3, 1) == 0.8
  {
    assert Two(2) == 4.0 && Two(3) == 8.0 && Two(5) == 32.0;
    assert Two(10) == 1024.0 by {
      RPowAdd(2.0, 5, 5);
    }
    assert Ten(-1) == 0.1 && Ten(-2) == 0.01 && Ten(-3) == 0.001;
  }

  // 10^205 < 2^681 and 2^485 < 10^146.
  lemma NearLog()
    ensures Ratio(681, 205) > 1.0 && Ratio(485, 146) < 1.0
  {
    FirstRatios();
    hide Ratio;
    Join(10, 3, 1.024, 1.024, 10, 3, 1.024, 1.024, 1.048576, 1.048576);
    Join(20, 6, 1.048576, 1.048576, 20, 6, 1.048576, 1.048576, 1.0995116, 1.0995117);
    Join(40, 12, 1.0995116, 1.0995117, 40, 12, 1.0995116, 1.0995117, 1.2089257, 1.2089260);
    Join(80, 24, 1.2089257, 1.2089260, 10, 3, 1.024, 1.024, 1.2379399, 1.2379403);
    Join(90, 27, 1.2379399, 1.2379403, 3, 1, 0.8, 0.8, 0.9903519, 0.9903523);
    Join(93, 28, 0.9903519, 0.9903523, 93, 28, 0.9903519, 0.9903523, 0.9807968, 0.9807977);
    Join(186, 56, 0.9807968, 0.9807977, 10, 3, 1.024, 1.024, 1.0043359, 1.0043369);
    Join(196, 59, 1.0043359, 1.0043369, 196, 59, 1.0043359, 1.0043369, 1.0086905, 1.0086927);
    Join(392, 118, 1.0086905, 1.0086927, 93, 28, 0.9903519, 0.9903523, 0.99, 0.9990);
    Join(392, 118, 1.0086905, 1.0086927, 196, 59, 1.0043359, 1.0043369, 1.013, 1.0132);
    Join(588, 177, 1.013, 1.0132, 93, 28, 0.9903519, 0.9903523, 1.003, 2.0);
  }

  // n / x is on one side of log10(2) when p / q, on the same side, is between them.
  lemma Above(x: int, n: int, q: int, p: int)
    requires q >= 1 && Ratio(q * x, p * x) > 1.0 && q * n <= p * x
    ensures Ratio(x, n) > 1.0
  {
    hide Ratio;
    RatioMono(q * x, q * n, p * x);
    RatioPower(x, n, q);
    assert Times(x, q) == q * x && Times(n, q) == q * n;
  }

  lemma Below(x: int, n: int, q: int, p: int)
    requires q >= 1 && Ratio(q * x, p * x) < 1.0 && q * n >= p * x
    ensures Ratio(x, n) < 1.0
  {
    hide Ratio;
    RatioMono(q * x, p * x, q * n);
    RatioPower(x, n, q);
    assert Times(x, q) == q * x && Times(n, q) == q * n;
  }

  lemma Multiple(x: int)
    ensures x > 0 ==> Ratio(681 * x, 205 * x) > 1.0 && Ratio(485 * x, 146 * x) < 1.0
    ensures x < 0 ==> Ratio(681 * x, 205 * x) < 1.0 && Ratio(485 * x, 146 * x) > 1.0
  {
    NearLog();
    hide Ratio;
    var k := if x < 0 then -x else x;
    if k > 0 {
      RatioPower(681, 205, k);
      RatioPower(485, 146, k);
      assert Times(681, k) == 681 * k && Times(205, k) == 205 * k && Times(485, k) == 485 * k
        && Times(146, k) == 146 * k;
      RatioOpposite(681 * k, 205 * k);
      RatioOpposite(485 * k, 146 * k);
      assert x < 0 ==> -(681 * k) == 681 * x && -(205 * k) == 205 * x && -(485 * k) == 485 * x && -(146 * k) == 146 * x;
    }
  }

  // The estimate lies between the two fractions: they and it have no integer between their multiples.
  lemma Estimate(x: int)
    requires -1124 <= x <= 1124
    ensures var n := Log10Pow2(x);
            && (x > 0 ==> 681 * n <= 205 * x && 485 * (n + 1) >= 146 * x)
            && (x < 0 ==> 485 * n <= 146 * x && 681 * (n + 1) >= 205 * x)
  {
    var n := Log10Pow2(x);
    assert 0x4_0000 * n <= 78913 * x < 0x4_0000 * (n + 1);
  }

  /** The estimate is right for every exponent of a binary64 number, and somewhat beyond. */
  lemma LogIsFloor(x: int)
    requires -1124 <= x <= 1124
    ensures FloorLog(x)
  {
    var n := Log10Pow2(x);
    Estimate(x);
    Multiple(x);
    if x == 0 {
      assert Ten(0) == 1.0 && Two(0) == 1.0 && Ten(1) == 10.0;
    } else {
      hide Ratio, Log10Pow2;
      if x > 0 {
        Above(x, n, 681, 205);
        Below(x, n + 1, 485, 146);
      } else {
        Above(x, n, 485, 146);
        Below(x, n + 1, 681, 205);
      }
      Compared(x, n);
      Compared(x, n + 1);
    }
  }

  lemma Compared(x: int, n: int)
    ensures Ratio(x, n) > 1.0 ==> Ten(n) <= Two(x)
    ensures Ratio(x, n) < 1.0 ==> Two(x) < Ten(n)
  {
    RPowAdd(10.0, n, -n);
    assert n + -n == 0 && Ten(0) == 1.0;
    hide RPow;
    Sides(Two(x), Ten(n), Ten(-n));
  }

  lemma Sides(a: real, b: real, c: real)
    requires a > 0.0 && b > 0.0 && c > 0.0 && Prod(b, c) == 1.0
    ensures Prod(a, c) > 1.0 ==> b <= a
    ensures Prod(a, c) < 1.0 ==> a < b
  {
    if a < b {
      assert (b - a) * c > 0.0;
    } else {
      assert (a - b) * c >= 0.0;
    }
  }
}
