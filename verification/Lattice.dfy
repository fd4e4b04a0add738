/**
 How close the multiples of a row of the table come to the multiples of a power of two. A pair of vectors that spans the
 lattice of the pairs (m, residue of m) bounds the residues from below.
 */
module Lattice {
  import opened Words
  import opened Machine
  import opened Powers
  import opened Unrounded
  import opened Scaling
  import opened NearMiss

  const LIMIT: int := 0x20_0000_0000_0000   // 2^53

  function Residue(m: int, pm: int, j: int): int { m * pm - j * 0x80_0000_0000_0000_0000_0000_0000_0000 }

  /** No multiple of pm by a 53-bit number is within 2^53 of a multiple of 2^119. */
  ghost predicate Clear(pm: int) {
    forall m: int, j: int :: 0 < m < LIMIT ==> !(-LIMIT <= Residue(m, pm, j) <= LIMIT)
  }

  ghost predicate RowClear(p: int) {
    forall pm: int :: RoundedUp(pm, p) ==> Clear(pm)
  }

  // ----- two vectors -----

  /**
   (q1, j1) and (q2, j2) span the integer vectors, the first has a residue above t modulo d and the second one below -t.
   */
  lemma Spanned(x: int, d: int, t: int, q1: int, j1: int, q2: int, j2: int, m: int, j: int)
    requires q1 * j2 - q2 * j1 == 1 && q1 >= 0 && q2 >= 0 && t >= 0
    requires q1 * x - j1 * d > t && j2 * d - q2 * x > t && 0 < m < q1 + q2
    ensures m * x - j * d > t || m * x - j * d < -t
  {
    var a, b := m * j2 - j * q2, j * q1 - m * j1;
    var r1, r2 := q1 * x - j1 * d, j2 * d - q2 * x;
    Coordinates(q1, j1, q2, j2, m, j, a, b);
    Combined(q1, j1, q2, j2, x, d, a, b, m, j);
    Outside(a, b, q1, q2, r1, r2, m, m * x - j * d, t);
  }

  // With coordinates of the same sign m would be too large or not positive.
  lemma Outside(a: int, b: int, q1: int, q2: int, r1: int, r2: int, m: int, r: int, t: int)
    requires m == a * q1 + b * q2 && r == a * r1 - b * r2 && 0 < m < q1 + q2
    requires q1 >= 0 && q2 >= 0 && r1 > t && r2 > t && t >= 0
    ensures r > t || r < -t
  {
    if a >= 1 && b >= 1 {
      MulAtLeast2(a, q1, 1);
      MulAtLeast2(b, q2, 1);
      assert false;
    } else if a >= 1 {
      MulAtLeast2(a, r1, 1);
      MulAtLeast2(-b, r2, 0);
    } else if b >= 1 {
      MulAtLeast2(b, r2, 1);
      MulAtLeast2(-a, r1, 0);
    } else {
      MulAtLeast2(-a, q1, 0);
      MulAtLeast2(-b, q2, 0);
      assert false;
    }
  }

  lemma MulAtLeast2(a: int, b: int, n: nat)
    requires a >= n && b >= 0 && n <= 1
    ensures a * b >= n * b
  {
    assert (a - n) * b >= 0;
    assert (a - n) * b == a * b - n * b;
  }

  lemma Coordinates(q1: int, j1: int, q2: int, j2: int, m: int, j: int, a: int, b: int)
    requires q1 * j2 - q2 * j1 == 1 && a == m * j2 - j * q2 && b == j * q1 - m * j1
    ensures a * q1 + b * q2 == m && a * j1 + b * j2 == j
  {
    var n := q1 * j2 - q2 * j1;
    assert a * q1 + b * q2 == m * n by {
      assert (m * j2 - j * q2) * q1 + (j * q1 - m * j1) * q2 == m * (j2 * q1) - m * (j1 * q2);
    }
    assert a * j1 + b * j2 == j * n by {
      assert (m * j2 - j * q2) * j1 + (j * q1 - m * j1) * j2 == j * (q1 * j2) - j * (q2 * j1);
    }
  }

  lemma Combined(q1: int, j1: int, q2: int, j2: int, x: int, d: int, a: int, b: int, m: int, j: int)
    requires a * q1 + b * q2 == m && a * j1 + b * j2 == j
    ensures m * x - j * d == a * (q1 * x - j1 * d) - b * (j2 * d - q2 * x)
  {
    assert m * x == (a * q1) * x + (b * q2) * x;
    assert j * d == (a * j1) * d + (b * j2) * d;
    assert a * (q1 * x - j1 * d) == (a * q1) * x - (a * j1) * d;
    assert b * (j2 * d - q2 * x) == (b * j2) * d - (b * q2) * x;
  }

  // ----- from a row that is known to 8 more bits to the next ten rows -----

  /** l is the binary logarithm of 10^p as the source computes it. */
  predicate IsLog(p: int, l: int) { 0 <= p * 108853 - 0x8000 * l < 0x8000 }

  lemma LogIs(p: int, l: int)
    requires IsLog(p, l)
    ensures Log2Pow10(p) == l
  {
  }

  /** x holds the mantissa of 10^p to about 136 bits, from below. */
  ghost predicate Approx(p: int, l: int, x: nat) {
    IsLog(p, l) && x as real <= 256.0 * Mantissa(p) <= x as real + 128.0
  }

  function Log2(s: nat): nat {
    match s
    case 1 => 0 case 2 => 1 case 4 => 2 case 8 => 3 case 16 => 4 case 32 => 5 case 64 => 6 case 128 => 7
    case 256 => 8 case 512 => 9 case 1024 => 10 case 2048 => 11 case 4096 => 12 case 8192 => 13 case 16384 => 14
    case 32768 => 15 case 65536 => 16 case 131072 => 17 case 262144 => 18 case 524288 => 19 case 1048576 => 20
    case 2097152 => 21 case 4194304 => 22 case 8388608 => 23 case 16777216 => 24
    case _ => 100
  }

  function Log5(f: nat): nat {
    match f
    case 1 => 0 case 5 => 1 case 25 => 2 case 125 => 3 case 625 => 4
    case 3125 => 5 case 15625 => 6 case 78125 => 7 case 390625 => 8 case 1953125 => 9 case 9765625 => 10
    case _ => 100
  }

  lemma {:induction false} Log2Is(s: nat)
    requires Log2(s) < 100
    ensures Pow2(Log2(s)) == s
  {
    if s > 1 {
      assert s % 2 == 0 && Log2(s) == Log2(s / 2) + 1;
      hide Log2;
      Log2Is(s / 2);
    }
  }

  lemma {:induction false} Log5Is(f: nat)
    requires Log5(f) < 100
    ensures f >= 1 && Pow10(Log5(f)) == f * Pow2(Log5(f))
  {
    Log5Step(f);
    hide Log5;
    if f > 1 {
      var g := f / 5;
      Log5Is(g);
      TenTimes(g, Pow2(Log5(g)));
    }
  }

  lemma Log5Step(f: nat)
    requires Log5(f) < 100
    ensures f >= 1 && (f == 1 ==> Log5(f) == 0) && (f > 1 ==> f == 5 * (f / 5) && Log5(f) == Log5(f / 5) + 1)
  {
  }

  lemma TenTimes(f: nat, w: nat)
    ensures 10 * (f * w) == (5 * f) * (2 * w)
  {
  }

  predicate Independent(x: nat, s: nat, q1: nat, j1: nat, q2: nat, j2: nat) {
    && q1 + q2 >= 0x20_0000_0000_0000 && q1 * j2 - q2 * j1 == 1
    && q1 * x - j1 * (0x8000_0000_0000_0000_0000_0000_0000_0000 * s) > 0x6000_0000_0000_0000 * s
    && j2 * (0x8000_0000_0000_0000_0000_0000_0000_0000 * s) - q2 * x > 0x6000_0000_0000_0000 * s
  }

  // The mantissa a few rows further on.
  lemma Further(p: int, l: int, i: nat, h: nat, f: nat, s: nat)
    requires Log2Pow10(p) == l && Log2Pow10(p + i) == l + i + h && Pow10(i) == f * Pow2(i) && Pow2(h) == s
    ensures Prod(Mantissa(p + i), s as real) == Prod(Mantissa(p), f as real)
  {
    hide Pow2, Pow10, RPow, Log2Pow10, Prod, Two, Ten;
    var a, b, c := Two(127 - l), Two(127 - (l + i + h)), Two(i + h);
    TenIsPow10(i);
    TwoIsPow2(i);
    TwoIsPow2(h);
    TwoAdd(i, h, i + h);
    TwoAdd(127 - (l + i + h), i + h, 127 - l);
    assert Ten(p + i) == Prod(Ten(p), Ten(i)) by { TenSum(p, i); }
    CastMul(f, Pow2(i));
    Cross(Ten(p), Ten(i), b, s as real, Two(i), f as real, c, a);
  }

  lemma TenSum(p: int, i: int)
    ensures Ten(p + i) == Prod(Ten(p), Ten(i))
  {
    RPowAdd(10.0, p, i);
  }

  lemma Cross(t: real, ti: real, b: real, s: real, w: real, f: real, c: real, a: real)
    requires ti == f * w && Prod(w, s) == c && Prod(b, c) == a
    ensures Prod(Prod(Prod(t, ti), b), s) == Prod(Prod(t, a), f)
  {
    assert ((t * (f * w)) * b) * s == (t * f) * (b * (w * s));
    assert (t * a) * f == (t * f) * a;
  }

  // A mantissa that is rounded up, in units of 1 / (256 * s), is a little above x * f.
  lemma Above(x: nat, f: nat, s: nat, pm: int, y: real, z: real)
    requires (pm - 1) as real < y <= pm as real && Prod(y, s as real) == Prod(z, f as real)
    requires x as real <= 256.0 * z <= x as real + 128.0 && f <= 2 * s
    ensures 0 <= 256 * (pm * s) - x * f <= 512 * s
  {
    hide Prod;
    AboveReal(x as real, f as real, s as real, pm as real, y, z);
    ProdCast(x, f);
    ProdCast(pm, s);
    Rounded(pm * s, x * f, f, s);
  }

  lemma ProdCast(a: int, b: int)
    ensures Prod(a as real, b as real) == (a * b) as real
  {
    CastMul(a, b);
  }

  lemma Rounded(p: int, x: int, f: nat, s: nat)
    requires x as real <= 256.0 * p as real <= x as real + 128.0 * f as real + 256.0 * s as real && f <= 2 * s
    ensures 0 <= 256 * p - x <= 512 * s
  {
  }

  lemma AboveReal(x: real, f: real, s: real, pm: real, y: real, z: real)
    requires pm - 1.0 < y <= pm && Prod(y, s) == Prod(z, f) && x <= 256.0 * z <= x + 128.0 && f >= 0.0 && s >= 0.0
    ensures Prod(x, f) <= 256.0 * Prod(pm, s) <= Prod(x, f) + 128.0 * f + 256.0 * s
  {
    Units(s, pm, x, f, z);
    hide Prod;
    Ordered(x, 256.0 * z, f);
    Ordered(256.0 * z, x + 128.0, f);
    Ordered(y, pm, s);
    Ordered(pm - 1.0, y, s);
  }

  lemma Ordered(a: real, b: real, c: real)
    requires a <= b && c >= 0.0
    ensures Prod(a, c) <= Prod(b, c)
  {
    assert (b - a) * c >= 0.0;
  }

  lemma Units(s: real, pm: real, x: real, f: real, z: real)
    ensures Prod(256.0 * z, f) == 256.0 * Prod(z, f) && Prod(x + 128.0, f) == Prod(x, f) + 128.0 * f
    ensures Prod(pm - 1.0, s) == Prod(pm, s) - s
  {
  }

  // Residues of x * f carry over to pm.
  lemma Transferred(xf: int, s: nat, pm: int, m: int, j: int)
    requires s >= 1 && 0 <= 256 * (pm * s) - xf <= 512 * s && 0 < m < LIMIT
    requires var r := m * xf - j * (0x8000_0000_0000_0000_0000_0000_0000_0000 * s);
             r > 0x6000_0000_0000_0000 * s || r < -0x6000_0000_0000_0000 * s
    ensures !(-LIMIT <= Residue(m, pm, j) <= LIMIT)
  {
    var g := 256 * (pm * s) - xf;
    var r := Residue(m, pm, j);
    assert 0 <= m * g <= LIMIT * (512 * s) by {
      MulBound(m, LIMIT, g);
      assert LIMIT * g <= LIMIT * (512 * s);
    }
    assert (256 * s) * r == m * xf + m * g - j * (0x8000_0000_0000_0000_0000_0000_0000_0000 * s) by {
      Scaling256(s, m, pm, j, xf, g);
    }
    Within(r, s);
  }

  lemma Within(r: int, s: nat)
    ensures (256 * s) * r == 256 * (r * s)
    ensures -LIMIT <= r <= LIMIT ==> -LIMIT * s <= r * s <= LIMIT * s
  {
    if -LIMIT <= r <= LIMIT {
      assert (LIMIT - r) * s >= 0 && (LIMIT + r) * s >= 0;
    }
  }

  lemma Scaling256(s: nat, m: int, pm: int, j: int, xf: int, g: int)
    requires g == 256 * (pm * s) - xf
    ensures (256 * s) * Residue(m, pm, j) == m * xf + m * g - j * (0x8000_0000_0000_0000_0000_0000_0000_0000 * s)
  {
    var b := 0x80_0000_0000_0000_0000_0000_0000_0000;
    assert (256 * s) * (m * pm) == m * (256 * (pm * s)) == m * (xf + g) == m * xf + m * g;
    assert (256 * s) * (j * b) == j * (256 * b * s);
  }

  /** One row: its residues are at least those of the two vectors. */
  lemma Row(p: int, l: int, x: nat, f: nat, s: nat, q1: nat, j1: nat, q2: nat, j2: nat)
    requires Approx(p, l, x) && 1 <= f <= 2 * s && Log5(f) < 100 && Log2(s) < 100
    requires IsLog(p + Log5(f), l + Log5(f) + Log2(s)) && Independent(x * f, s, q1, j1, q2, j2)
    ensures RowClear(p + Log5(f))
  {
    var i, h := Log5(f), Log2(s);
    Log5Is(f);
    Log2Is(s);
    LogIs(p, l);
    LogIs(p + i, l + i + h);
    Further(p, l, i, h, f, s);
    hide Log2, Log5, Mantissa, Residue;
    var d := 0x8000_0000_0000_0000_0000_0000_0000_0000 * s;
    forall pm: int | RoundedUp(pm, p + i)
      ensures Clear(pm)
    {
      Above(x, f, s, pm, Mantissa(p + i), Mantissa(p));
      forall m: int, j: int | 0 < m < LIMIT
        ensures !(-LIMIT <= Residue(m, pm, j) <= LIMIT)
      {
        Spanned(x * f, d, 0x6000_0000_0000_0000 * s, q1, j1, q2, j2, m, j);
        Transferred(x * f, s, pm, m, j);
      }
    }
  }

  // ----- from row to row -----

  const GUARD: int := 0x40_0000_0000_0000_0000_0000_0000_0000_0000   // 2^134

  /** x is y rounded down, with an error of at most n units of x / 2^134: one step adds one unit. */
  ghost predicate Held(y: real, x: nat, n: nat) {
    && 2 * GUARD <= x < 4 * GUARD && x as real <= y
    && Prod(y - x as real, GUARD as real) <= Prod(n as real, x as real)
  }

  /** x' is x * num / den, rounded down. */
  predicate Quotient(x: nat, x': nat, num: nat, den: nat) {
    den * x' <= num * x < den * x' + den && 2 * GUARD <= x' < 4 * GUARD
  }

  lemma Carried(y: real, x: nat, y': real, x': nat, num: nat, den: nat, n: nat)
    requires Prod(y', den as real) == Prod(y, num as real) && den >= 1 && n <= 40
    requires Held(y, x, n) && Quotient(x, x', num, den)
    ensures Held(y', x', n + 1)
  {
    var r := num * x - den * x';
    CastMul(den, x');
    CastMul(num, x);
    assert Prod(num as real, x as real) == Prod(den as real, x' as real) + r as real;
    hide Prod;
    CarriedReal(y, x as real, y', x' as real, num as real, den as real, n as real, GUARD as real, r as real);
  }

  lemma CarriedReal(y: real, x: real, y': real, x': real, num: real, den: real, n: real, g: real, r: real)
    requires Prod(y', den) == Prod(y, num) && den >= 1.0 && num >= 0.0 && 0.0 <= n <= 40.0 && g > 40.0
    requires x <= y && Prod(y - x, g) <= Prod(n, x)
    requires Prod(num, x) == Prod(den, x') + r && 0.0 <= r < den && x' >= 2.0 * g
    ensures x' <= y' && Prod(y' - x', g) <= Prod(n + 1.0, x')
  {
    var t, u := y - x, y' - x';
    Split(y, x, y', x', num, den, r);
    Expand(num, t, den, u, n, x, x', g, r);
    hide Prod;
    Ordered(0.0, t, num);
    Ordered(Prod(t, g), Prod(n, x), num);
    Ordered(Prod(num, x), Prod(den, x' + 1.0), n);
    Ordered(r, den, g);
    Lower(u, 0.0, den);
    Lower(Prod(n, x' + 1.0) + g, Prod(u, g), den);
  }

  lemma Split(y: real, x: real, y': real, x': real, num: real, den: real, r: real)
    requires Prod(y', den) == Prod(y, num) && Prod(num, x) == Prod(den, x') + r
    ensures Prod(y' - x', den) == Prod(y - x, num) + r
  {
  }

  lemma Expand(num: real, t: real, den: real, u: real, n: real, x: real, x': real, g: real, r: real)
    requires Prod(u, den) == Prod(t, num) + r
    ensures Prod(0.0, num) == 0.0 && Prod(0.0, den) == 0.0
    ensures Prod(Prod(u, g), den) == Prod(Prod(t, g), num) + Prod(r, g)
    ensures Prod(Prod(n, x), num) == Prod(Prod(num, x), n)
    ensures Prod(Prod(den, x' + 1.0), n) + Prod(den, g) == Prod(Prod(n, x' + 1.0) + g, den)
    ensures Prod(den, x' + 1.0) == Prod(den, x') + den && Prod(n, x' + 1.0) == Prod(n, x') + n
    ensures Prod(n + 1.0, x') == Prod(n, x') + x'
  {
    assert (u * g) * den == (u * den) * g;
    assert (t * g) * num == (t * num) * g;
  }

  lemma Lower(a: real, b: real, c: real)
    requires c > 0.0 && Prod(a, c) >= Prod(b, c)
    ensures a >= b
  {
    AtMost(a, c, b);
  }

  lemma Prod256(y: real, z: real, a: real, b: real)
    requires Prod(y, a) == Prod(z, b)
    ensures Prod(256.0 * y, a) == Prod(256.0 * z, b)
  {
  }

  // Up by a few exponents: times 5^i, over a power of two.
  lemma HeldUp(p: int, x: nat, x': nat, f: nat, s: nat, n: nat)
    requires Held(256.0 * Mantissa(p), x, n) && n <= 40 && Log5(f) < 100 && Log2(s) < 100
    requires Log2Pow10(p + Log5(f)) == Log2Pow10(p) + Log5(f) + Log2(s) && Quotient(x, x', f, s)
    ensures Held(256.0 * Mantissa(p + Log5(f)), x', n + 1)
  {
    hide Log2, Log5, Mantissa, Prod, Held, Quotient, Log2Pow10;
    Ratio(p, f, s);
    Carried(256.0 * Mantissa(p), x, 256.0 * Mantissa(p + Log5(f)), x', f, s, n);
  }

  // Down by a few exponents.
  lemma HeldDown(p: int, x: nat, x': nat, f: nat, s: nat, n: nat)
    requires Held(256.0 * Mantissa(p + Log5(f)), x, n) && n <= 40 && Log5(f) < 100 && Log2(s) < 100
    requires Log2Pow10(p + Log5(f)) == Log2Pow10(p) + Log5(f) + Log2(s) && Quotient(x, x', s, f)
    ensures Held(256.0 * Mantissa(p), x', n + 1)
  {
    hide Log2, Log5, Mantissa, Prod, Held, Quotient, Log2Pow10;
    Ratio(p, f, s);
    Carried(256.0 * Mantissa(p + Log5(f)), x, 256.0 * Mantissa(p), x', s, f, n);
  }

  lemma Ratio(p: int, f: nat, s: nat)
    requires Log5(f) < 100 && Log2(s) < 100 && Log2Pow10(p + Log5(f)) == Log2Pow10(p) + Log5(f) + Log2(s)
    ensures Prod(256.0 * Mantissa(p + Log5(f)), s as real) == Prod(256.0 * Mantissa(p), f as real) && f >= 1 && s >= 1
  {
    hide Log2, Log5, Mantissa, Prod, Log2Pow10, Pow2, Pow10;
    Log5Is(f);
    Log2Is(s);
    Further(p, Log2Pow10(p), Log5(f), Log2(s), f, s);
    Prod256(Mantissa(p + Log5(f)), Mantissa(p), s as real, f as real);
  }

  lemma HeldIsApprox(p: int, x: nat, n: nat)
    requires Held(256.0 * Mantissa(p), x, n) && n <= 32
    ensures Approx(p, Log2Pow10(p), x)
  {
    hide Mantissa, Prod;
    var t := 256.0 * Mantissa(p) - x as real;
    Ordered(n as real, 32.0, x as real);
    LastBits(t, x as real);
  }

  lemma LastBits(t: real, x: real)
    requires Prod(t, GUARD as real) <= Prod(32.0, x) && x < (4 * GUARD) as real
    ensures t <= 128.0
  {
  }
}
