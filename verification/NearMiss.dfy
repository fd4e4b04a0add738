/** When the scaled product is the unrounded form of the exact product. */
module NearMiss {
  import opened Words
  import opened Machine
  import opened Powers
  import opened Unrounded
  import opened Scaling

  /** 10^p, scaled by a power of two to 128 bits. */
  function Mantissa(p: int): (r: real)
    ensures r > 0.0
  {
    Prod(Ten(p), Two(127 - Log2Pow10(p)))
  }

  /** The 128 bits of a row. */
  function Bits128(c: Scaler): int { c.hi * WORD - c.lo }

  /** A row of the table holds the mantissa, rounded up. */
  ghost predicate RoundedUp(pm: int, p: int) {
    (pm - 1) as real < Mantissa(p) <= pm as real
  }

  /** The product p is close to an even multiple of d, and the exact product e is not that multiple. */
  ghost predicate Misses(p: int, d: int, e: real) {
    exists k: int :: Near(p, k, d) && k % 2 == 0 && e != (k * d) as real
  }

  lemma Compare(y: real, d: int, k: int, e: real)
    requires d >= 1 && Prod(y, d as real) == e
    ensures e < (k * d) as real <==> y < k as real
    ensures e == (k * d) as real <==> y == k as real
  {
    CastMul(k, d);
    AtMost(y, d as real, k as real);
    AtMost(k as real, d as real, y);
  }

  lemma Apart(k: int, j: int, d: int)
    requires d >= 1
    ensures k < j ==> k * d + d <= j * d
  {
    if k < j {
      MulAtLeast(j - k, d);
      assert (j - k) * d == j * d - k * d;
    }
  }

  // Two multiples of d are not close to one number.
  lemma OneNear(p: int, d: int, k: int, j: int)
    requires d >= UNIT && Near(p, k, d) && Near(p, j, d)
    ensures j == k
  {
    Apart(k, j, d);
    Apart(j, k, d);
  }

  // A multiple that is near is the quotient or the next one.
  lemma NearQuotient(p: int, d: int, k: int)
    requires d >= UNIT && Near(p, k, d)
    ensures k == p / d || k == p / d + 1
  {
    assert (k - 1) * d == k * d - d;
    if p >= k * d {
      DivModUnique(p, d, k, p - k * d);
    } else {
      DivModUnique(p, d, k - 1, p - (k - 1) * d);
    }
  }

  // Near a multiple the result has no sticky bit.
  lemma NearCase(p: int, d: int, k: nat, e: real, v: real)
    requires d >= UNIT && Near(p, k, d) && (p - WORD) as real < e <= p as real && v >= 0.0
             && Prod(4.0 * v, d as real) == e
    ensures Unround(v) == k <==> !Misses(p, d, e)
  {
    hide Unround;
    forall j: int | Near(p, j, d)
      ensures j == k
    {
      OneNear(p, d, k, j);
    }
    Compare(4.0 * v, d, k, e);
    Compare(4.0 * v, d, k - 1, e);
    Compare(4.0 * v, d, k + 1, e);
    assert (k - 1) * d == k * d - d && (k + 1) * d == k * d + d;
    UnroundMeans(v);
    if e == (k * d) as real || k % 2 == 1 {
      UnroundUnique(v, k);
    } else {
      assert Near(p, k, d);
    }
  }

  // Elsewhere the exact product lies strictly between two multiples.
  lemma FarCase(p: int, d: int, e: real, v: real)
    requires d >= UNIT && !Near(p, p / d, d) && !Near(p, p / d + 1, d) && p >= 0
    requires (p - WORD) as real < e <= p as real && v >= 0.0 && Prod(4.0 * v, d as real) == e
    ensures Unround(v) == Or1(p / d) && !Misses(p, d, e)
  {
    hide Unround;
    var k := p / d;
    DivBounds(p, d);
    forall j: int
      ensures !Near(p, j, d)
    {
      if Near(p, j, d) {
        NearQuotient(p, d, j);
      }
    }
    Compare(4.0 * v, d, k, e);
    Compare(4.0 * v, d, k + 1, e);
    assert (k + 1) * d == k * d + d && k * d <= p < k * d + d;
    Or1Odd(k);
    UnroundUnique(v, Or1(k));
  }

  lemma Decided(u: nat, p: int, d: int, e: real, v: real)
    requires d >= UNIT && IsScaled(u, p, d) && p >= 0
    requires (p - WORD) as real < e <= p as real && v >= 0.0 && Prod(4.0 * v, d as real) == e
    ensures u == Unround(v) <==> !Misses(p, d, e)
  {
    hide Unround, Misses, Near;
    if Near(p, p / d, d) {
      DivBounds(p, d);
      NearCase(p, d, p / d, e, v);
    } else if Near(p, p / d + 1, d) {
      DivBounds(p, d);
      NearCase(p, d, p / d + 1, e, v);
    } else {
      FarCase(p, d, e, v);
    }
  }

  // ----- the rows -----

  // A row that is rounded up makes the product too large, by less than 2^64.
  lemma ProductAbove(x: Word, pm: int, p: int)
    requires RoundedUp(pm, p)
    ensures x * pm >= 0 && (x * pm - WORD) as real < Prod(x as real, Mantissa(p)) <= (x * pm) as real
  {
    var y := Mantissa(p);
    hide Mantissa;
    CastMul(x, pm);
    assert (x as real) * (pm as real - y) >= 0.0;
    assert (x as real) * (y - (pm as real - 1.0)) >= 0.0;
    assert x * pm >= 0 by { assert pm >= 0; }
  }

  // The exact product, over the weight of the last bit, is four times the scaled value.
  lemma ExactProduct(x: nat, e: int, p: int, s: nat)
    requires s == -(e + Log2Pow10(p) + 3)
    ensures Prod(4.0 * Scaled(x, e, p), Weight(s) as real) == Prod(x as real, Mantissa(p))
  {
    var l := Log2Pow10(p);
    hide RPow, Prod, Pow2, Two, Ten, Log2Pow10, Scaled;
    TwoAdd(e, 130 + s, 127 - l);
    TwoIsPow2(130 + s);
    Pow2Far(s);
    Pow2Add(64, 66 + s);
    Pow2Values();
    assert Scaled(x, e, p) == Prod(Prod(x as real, Two(e)), Ten(p)) by { Defined(x, e, p); }
    Rearrange(x as real, Two(e), Ten(p), Two(130 + s), Weight(s) as real, Two(127 - l));
  }

  lemma Defined(x: nat, e: int, p: int)
    ensures Scaled(x, e, p) == Prod(Prod(x as real, Two(e)), Ten(p))
  {
  }

  lemma Rearrange(x: real, te: real, tp: real, a: real, d: real, b: real)
    requires Prod(te, a) == b && a == 4.0 * d
    ensures Prod(4.0 * Prod(Prod(x, te), tp), d) == Prod(x, Prod(tp, b))
  {
    assert 4.0 * ((x * te) * tp) * d == (x * tp) * (te * a);
    assert (x * tp) * b == x * (tp * b);
  }

  /**
   The documented result of uscale, unround(x * 2^e * 10^p), is what the scaled product gives if and only if the
   product is not close to an even multiple that the exact product misses.
   */
  lemma ScaledWhen(u: Word, x: Word, c: Scaler, e: int, p: int)
    requires RoundedUp(Bits128(c), p) && 0 <= c.s && c.s == -(e + Log2Pow10(p) + 3)
             && IsScaled(u, Product(x, c), Weight(c.s))
    ensures u == Unround(Scaled(x, e, p)) <==> !Misses(Product(x, c), Weight(c.s), Prod(x as real, Mantissa(p)))
  {
    assert Product(x, c) == x * Bits128(c);
    hide Mantissa, Prod, Scaled, Weight, Unround, Misses, IsScaled, Bits128, Log2Pow10;
    ProductAbove(x, Bits128(c), p);
    ExactProduct(x, e, p, c.s);
    Decided(u, Product(x, c), Weight(c.s), Prod(x as real, Mantissa(p)), Scaled(x, e, p));
  }
}
