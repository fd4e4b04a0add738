/** Multiplication by a power of ten: 64 x 128 bits, of which the low half is usually skipped. */
module Scaling {
  import opened Words
  import opened Machine
  import opened Unrounded
  import opened Powers

  /** A multiplier hi * 2^64 - lo, and a shift. */
  datatype Scaler = Scaler(hi: Word, lo: Word, s: int)

  const UNIT: int := WORD * WORD

  /** The full product. */
  function Product(x: Word, c: Scaler): int { x * (c.hi * WORD - c.lo) }

  /** 2^(128 + s), the weight of the unrounded result's last bit. */
  function Weight(s: nat): (d: int)
    ensures d >= UNIT
  {
    MulAtLeast(Pow2(s), UNIT);
    UNIT * Pow2(s)
  }

  /** p lies within 2^64 of the k-th multiple of d. */
  predicate Near(p: int, k: int, d: int) {
    k * d - WORD < p <= k * d + WORD
  }

  /** The product scaled down, with a sticky last bit unless it is near a multiple. */
  ghost predicate IsScaled(r: int, p: int, d: int)
    requires d >= UNIT
  {
    if Near(p, p / d, d) then r == p / d
    else if Near(p, p / d + 1, d) then r == p / d + 1
    else p >= 0 && r == Or1(p / d)
  }

  // ----- the scaled product -----

  lemma NotNear(p: int, k: nat, d: int)
    requires d >= UNIT && k * d + WORD < p <= (k + 1) * d - WORD
    ensures IsScaled(Or1(k), p, d)
  {
    assert (k + 1) * d == k * d + d;
    DivModUnique(p, d, k, p - k * d);
  }

  lemma IsNear(p: int, k: int, d: int)
    requires d >= UNIT && Near(p, k, d)
    ensures IsScaled(k, p, d)
  {
    assert (k - 1) * d == k * d - d;
    if p >= k * d {
      DivModUnique(p, d, k, p - k * d);
    } else {
      DivModUnique(p, d, k - 1, p - (k - 1) * d);
    }
  }

  lemma Weighted(h: nat, w: nat, d: int)
    requires w >= 1 && d == UNIT * w
    ensures (h / w) * d == UNIT * (h - h % w)
    ensures (h / w + 1) * d == UNIT * (h - h % w + w)
    ensures (h / w - 1) * d == UNIT * (h - h % w - w)
  {
    var k := h / w;
    assert h - h % w == k * w;
    assert k * d == UNIT * (k * w);
  }

  lemma Halves(x: Word, y: Word)
    ensures x * y == MulHigh(x, y) * WORD + MulLow(x, y)
    ensures MulHigh(x, y) <= WORD - 2
  {
    MulBound(x, WORD - 1, y);
    HalfParts(x * y);
  }

  lemma MulBound(x: nat, b: nat, y: nat)
    requires x <= b
    ensures 0 <= x * y <= b * y
  {
    assert (b - x) * y >= 0;
  }

  lemma HalfParts(z: int)
    requires 0 <= z <= (WORD - 1) * (WORD - 1)
    ensures z == Wrap(z / WORD) * WORD + Wrap(z) && Wrap(z / WORD) <= WORD - 2
  {
  }

  // The words of the product: hi and mid of x * c.hi, and mid2 of x * c.lo, which is below 2^64 - 1.
  lemma ProductWords(x: Word, c: Scaler, h: int, mid: Word, mid2: int)
    requires h == MulHigh(x, c.hi) && mid == MulLow(x, c.hi) && mid2 == MulHigh(x, c.lo)
    ensures 0 <= mid2 <= WORD - 2
    ensures var t := h * WORD + mid - mid2;
            (t - 1) * WORD < Product(x, c) <= t * WORD
    ensures c.hi >= 1 ==> Product(x, c) >= 0
  {
    hide MulHigh, MulLow;
    Halves(x, c.hi);
    Halves(x, c.lo);
    Spread(x, c.hi, c.lo);
    assert Product(x, c) == x * (c.hi * WORD - c.lo);
    hide Product;
    if c.hi >= 1 {
      MulBound(0, c.hi * WORD - c.lo, x);
    }
  }

  lemma Spread(x: int, hi: int, lo: int)
    ensures x * (hi * WORD - lo) == (x * hi) * WORD - x * lo
  {
    assert x * (hi * WORD) == (x * hi) * WORD;
  }

  // A set bit below the shift: neither borrow nor carry can reach the result.
  lemma SkippedLow(p: int, h: Word, t: int, w: nat, d: int)
    requires w >= 1 && d == UNIT * w && d >= UNIT && h % w != 0
    requires (t - 1) * WORD < p <= t * WORD && (h - 1) * WORD + 2 <= t <= h * WORD + WORD - 1
    ensures IsScaled(Or1(h / w), p, d)
  {
    Weighted(h, w, d);
    NotNear(p, h / w, d);
  }

  function Borrowed(h: nat, mid: int, mid2: int): nat { if mid < mid2 && h >= 1 then h - 1 else h }

  // All bits below the shift are zero: the low product decides, with or without a borrow.
  lemma UsedLow(p: int, h: Word, mid: Word, mid2: int, w: nat, d: int)
    requires w >= 1 && d == UNIT * w && d >= UNIT && h % w == 0 && p >= 0 && 0 <= mid2 <= WORD - 2
    requires var t := h * WORD + mid - mid2;
             (t - 1) * WORD < p <= t * WORD
    ensures mid < mid2 ==> h >= 1
    ensures var k := Borrowed(h, mid, mid2) / w;
            k >= 0 && IsScaled(if Wrap(mid - mid2) > 1 then Or1(k) else k, p, d)
  {
    hide IsScaled;
    if mid < mid2 {
      Borrows(p, h, mid, mid2, w, d);
    } else {
      Weighted(h, w, d);
      assert Wrap(mid - mid2) == mid - mid2;
      if mid - mid2 <= 1 {
        IsNear(p, h / w, d);
      } else {
        NotNear(p, h / w, d);
      }
    }
  }

  lemma Borrows(p: int, h: Word, mid: Word, mid2: int, w: nat, d: int)
    requires w >= 1 && d == UNIT * w && d >= UNIT && h % w == 0 && p >= 0 && mid < mid2 <= WORD - 2
    requires var t := h * WORD + mid - mid2;
             (t - 1) * WORD < p <= t * WORD
    ensures h >= 1 && Wrap(mid - mid2) > 1
    ensures var k := Borrowed(h, mid, mid2) / w;
            k >= 0 && IsScaled(Or1(k), p, d)
  {
    hide IsScaled, Or1;
    assert h >= 1;
    assert Wrap(mid - mid2) == mid - mid2 + WORD;
    Before(h, w);
    Weighted(h, w, d);
    NotNear(p, h / w - 1, d);
  }

  lemma Before(h: int, w: int)
    requires w >= 1 && h >= 1 && h % w == 0
    ensures (h - 1) / w == h / w - 1 >= 0
  {
    assert h == (h / w) * w;
    assert h - 1 == (h / w - 1) * w + (w - 1);
    DivModUnique(h - 1, w, h / w - 1, w - 1);
  }

  /**
   The scaled product. The low product is computed only when the bits that the shift drops are zero;
   its borrow cannot be hidden by the wrap-around of mid - mid2.
   */
  method UScale(x: Word, c: Scaler) returns (u: Word)
    requires c.hi >= HALF && 0 <= c.s < 64
    ensures IsScaled(u, Product(x, c), Weight(c.s))
  {
    hide MulHigh, MulLow, Word64, Wrap, ShiftLeft, ShiftRight, Pow2, IsScaled, Product, Or1;
    var hi: int, mid: int := MulHigh(x, c.hi), MulLow(x, c.hi);
    ghost var h, w, p := hi, Pow2(c.s), Product(x, c);
    ProductWords(x, c, h, mid, MulHigh(x, c.lo));
    MaskedBits(hi, c.s);
    var sticky: Word := 1;
    if Word64(BitAnd, hi, Wrap(ShiftLeft(1, c.s) - 1)) == 0 {
      var mid2 := MulHigh(x, c.lo);
      UsedLow(p, h, mid, mid2, w, Weight(c.s));
      sticky := Bit(Wrap(mid - mid2) > 1);
      var b := Bit(mid < mid2);
      SmallWrap(hi - b);
      hi := Wrap(hi - b);
    } else {
      SkippedLow(p, h, h * WORD + mid - MulHigh(x, c.lo), w, Weight(c.s));
    }
    ShiftedRight(hi, c.s);
    OrBit(ShiftRight(hi, c.s), sticky == 1);
    u := Word64(BitOr, ShiftRight(hi, c.s), sticky);
  }

  lemma SmallWrap(x: int)
    requires 0 <= x < WORD
    ensures Wrap(x) == x
  {
  }

  // ----- rows of the table that are exact -----

  const POW10_MIN: int := -348
  const POW10_MAX: int := 347

  function Log2Pow10(x: int): int { x * 108853 / 0x8000 }

  /** The scaler for e and p from the table of 128-bit powers of ten. */
  function Prescale(e: int, p: int, lp: int, tab: seq<Word>): Scaler
    requires |tab| == 2 * (POW10_MAX - POW10_MIN + 1) && POW10_MIN <= p <= POW10_MAX
  {
    var n := p - POW10_MIN;
    Scaler(tab[n * 2], tab[n * 2 + 1], -(e + lp + 3))
  }

  const LAST_EXACT: nat := 27

  /** The first words of the rows 1e0 to 1e27; their second words are zero. */
  function ExactHi(p: nat): int {
    match p
    case 0 => 0x8000000000000000 case 1 => 0xa000000000000000 case 2 => 0xc800000000000000 case 3 => 0xfa00000000000000
    case 4 => 0x9c40000000000000 case 5 => 0xc350000000000000 case 6 => 0xf424000000000000 case 7 => 0x9896800000000000
    case 8 => 0xbebc200000000000 case 9 => 0xee6b280000000000 case 10 => 0x9502f90000000000
    case 11 => 0xba43b74000000000
    case 12 => 0xe8d4a51000000000 case 13 => 0x9184e72a00000000 case 14 => 0xb5e620f480000000
    case 15 => 0xe35fa931a0000000
    case 16 => 0x8e1bc9bf04000000 case 17 => 0xb1a2bc2ec5000000 case 18 => 0xde0b6b3a76400000
    case 19 => 0x8ac7230489e80000
    case 20 => 0xad78ebc5ac620000 case 21 => 0xd8d726b7177a8000 case 22 => 0x878678326eac9000
    case 23 => 0xa968163f0a57b400
    case 24 => 0xd3c21bcecceda100 case 25 => 0x84595161401484a0 case 26 => 0xa56fa5b99019a5c8
    case 27 => 0xcecb8f27f4200f3a
    case _ => 0
  }

  // One row of the table follows from the row before it.
  lemma RowStep(p: nat)
    requires 1 <= p <= LAST_EXACT
    ensures HALF <= ExactHi(p) < WORD && ExactHi(p) % 2 == 0
    ensures 0 <= Log2Pow10(p - 1)
    ensures var k := Log2Pow10(p) - Log2Pow10(p - 1);
            (k == 3 && 8 * ExactHi(p) == 10 * ExactHi(p - 1)) || (k == 4 && 16 * ExactHi(p) == 10 * ExactHi(p - 1))
  {
  }

  lemma {:induction false} RowExact(p: nat)
    requires p <= LAST_EXACT
    ensures HALF <= ExactHi(p) < WORD && ExactHi(p) % 2 == 0
    ensures Log2Pow10(p) >= 0 && Times(ExactHi(p), Pow2(Log2Pow10(p))) == Pow10(p) * HALF
  {
    if p == 0 {
      assert Log2Pow10(0) == 0 && Pow2(0) == 1;
    } else {
      var a, b := Log2Pow10(p - 1), Log2Pow10(p);
      RowStep(p);
      hide ExactHi, Log2Pow10, Times, Pow2;
      RowExact(p - 1);
      Pow2Jump(a, b);
      RowCarries(ExactHi(p - 1), ExactHi(p), Pow2(a), b - a == 3);
    }
  }

  lemma Pow2Jump(a: nat, b: nat)
    requires b == a + 3 || b == a + 4
    ensures b == a + 3 ==> Pow2(b) == 8 * Pow2(a)
    ensures b == a + 4 ==> Pow2(b) == 16 * Pow2(a)
  {
    Pow2Step(a);
    Pow2Step(a + 1);
    Pow2Step(a + 2);
    if b == a + 4 {
      Pow2Step(a + 3);
    }
  }

  lemma RowCarries(x: nat, y: nat, w: nat, three: bool)
    requires if three then 8 * y == 10 * x else 16 * y == 10 * x
    ensures three ==> Times(y, 8 * w) == 10 * Times(x, w)
    ensures !three ==> Times(y, 16 * w) == 10 * Times(x, w)
  {
    if three {
      assert y * (8 * w) == (8 * y) * w == 10 * (x * w);
    } else {
      assert y * (16 * w) == (16 * y) * w == 10 * (x * w);
    }
  }

  /** x * 2^e * 10^p. */
  function Scaled(x: nat, e: int, p: int): (v: real)
    ensures v >= 0.0
  {
    Prod(Prod(x as real, Two(e)), Ten(p))
  }

  lemma TwoAdd(x: int, y: int, z: int)
    requires z == x + y
    ensures Prod(Two(x), Two(y)) == Two(z)
  {
    RPowAdd(2.0, x, y);
  }

  lemma Pow2Far(s: nat)
    ensures Pow2(66 + s) == 4 * (WORD * Pow2(s))
  {
    hide Pow2;
    Pow2Add(64, s);
    Pow2Step(64 + s);
    Pow2Step(65 + s);
    Pow2Values();
  }
}
