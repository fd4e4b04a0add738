/** Unpacking and packing of IEEE 754 binary64 bit patterns. */
module Binary64 {
  import opened Words
  import opened Machine
  import opened Powers
  import opened Unrounded
  import opened Scaling
  import opened Decimal

  const HIDDEN: int := 0x10_0000_0000_0000   // 2^52

  /** The biased exponent and the fraction of a pattern without sign. */
  function Field(b: nat): nat { b / HIDDEN }

  function Fraction(b: nat): nat { b % HIDDEN }

  /** Positive and finite: section 3.4 of IEEE 754-2019. */
  predicate Finite(b: Word) { 0 < b < 0x7FF0_0000_0000_0000 }

  /** The value of a positive finite pattern. */
  function ValueOf(b: nat): real {
    if Field(b) == 0 then Prod(Fraction(b) as real, Two(-1074))
    else Prod((HIDDEN + Fraction(b)) as real, Two(Field(b) - 1075))
  }

  // ----- bits -----

  lemma {:induction false} AndBit(k: nat, x: nat, j: nat)
    requires j < k
    ensures Bits(BitAnd, k, x, Pow2(j)) == if (x / Pow2(j)) % 2 == 1 then Pow2(j) else 0
    decreases k
  {
    if j == 0 {
      AndZero(k - 1, x / 2);
    } else {
      AndBit(k - 1, x / 2, j - 1);
      DivDiv(x, 2, Pow2(j - 1));
      hide Bits, Pow2;
      AndBitStep(k, x, j);
    }
  }

  lemma AndBitStep(k: nat, x: nat, j: nat)
    requires 1 <= j < k
    ensures Bits(BitAnd, k, x, Pow2(j)) == 2 * Bits(BitAnd, k - 1, x / 2, Pow2(j - 1))
    ensures Pow2(j) == 2 * Pow2(j - 1)
  {
    assert Pow2(j) % 2 == 0 && Pow2(j) / 2 == Pow2(j - 1);
  }

  lemma {:induction false} AndComplement(k: nat, x: nat, y: nat)
    requires x < Pow2(k) && y < Pow2(k)
    ensures Bits(BitAnd, k, x, Pow2(k) - 1 - y) == x - Bits(BitAnd, k, x, y)
    decreases k
  {
    if k > 0 {
      AndComplement(k - 1, x / 2, y / 2);
      var c := Pow2(k) - 1 - y;
      assert c / 2 == Pow2(k - 1) - 1 - y / 2 && c % 2 == 1 - y % 2;
    }
  }

  lemma HiddenBit()
    ensures Pow2(52) == HIDDEN && Pow2(11) == 2048 && Pow2(63) == HALF && Pow2(64) == WORD
  {
    hide Pow2;
    Pow2Values();
    Pow2Add(11, 52);
    Pow2Small();
    Pow2Add(8, 3);
  }

  lemma FractionBits(b: Word)
    ensures Word64(BitAnd, b, Wrap(ShiftLeft(1, 52) - 1)) == Fraction(b)
  {
    HiddenBit();
    hide Pow2, Bits, Word64, ShiftLeft, Wrap;
    MaskedBits(b, 52);
  }

  lemma FieldBits(b: Word)
    requires b < HALF
    ensures Word64(BitAnd, ShiftRight(b, 52), Wrap(ShiftLeft(1, 11) - 1)) == Field(b)
  {
    HiddenBit();
    hide Pow2, Bits, Word64, ShiftLeft, ShiftRight, Wrap;
    ShiftedRight(b, 52);
    MaskedBits(ShiftRight(b, 52), 11);
  }

  lemma ShiftedLeft(x: Word, s: nat)
    requires s < 64 && x * Pow2(s) < WORD
    ensures ShiftLeft(x, s) == x * Pow2(s)
  {
    hide Wrap;
    assert s % 64 == s;
    SmallWrap(x * Pow2(s));
  }

  // The 53-bit significand, left-justified with the top bit set.
  lemma Justified(f: Word)
    requires f < HIDDEN
    ensures Word64(BitOr, HALF, ShiftLeft(f, 11)) == HALF + f * 2048
    ensures Word64(BitAnd, HALF + f * 2048, Complement(HALF)) == f * 2048
  {
    HiddenBit();
    var y := f * 2048;
    hide Pow2, Bits, ShiftLeft;
    ShiftedLeft(f, 11);
    OrDisjoint(64, HALF, y, 63);
    AndComplement(64, HALF + y, HALF);
    AndBit(64, HALF + y, 63);
    assert (HALF + y) / HALF == 1;
  }

  // Moving k factors of two from the significand to the exponent.
  lemma Moved(f: nat, k: nat, e: int)
    ensures Prod((f * Pow2(k)) as real, Two(e)) == Prod(f as real, Two(e + k))
  {
    hide Pow2, Two, RPow;
    TwoIsPow2(k);
    TwoAdd(k, e, e + k);
    assert (f * Pow2(k)) as real == (f as real) * (Pow2(k) as real);
    Associate(f as real, Two(k), Two(e));
  }

  lemma Associate(a: real, b: real, c: real)
    ensures Prod(a * b, c) == Prod(a, Prod(b, c))
  {
  }

  // A normalised significand.
  lemma Normalised(m: Word, l: nat)
    requires 1 <= l <= 63 && Pow2(l - 1) <= m < Pow2(l)
    ensures ShiftLeft(m, 64 - l) == m * Pow2(64 - l) && m * Pow2(64 - l) >= HALF
  {
    HiddenBit();
    hide Pow2, ShiftLeft;
    var s := 64 - l;
    Pow2Add(l, s);
    Pow2Add(l - 1, s);
    MulMono(Pow2(l - 1), m, Pow2(s));
    MulMono(m + 1, Pow2(l), Pow2(s));
    assert (m + 1) * Pow2(s) == m * Pow2(s) + Pow2(s);
    ShiftedLeft(m, s);
  }

  /** m * 2^e is the value of b, and the top bit of m is set. */
  predicate Unpacked(b: Word, m: Word, e: int) {
    && m >= HALF && Prod(m as real, Two(e)) == ValueOf(b)
    && (Field(b) != 0 ==> m == (HIDDEN + Fraction(b)) * 2048 && e == Field(b) - 1086)
    && (Field(b) == 0 ==> 1 <= -1085 - e <= 63 && m == Fraction(b) * 2048 * Pow2(-1085 - e))
  }

  method Unpack64(b: Word) returns (m: Word, e: int)
    requires Finite(b)
    ensures Unpacked(b, m, e)
  {
    hide Bits, Pow2, Word64, ShiftLeft, ShiftRight, Complement, Wrap, Prod, Two;
    ghost var f := Fraction(b);
    HiddenBit();
    FractionBits(b);
    FieldBits(b);
    Justified(f);
    m := Word64(BitOr, HALF, ShiftLeft(Word64(BitAnd, b, Wrap(ShiftLeft(1, 52) - 1)), 11));
    e := Word64(BitAnd, ShiftRight(b, 52), Wrap(ShiftLeft(1, 11) - 1));
    if e == 0 {
      m := Word64(BitAnd, m, Complement(HALF));
      e := -1085;
      var l := Len64(m);
      ShorterThan(m, l, 63);
      Normalised(m, l);
      var s := 64 - l;
      m := ShiftLeft(m, s);
      e := e - s;
      Moved(f * 2048, s, e);
      Moved(f, 11, -1085);
    } else {
      e := (e - 1) - 1085;
      Moved(HIDDEN + f, 11, e);
    }
  }

  lemma ShorterThan(m: nat, l: nat, k: nat)
    requires 0 < m < Pow2(k) && 1 <= l && Pow2(l - 1) <= m
    ensures l <= k
  {
    if l > k {
      Pow2Mono(k, l - 1);
    }
  }

  /** The pattern of m * 2^e, for a 53-bit m. */
  function Pack64(m: Word, e: int): Word {
    if Word64(BitAnd, m, ShiftLeft(1, 52)) == 0 then m
    else Word64(BitOr, Word64(BitAnd, m, Complement(ShiftLeft(1, 52))), ShiftLeft(Wrap(1075 + e), 52))
  }

  lemma TopOr(f: Word, g: nat)
    requires f < HIDDEN && g < 4096
    ensures g * HIDDEN < WORD && Word64(BitOr, f, g * HIDDEN) == f + g * HIDDEN
  {
    HiddenBit();
    hide Pow2, Bits;
    BitsCommute(BitOr, 64, f, g * HIDDEN);
    OrDisjoint(64, g * HIDDEN, f, 52);
  }

  // The exponent field of the pattern is the low 12 bits of 1075 + e.
  lemma Packed(m: Word, e: int)
    requires HIDDEN <= m < 2 * HIDDEN && -4096 <= 1075 + e < 4096
    ensures Pack64(m, e) == m - HIDDEN + (if 1075 + e < 0 then 4096 + 1075 + e else 1075 + e) * HIDDEN
  {
    var g := if 1075 + e < 0 then 4096 + 1075 + e else 1075 + e;
    HiddenBit();
    hide Pow2, Bits, ShiftLeft;
    ShiftedOne(52);
    AndBit(64, m, 52);
    AndComplement(64, m, HIDDEN);
    assert m / HIDDEN == 1;
    assert ShiftLeft(Wrap(1075 + e), 52) == g * HIDDEN by { FieldShift(1075 + e, g); }
    TopOr(m - HIDDEN, g);
    hide Word64, Wrap;
  }

  lemma FieldShift(x: int, g: int)
    requires -4096 <= x < 4096 && g == if x < 0 then 4096 + x else x
    ensures ShiftLeft(Wrap(x), 52) == g * HIDDEN
  {
    HiddenBit();
    hide Pow2;
    var w := Wrap(x);
    assert w == if x < 0 then WORD + x else x;
    var q := if x < 0 then HIDDEN - 1 else 0;
    assert w * HIDDEN == q * WORD + g * HIDDEN;
    DivModUnique(w * HIDDEN, WORD, q, g * HIDDEN);
    assert ShiftLeft(w, 52) == Wrap(w * Pow2(52 % 64));
  }

  /** Packing an unpacked number gives back its pattern exactly for the normal numbers. */
  lemma PackUnpacked(b: Word, m: Word, e: int)
    requires Finite(b) && Unpacked(b, m, e)
    ensures Pack64(m / 2048, e + 11) == b <==> Field(b) != 0
  {
    hide Pack64, Prod, Two, ValueOf;
    assert HIDDEN <= m / 2048 < 2 * HIDDEN;
    Packed(m / 2048, e + 11);
    var f := Fraction(b);
    assert b == Field(b) * HIDDEN + f;
    if Field(b) == 0 && e == -1086 {
      assert Pow2(1) == 2;
      assert m / 2048 == 2 * f;
    }
  }

  // The pattern 1, the smallest subnormal number, is not packed back.
  lemma SmallestIsLost(m: Word, e: int)
    requires Unpacked(1, m, e)
    ensures Pack64(m / 2048, e + 11) != 1
  {
    hide Pack64, Unpacked, ValueOf;
    PackUnpacked(1, m, e);
  }
}
