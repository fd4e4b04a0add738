/** What the operators compute, bit by bit and as signed numbers, without the functions that define them. */
module Operators {
  import opened Words
  import opened Machine
  import opened Source

  // ----- bits -----

  /** Bit i of x; the lowest is bit 0. */
  predicate Bit(x: nat, i: nat)
    decreases i
  {
    if i == 0 then x % 2 == 1 else Bit(x / 2, i - 1)
  }

  lemma {:induction false} BitsAt(op: BitOp, k: nat, x: nat, y: nat, i: nat)
    requires i < k
    ensures Bit(Bits(op, k, x, y), i) ==
            match op
            case BitAnd => Bit(x, i) && Bit(y, i)
            case BitOr => Bit(x, i) || Bit(y, i)
            case BitXor => Bit(x, i) != Bit(y, i)
    decreases i
  {
    var r := Bits(op, k - 1, x / 2, y / 2);
    assert Bits(op, k, x, y) / 2 == r;
    if i > 0 {
      BitsAt(op, k - 1, x / 2, y / 2, i - 1);
    }
  }

  lemma {:induction false} ComplementAt(k: nat, x: nat, i: nat)
    requires i < k && x < Pow2(k)
    ensures Bit(Pow2(k) - 1 - x, i) == !Bit(x, i)
    decreases i
  {
    var p := Pow2(k - 1);
    assert Pow2(k) == 2 * p;
    hide Pow2;
    assert (2 * p - 1 - x) / 2 == p - 1 - x / 2;
    assert (2 * p - 1 - x) % 2 == 1 - x % 2;
    if i > 0 {
      ComplementAt(k - 1, x / 2, i - 1);
    }
  }

  lemma {:induction false} ShiftedLeftAt(x: nat, n: nat, i: nat)
    ensures Bit(x * Pow2(n), i) == (n <= i && Bit(x, i - n))
    decreases n
  {
    if n > 0 {
      var y := x * Pow2(n - 1);
      assert x * Pow2(n) == 2 * y;
      hide Pow2;
      if i > 0 {
        ShiftedLeftAt(x, n - 1, i - 1);
      }
    }
  }

  lemma {:induction false} ShiftedRightAt(x: nat, n: nat, i: nat)
    ensures x / Pow2(n) >= 0 && Bit(x / Pow2(n), i) == Bit(x, i + n)
    decreases n
  {
    if n > 0 {
      HalfOfQuotient(x, Pow2(n - 1));
      assert Pow2(n) == 2 * Pow2(n - 1);
      hide Pow2;
      ShiftedRightAt(x / 2, n - 1, i);
    }
  }

  lemma HalfOfQuotient(x: nat, p: nat)
    requires p >= 1
    ensures x / (2 * p) == x / 2 / p
  {
    var h := x / 2;
    assert h == (h / p) * p + h % p;
    DivModUnique(x, 2 * p, h / p, 2 * (h % p) + x % 2);
  }

  // Reduction modulo 2^k keeps the low k bits.
  lemma {:induction false} LowBit(x: nat, k: nat, i: nat)
    requires i < k
    ensures Bit(x % Pow2(k), i) == Bit(x, i)
    decreases i
  {
    var p := Pow2(k - 1);
    ModDouble(x, p);
    assert Pow2(k) == 2 * p;
    if i > 0 {
      LowBit(x / 2, k - 1, i - 1);
      assert (x % Pow2(k)) / 2 == (x / 2) % p;
    }
  }

  /** The bits determine the number. */
  lemma {:induction false} SameBits(k: nat, x: nat, y: nat)
    requires x < Pow2(k) && y < Pow2(k) && forall i :: 0 <= i < k ==> Bit(x, i) == Bit(y, i)
    ensures x == y
    decreases k
  {
    if k > 0 {
      assert Bit(x, 0) == Bit(y, 0);
      forall i | 0 <= i < k - 1
        ensures Bit(x / 2, i) == Bit(y / 2, i)
      {
        assert Bit(x, i + 1) == Bit(y, i + 1);
      }
      SameBits(k - 1, x / 2, y / 2);
    }
  }

  /** Conjunction, disjunction, difference and shifts of words, bit by bit; they determine the word by SameBits. */
  lemma BitOperators(a: Word, b: Word, i: nat)
    requires i < 64
    ensures OpWord(BAnd, a, b).Some? && (Bit(OpWord(BAnd, a, b).value, i) <==> Bit(a, i) && Bit(b, i))
    ensures OpWord(BOr, a, b).Some? && (Bit(OpWord(BOr, a, b).value, i) <==> Bit(a, i) || Bit(b, i))
    ensures OpWord(BXor, a, b).Some? && (Bit(OpWord(BXor, a, b).value, i) <==> Bit(a, i) != Bit(b, i))
    ensures OpWord(AndNot, a, b).Some? && (Bit(OpWord(AndNot, a, b).value, i) <==> Bit(a, i) && !Bit(b, i))
  {
    Pow2Values();
    hide Pow2, Bit, Bits;
    BitsAt(BitAnd, 64, a, b, i);
    BitsAt(BitOr, 64, a, b, i);
    BitsAt(BitXor, 64, a, b, i);
    BitsAt(BitAnd, 64, a, Complement(b), i);
    ComplementAt(64, b, i);
  }

  /** The count of a shift is taken modulo 64, and zeros enter on both sides. */
  lemma BitShifts(a: Word, b: Word, i: nat)
    requires i < 64
    ensures OpWord(Shl, a, b).Some? && (Bit(OpWord(Shl, a, b).value, i) <==> b % 64 <= i && Bit(a, i - b % 64))
    ensures OpWord(Shr, a, b).Some? && (Bit(OpWord(Shr, a, b).value, i) <==> i + b % 64 < 64 && Bit(a, i + b % 64))
  {
    hide ShiftLeft, ShiftRight, Bit;
    LeftShift(a, b, i);
    RightShift(a, b, i);
  }

  lemma LeftShift(a: Word, b: nat, i: nat)
    requires i < 64
    ensures Bit(ShiftLeft(a, b), i) <==> b % 64 <= i && Bit(a, i - b % 64)
  {
    hide Pow2, Bit;
    var n := b % 64;
    Pow2Values();
    ShiftedLeftAt(a, n, i);
    LowBit(a * Pow2(n), 64, i);
  }

  lemma RightShift(a: Word, b: nat, i: nat)
    requires i < 64
    ensures Bit(ShiftRight(a, b), i) <==> i + b % 64 < 64 && Bit(a, i + b % 64)
  {
    hide Pow2, Bit;
    var n := b % 64;
    Pow2Values();
    ShiftedRightAt(a, n, i);
    if i + n >= 64 {
      HighBit(a, 64, i + n);
    }
  }

  lemma {:induction false} HighBit(x: nat, k: nat, i: nat)
    requires x < Pow2(k) && k <= i
    ensures !Bit(x, i)
    decreases i
  {
    if i > 0 {
      if k == 0 {
        HighBit(0, 0, i - 1);
      } else {
        HighBit(x / 2, k - 1, i - 1);
      }
    }
  }

  /** Disjunction and conjunction together count every bit of both operands; difference leaves out the common ones. */
  lemma BitSums(a: Word, b: Word)
    ensures Word64(BitAnd, a, b) + Word64(BitOr, a, b) == a + b
    ensures Word64(BitXor, a, b) + Word64(BitAnd, a, b) == Word64(BitOr, a, b)
    ensures Word64(BitXor, Word64(BitXor, a, b), b) == a
  {
    Pow2Values();
    hide Pow2;
    SumOfBits(64, a, b);
    XorTwice(64, a, b);
  }

  lemma {:induction false} SumOfBits(k: nat, x: nat, y: nat)
    requires x < Pow2(k) && y < Pow2(k)
    ensures Bits(BitAnd, k, x, y) + Bits(BitOr, k, x, y) == x + y
    ensures Bits(BitXor, k, x, y) + Bits(BitAnd, k, x, y) == Bits(BitOr, k, x, y)
    decreases k
  {
    if k > 0 {
      SumOfBits(k - 1, x / 2, y / 2);
    }
  }

  lemma {:induction false} XorTwice(k: nat, x: nat, y: nat)
    requires x < Pow2(k)
    ensures Bits(BitXor, k, Bits(BitXor, k, x, y), y) == x
    decreases k
  {
    if k > 0 {
      XorTwice(k - 1, x / 2, y / 2);
    }
  }

  // ----- signed numbers -----

  /**
   Quotient and remainder of signed division: the remainder is smaller than the divisor and has the sign of the
   dividend, which determines both. There is none exactly for the divisor 0 and for -2^63 / -1.
   */
  lemma SignedDivision(a: Word, b: Word)
    ensures OpWord(Div, a, b).Some? <==> b != 0 && !(a == HALF && b == WORD - 1)
    ensures OpWord(Mod, a, b).Some? <==> OpWord(Div, a, b).Some?
    ensures OpWord(Div, a, b).Some? ==>
              var q, r := Signed(OpWord(Div, a, b).value), Signed(OpWord(Mod, a, b).value);
              Signed(a) == q * Signed(b) + r && IsRemainder(r, Signed(a), Signed(b))
  {
    var x, y := Signed(a), Signed(b);
    assert a == HALF <==> x == -HALF;
    assert b == WORD - 1 <==> y == -1;
    assert b == 0 <==> y == 0;
    hide Signed, TruncDiv, Wrap;
    if b != 0 {
      Truncated(x, y);
      var q := TruncDiv(x, y);
      WrapSigned(a);
      WrapSigned(b);
      QuotientRange(x, y, q);
      if q < HALF {
        SignedWrap(q);
        SignedWrap(x - q * y);
      }
    }
  }

  /** Smaller than the divisor y, and with the sign of the dividend x. */
  predicate IsRemainder(r: int, x: int, y: int) {
    (if r < 0 then -r else r) < (if y < 0 then -y else y) && (x >= 0 ==> r >= 0) && (x <= 0 ==> r <= 0)
  }

  lemma SignedWrap(x: int)
    ensures -HALF <= x < HALF ==> Signed(Wrap(x)) == x
  {
  }

  lemma Truncated(x: int, y: int)
    requires y != 0
    ensures IsRemainder(x - TruncDiv(x, y) * y, x, y)
  {
    var m, d := if x < 0 then -x else x, if y < 0 then -y else y;
    var q, r := m / d, m % d;
    assert m == q * d + r && 0 <= r < d;
    assert TruncDiv(x, y) == if (x < 0) == (y < 0) then q else -q;
    hide TruncDiv;
    NegateFactors(q, d);
    assert TruncDiv(x, y) * y == if x < 0 then -(q * d) else q * d;
  }

  lemma NegateFactors(q: int, d: int)
    ensures (-q) * d == -(q * d) && q * (-d) == -(q * d) && (-q) * (-d) == q * d
  {
  }

  lemma QuotientRange(x: int, y: int, q: int)
    requires -HALF <= x < HALF && -HALF <= y < HALF && y != 0 && IsRemainder(x - q * y, x, y)
    ensures -HALF <= q <= HALF && (q == HALF <==> x == -HALF && y == -1)
    ensures -HALF <= x - q * y < HALF
  {
    var z := q * y;
    Factors(q, y);
    if y == -1 {
      assert z == -q;
    }
    if q == HALF {
      assert z == HALF * y;
    }
    hide HALF;
  }

  // A product is at least as large as each factor, unless the other one is 0.
  lemma Factors(q: int, y: int)
    requires y != 0
    ensures q >= 0 && y > 0 ==> q * y >= q
    ensures q >= 0 && y < 0 ==> q * y <= -q
    ensures q <= 0 && y > 0 ==> q * y <= q
    ensures q <= 0 && y < 0 ==> q * y >= -q
  {
    var p, d := if q < 0 then -q else q, if y < 0 then -y else y;
    if q == 0 {
      assert q * y == 0;
    } else {
      MulAtLeast(d, p);
      assert d * p == if (q < 0) == (y < 0) then q * y else -(q * y);
    }
  }

  /** Comparisons are those of the signed numbers that the words stand for. */
  lemma SignedComparisons(x: int, y: int)
    requires -HALF <= x < HALF && -HALF <= y < HALF
    ensures OpWord(Eq, Wrap(x), Wrap(y)) == Some(if x == y then 1 else 0)
    ensures OpWord(Op.Ne, Wrap(x), Wrap(y)) == Some(if x == y then 0 else 1)
    ensures OpWord(Lt, Wrap(x), Wrap(y)) == Some(if x < y then 1 else 0)
    ensures OpWord(Op.Ge, Wrap(x), Wrap(y)) == Some(if x < y then 0 else 1)
    ensures OpWord(Gt, Wrap(x), Wrap(y)) == Some(if x > y then 1 else 0)
    ensures OpWord(Op.Le, Wrap(x), Wrap(y)) == Some(if x > y then 0 else 1)
  {
    SignedWrap(x);
    SignedWrap(y);
    hide Wrap, Signed;
  }

  /** Sums, differences and negatives are those of the signed numbers when they fit in 64 bits. */
  lemma SignedSums(a: Word, b: Word)
    ensures var x, y := Signed(a), Signed(b);
            && (-HALF <= x + y < HALF ==> OpWord(Plus, a, b).Some? && Signed(OpWord(Plus, a, b).value) == x + y)
            && (-HALF <= x - y < HALF ==> OpWord(Minus, a, b).Some? && Signed(OpWord(Minus, a, b).value) == x - y)
            && (x > -HALF ==> Signed(Negated(a)) == -x)
  {
    var x, y := Signed(a), Signed(b);
    var i, j := if a < HALF then 0 else 1, if b < HALF then 0 else 1;
    assert a == x + i * WORD && b == y + j * WORD;
    SumWords(a, b);
    hide Signed, Wrap, OpWord, Negated;
    WrapPlus(x + y, i + j);
    WrapPlus(x - y, i - j);
    WrapPlus(0 - x, -i);
    SignedWrap(x + y);
    SignedWrap(x - y);
    SignedWrap(0 - x);
  }

  lemma SumWords(a: Word, b: Word)
    ensures OpWord(Plus, a, b) == Some(Wrap(a + b)) && OpWord(Minus, a, b) == Some(Wrap(a - b))
    ensures Negated(a) == Wrap(0 - a)
  {
  }

  /** So are products. */
  lemma SignedProducts(a: Word, b: Word)
    requires -HALF <= Signed(a) * Signed(b) < HALF
    ensures OpWord(Mult, a, b).Some? && Signed(OpWord(Mult, a, b).value) == Signed(a) * Signed(b)
  {
    SignedProduct(a, b);
    SignedWrap(Signed(a) * Signed(b));
    hide Signed, Wrap;
  }

  lemma SignedProduct(a: Word, b: Word)
    ensures Wrap(a * b) == Wrap(Signed(a) * Signed(b))
  {
    var i, j := if a < HALF then 0 else 1, if b < HALF then 0 else 1;
    var x, y := Signed(a), Signed(b);
    assert a == x + i * WORD && b == y + j * WORD;
    var t := i * b + j * x;
    assert a * b == x * y + t * WORD by {
      assert a * b == x * b + i * WORD * b;
      assert x * b == x * y + x * (j * WORD);
    }
    hide Signed;
    WrapPlus(x * y, t);
  }

  lemma WrapPlus(x: int, t: int)
    ensures Wrap(x + t * WORD) == Wrap(x)
  {
    var q := x / WORD;
    DivModUnique(x + t * WORD, WORD, q + t, x % WORD);
  }
}
