/** 64-bit words, powers, and bitwise operations on non-negative integers. */
module Words {

  const WORD: int := 0x1_0000_0000_0000_0000
  const HALF: int := 0x8000_0000_0000_0000

  /** A 64-bit register or memory word, held as its unsigned value. */
  type Word = x: int | 0 <= x < 0x1_0000_0000_0000_0000

  /** Reduction modulo 2^64. */
  function Wrap(x: int): Word {
    x % WORD
  }

  /** The two's complement reading of a word. */
  function Signed(w: Word): int {
    if w < HALF then w else w - WORD
  }

  lemma WrapSigned(w: Word)
    ensures -HALF <= Signed(w) < HALF
    ensures Wrap(Signed(w)) == w
  {
  }

  function Pow2(k: nat): (r: nat)
    ensures r >= 1
  {
    if k == 0 then 1 else 2 * Pow2(k - 1)
  }

  lemma {:induction false} Pow2Add(a: nat, b: nat)
    ensures Pow2(a + b) == Pow2(a) * Pow2(b)
  {
    if a > 0 {
      Pow2Add(a - 1, b);
      assert a + b - 1 == (a - 1) + b;
    }
  }

  lemma {:induction false} Pow2Mono(a: nat, b: nat)
    requires a <= b
    ensures Pow2(a) <= Pow2(b)
  {
    if a < b {
      Pow2Mono(a, b - 1);
    }
  }

  lemma Pow2Small()
    ensures Pow2(1) == 2 && Pow2(2) == 4 && Pow2(3) == 8 && Pow2(4) == 16 && Pow2(5) == 32 && Pow2(6) == 64
    ensures Pow2(7) == 128 && Pow2(8) == 0x100
  {
  }

  lemma Pow2Square(k: nat, v: nat)
    requires Pow2(k) == v
    ensures Pow2(2 * k) == v * v
  {
    Pow2Add(k, k);
  }

  // The values of Pow2 that occur as constants.
  lemma Pow2Values()
    ensures Pow2(16) == 0x1_0000 && Pow2(32) == 0x1_0000_0000
    ensures Pow2(63) == HALF && Pow2(64) == WORD
  {
    hide Pow2;
    Pow2Small();
    Pow2Square(8, 0x100);
    Pow2Square(16, 0x1_0000);
    Pow2Square(32, 0x1_0000_0000);
    Pow2Step(63);
  }

  lemma Pow2Step(k: nat)
    ensures Pow2(k + 1) == 2 * Pow2(k)
  {
  }

  datatype BitOp = BitAnd | BitOr | BitXor

  function BitOf(op: BitOp, a: bool, b: bool): bool {
    match op
    case BitAnd => a && b
    case BitOr => a || b
    case BitXor => a != b
  }

  /** The bitwise operation on the low k bits of x and y, lowest bit first. */
  function Bits(op: BitOp, k: nat, x: nat, y: nat): (r: nat)
    ensures r < Pow2(k)
    decreases k
  {
    if k == 0 then 0
    else (if BitOf(op, x % 2 == 1, y % 2 == 1) then 1 else 0) + 2 * Bits(op, k - 1, x / 2, y / 2)
  }

  lemma {:induction false} BitsCommute(op: BitOp, k: nat, x: nat, y: nat)
    ensures Bits(op, k, x, y) == Bits(op, k, y, x)
    decreases k
  {
    if k > 0 {
      BitsCommute(op, k - 1, x / 2, y / 2);
    }
  }

  // Conjunction with 2^j - 1 keeps the j low bits.
  lemma {:induction false} AndMask(k: nat, x: nat, j: nat)
    requires j <= k
    ensures Bits(BitAnd, k, x, Pow2(j) - 1) == x % Pow2(j)
    decreases k
  {
    hide Bits;
    if j == 0 {
      AndZero(k, x);
    } else {
      AndMask(k - 1, x / 2, j - 1);
      MaskStep(k, x, Pow2(j - 1), Pow2(j));
    }
  }

  lemma MaskStep(k: nat, x: nat, p: nat, d: nat)
    requires k >= 1 && p >= 1 && d == 2 * p
    requires Bits(BitAnd, k - 1, x / 2, p - 1) == (x / 2) % p
    ensures Bits(BitAnd, k, x, d - 1) == x % d
  {
    hide Pow2;
    ModDouble(x, p);
    assert (d - 1) / 2 == p - 1 && (d - 1) % 2 == 1;
  }

  lemma {:induction false} AndZero(k: nat, x: nat)
    ensures Bits(BitAnd, k, x, 0) == 0
    decreases k
  {
    if k > 0 {
      AndZero(k - 1, x / 2);
    }
  }

  lemma ModDouble(x: nat, p: nat)
    requires p >= 1
    ensures x % (2 * p) == x % 2 + 2 * ((x / 2) % p)
  {
    var h := x / 2;
    var q, r := h / p, h % p;
    assert h == q * p + r;
    assert x == q * (2 * p) + (x % 2 + 2 * r);
    DivModUnique(x, 2 * p, q, x % 2 + 2 * r);
  }

  lemma MulAtLeast(a: int, d: int)
    requires a >= 1 && d >= 1
    ensures a * d >= d
  {
    assert (a - 1) * d >= 0;
  }

  lemma DivBounds(x: nat, d: int)
    requires d >= 1
    ensures 0 <= x / d <= x
  {
    var q := x / d;
    assert x == q * d + x % d;
    if -q >= 1 {
      MulAtLeast(-q, d);
    }
    if q >= 1 {
      MulAtLeast(d, q);
    }
  }

  // A quotient and a remainder are determined by their defining equation.
  lemma DivModUnique(x: int, d: int, q: int, r: int)
    requires d >= 1 && x == q * d + r && 0 <= r < d
    ensures x / d == q && x % d == r
  {
    var k := x / d - q;
    assert x == (x / d) * d + x % d;
    assert k * d == r - x % d by {
      assert (x / d) * d == (q + k) * d == q * d + k * d;
    }
    if k >= 1 {
      MulAtLeast(k, d);
    }
    if -k >= 1 {
      MulAtLeast(-k, d);
    }
  }

  // Disjunction of operands that share no bit is their sum.
  lemma {:induction false} OrDisjoint(k: nat, x: nat, y: nat, j: nat)
    requires j <= k && y < Pow2(j) && x % Pow2(j) == 0 && x < Pow2(k)
    ensures Bits(BitOr, k, x, y) == x + y
    decreases k
  {
    if k > 0 {
      if j == 0 {
        OrDisjoint(k - 1, x / 2, 0, 0);
      } else {
        ModDouble(x, Pow2(j - 1));
        OrDisjoint(k - 1, x / 2, y / 2, j - 1);
      }
    }
  }
}
