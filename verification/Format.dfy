/** Printing a number in exponential notation, in place in a string buffer, and reading it back. */
module Format {
  import opened Words
  import opened Machine
  import opened Powers
  import opened Unrounded
  import opened Scaling
  import opened Decimal
  import Binary64
  import FixedWidth
  import Logarithms

  predicate IsDigit(c: char) { '0' <= c <= '9' }

  function DigitChar(x: nat): (c: char)
    ensures IsDigit(c) && c as int - '0' as int == x % 10
  {
    (x % 10 + '0' as int) as char
  }

  /** The number that a sequence of digits stands for. */
  function DigitsOf(s: seq<char>): int {
    if s == [] then 0 else 10 * DigitsOf(s[..|s| - 1]) + (s[|s| - 1] as int - '0' as int)
  }

  predicate AllDigits(s: seq<char>) { forall i :: 0 <= i < |s| ==> IsDigit(s[i]) }

  // ----- reading -----

  /** mantissa / 10^places * 10^exponent. */
  datatype Number = Number(mantissa: int, places: nat, exponent: int)

  // The end of the digits from position i.
  function Scan(s: string, i: nat): (j: nat)
    requires i <= |s|
    ensures i <= j <= |s| && AllDigits(s[i..j]) && (j < |s| ==> !IsDigit(s[j]))
    decreases |s| - i
  {
    if i == |s| || !IsDigit(s[i]) then i else Scan(s, i + 1)
  }

  /** Reads d.ddde+dd or de+dd, with any number of digits after the point and in the exponent. */
  function Parse(s: string): Option<Number> {
    if |s| < 2 || !IsDigit(s[0]) then None
    else
      var i := FractionStart(s);
      var j := Scan(s, i);
      if j + 2 >= |s| || s[j] != 'e' || (s[j + 1] != '+' && s[j + 1] != '-') || Scan(s, j + 2) != |s| then None
      else
        var e := DigitsOf(s[j + 2..]);
        Some(Number(DigitsOf([s[0]] + s[i..j]), j - i, if s[j + 1] == '-' then -e else e))
  }

  // The digits after the first one start behind the decimal point, if there is one.
  function FractionStart(s: string): (i: nat)
    requires |s| >= 2
    ensures i <= 2
  {
    if s[1] == '.' then 2 else 1
  }

  /** s reads as mantissa / 10^places * 10^exponent. */
  predicate Reads(s: string, mantissa: int, places: int, exponent: int) {
    Parse(s).Some? && Parse(s).value.mantissa == mantissa && Parse(s).value.places == places
      && Parse(s).value.exponent == exponent
  }

  lemma {:induction false} ScanStops(s: string, i: nat, j: nat)
    requires i <= j <= |s| && AllDigits(s[i..j]) && (j < |s| ==> !IsDigit(s[j]))
    ensures Scan(s, i) == j
    decreases j - i
  {
    if i < j {
      assert s[i..j][0] == s[i] && s[i + 1..j] == s[i..j][1..];
      ScanStops(s, i + 1, j);
    }
  }

  // ----- digits -----

  lemma {:induction false} DigitsPrepend(c: char, s: seq<char>)
    ensures DigitsOf([c] + s) == (c as int - '0' as int) * Pow10(|s|) + DigitsOf(s)
  {
    var t := [c] + s;
    if s == [] {
      assert t == [c] && t[..0] == [];
      assert DigitsOf([]) == 0 && Pow10(0) == 1;
    } else {
      var n := |s| - 1;
      assert t[..|t| - 1] == [c] + s[..n];
      DigitsPrepend(c, s[..n]);
      assert Pow10(|s|) == 10 * Pow10(n);
      TenFold(c as int - '0' as int, Pow10(n), DigitsOf(s[..n]));
    }
  }

  lemma TenFold(c: int, t: int, d: int)
    ensures 10 * (c * t + d) == c * (10 * t) + 10 * d
  {
  }

  lemma DigitStep(u0: nat, u: nat, k: nat, d: int)
    requires u0 == u * Pow10(k) + d && 0 <= d < Pow10(k)
    ensures var d' := (u % 10) * Pow10(k) + d;
            u0 == (u / 10) * Pow10(k + 1) + d' && 0 <= d' < Pow10(k + 1)
  {
    var t, q, r := Pow10(k), u / 10, u % 10;
    assert Pow10(k + 1) == 10 * t;
    hide Pow10;
    assert u == 10 * q + r;
    assert u * t == q * (10 * t) + r * t;
    assert 0 <= r * t <= 9 * t by {
      assert (9 - r) * t >= 0;
    }
  }

  /** The digits ds of u0 have been written, and u is what is left. */
  predicate Written(u0: nat, u: nat, ds: seq<char>) {
    AllDigits(ds) && u0 == u * Pow10(|ds|) + DigitsOf(ds) && 0 <= DigitsOf(ds) < Pow10(|ds|) && LastDigits(ds, u0)
  }

  /** The characters ds are the last digits of u: the one with k more behind it counts 10^k. */
  predicate LastDigits(ds: seq<char>, u: nat) {
    forall i :: 0 <= i < |ds| ==> ds[i] as int == '0' as int + u / Pow10(|ds| - 1 - i) % 10
  }

  lemma NextDigit(u0: nat, u: nat, ds: seq<char>)
    requires LastDigits(ds, u0) && u == u0 / Pow10(|ds|)
    ensures LastDigits([DigitChar(u)] + ds, u0)
  {
    hide Pow10;
    var t := [DigitChar(u)] + ds;
    forall i | 0 <= i < |t|
      ensures t[i] as int == '0' as int + u0 / Pow10(|t| - 1 - i) % 10
    {
      if i > 0 {
        assert t[i] == ds[i - 1] && |t| - 1 - i == |ds| - 1 - (i - 1);
      }
    }
  }

  lemma WrittenStep(u0: nat, u: nat, ds: seq<char>)
    requires Written(u0, u, ds)
    ensures Written(u0, u / 10, [DigitChar(u)] + ds)
  {
    var c := DigitChar(u);
    DigitsPrepend(c, ds);
    DigitStep(u0, u, |ds|, DigitsOf(ds));
    assert |[c] + ds| == |ds| + 1;
    DivModUnique(u0, Pow10(|ds|), u, DigitsOf(ds));
    NextDigit(u0, u, ds);
    hide Pow10, DigitsOf, DigitChar, LastDigits;
  }

  lemma WrittenAll(u0: nat, u: nat, ds: seq<char>)
    requires Written(u0, u, ds)
    ensures AllDigits(ds) && DigitsOf(ds) == u0 % Pow10(|ds|) && LastDigits(ds, u0)
  {
    DivModUnique(u0, Pow10(|ds|), u, DigitsOf(ds));
  }

  /** The last w digits of u, into a buffer with room for 8 characters more. */
  method FormatBase10(u0: Word, w: nat) returns (a: array<char>)
    requires w >= 1
    ensures fresh(a) && a.Length == w + 8
    ensures AllDigits(a[..w]) && DigitsOf(a[..w]) == u0 % Pow10(w) && LastDigits(a[..w], u0)
  {
    a := new char[w + 8];
    var u, nd := u0, w - 1;
    ghost var rest: seq<char> := [];
    assert Written(u0, u, rest);
    hide LastDigits, Pow10, DigitsOf, Written, DigitChar;
    while true
      invariant 0 <= nd < w && |rest| == w - 1 - nd && rest == a[nd + 1..w] && Written(u0, u, rest)
      decreases nd
    {
      a[nd] := DigitChar(u);
      WrittenStep(u0, u, rest);
      rest := [DigitChar(u)] + rest;
      assert a[nd..w] == rest;
      u := u / 10;
      nd := nd - 1;
      if nd < 0 {
        break;
      }
    }
    WrittenAll(u0, u, rest);
  }

  /** Appends text in place; there is room while the new length stays below the capacity. */
  method Append(a: array<char>, len: nat, t: string) returns (len': nat)
    requires len + |t| < a.Length
    modifies a
    ensures len' == len + |t| && a[..len'] == old(a[..len]) + t
  {
    var i := 0;
    while i < |t|
      invariant 0 <= i <= |t| && a[..len + i] == old(a[..len]) + t[..i]
    {
      a[len + i] := t[i];
      assert a[..len + i + 1] == a[..len + i] + [t[i]];
      i := i + 1;
    }
    len' := len + |t|;
  }

  // The digits ds with a decimal point behind the first one, in place of the last one. A single digit stays as it is.
  function Mantissa(ds: seq<char>): (r: string)
    requires |ds| >= 1
    ensures |r| == |ds|
  {
    if |ds| == 1 then ds else [ds[0], '.'] + ds[1..|ds| - 1]
  }

  // Its digits, and how many of them are behind the point.
  function KeptDigits(ds: seq<char>): seq<char>
    requires |ds| >= 1
  {
    if |ds| == 1 then ds else ds[..|ds| - 1]
  }

  function Places(nd: int): nat { if nd <= 1 then 0 else nd - 2 }

  function Kept(d: nat, nd: nat): nat { if nd <= 1 then d else d / 10 }

  // The text of the digits ds and an exponent of three digits.
  function Text(ds: seq<char>, sign: char, e: nat): string
    requires |ds| >= 1
  {
    Mantissa(ds) + ['e', sign, DigitChar(e / 100), DigitChar(e / 10), DigitChar(e)]
  }

  // Where the parts of the text stand.
  lemma ParseText(ds: seq<char>, sign: char, e: nat)
    requires |ds| >= 1 && AllDigits(ds) && sign in "+-"
    ensures var x := DigitsOf([DigitChar(e / 100), DigitChar(e / 10), DigitChar(e)]);
            Reads(Text(ds, sign, e), DigitsOf(KeptDigits(ds)), Places(|ds|), if sign == '-' then -x else x)
  {
    hide Text, DigitsOf, DigitChar, KeptDigits, Reads, Scan, AllDigits, FractionStart;
    var s, n := Text(ds, sign, e), |ds|;
    TextShape(ds, sign, e);
    var i := FractionStart(s);
    ScanStops(s, i, n);
    ScanStops(s, n + 2, n + 5);
    ParseParts(s, i, n);
  }

  function SignOf(p: int): char { if p < 0 then '-' else '+' }

  function Magnitude(p: int): nat { if p < 0 then -p else p }

  /** Only three digits of an exponent are printed. */
  function Shown(p: int): int { if p < 0 then -(-p % 1000) else p % 1000 }

  /**
   Reading the text gives the number without its last digit, unless that is the only one, and the exponent modulo 1000.
   */
  lemma ReadBack(ds: seq<char>, p: int, d: nat)
    requires |ds| >= 1 && AllDigits(ds) && DigitsOf(ds) == d
    ensures Reads(Text(ds, SignOf(p), Magnitude(p)), Kept(d, |ds|), Places(|ds|), Shown(p))
  {
    hide Text, AllDigits, DigitChar, DigitsOf, Reads;
    ParseText(ds, SignOf(p), Magnitude(p));
    DropLast(ds);
    ThreeDigits(Magnitude(p));
  }

  lemma ParseParts(s: string, i: nat, j: nat)
    requires 1 <= i <= j && j + 2 < |s| && IsDigit(s[0]) && i == FractionStart(s) && s[j] == 'e' && s[j + 1] in "+-"
    requires Scan(s, i) == j && Scan(s, j + 2) == |s|
    ensures var e := DigitsOf(s[j + 2..]);
            Reads(s, DigitsOf([s[0]] + s[i..j]), j - i, if s[j + 1] == '-' then -e else e)
  {
    hide Scan, DigitsOf;
  }

  lemma TextShape(ds: seq<char>, sign: char, e: nat)
    requires |ds| >= 1 && AllDigits(ds)
    ensures var s, n := Text(ds, sign, e), |ds|;
            && |s| == n + 5 && IsDigit(s[0]) && s[n] == 'e' && s[n + 1] == sign
            && FractionStart(s) == n - Places(n) && AllDigits(s[FractionStart(s)..n])
            && [s[0]] + s[FractionStart(s)..n] == KeptDigits(ds)
            && AllDigits(s[n + 2..n + 5]) && s[n + 2..] == [DigitChar(e / 100), DigitChar(e / 10), DigitChar(e)]
  {
    var s, n := Text(ds, sign, e), |ds|;
    if n == 1 {
      assert s[1..1] == [];
    } else {
      assert s[2..n] == ds[1..n - 1];
    }
    assert s[n + 2..] == [DigitChar(e / 100), DigitChar(e / 10), DigitChar(e)];
    assert s[n + 2..n + 5] == s[n + 2..];
    hide DigitChar;
    if n > 1 {
      assert [ds[0]] + ds[1..n - 1] == ds[..n - 1];
    }
  }

  lemma DropLast(ds: seq<char>)
    requires |ds| >= 1 && AllDigits(ds)
    ensures DigitsOf(ds[..|ds| - 1]) == DigitsOf(ds) / 10
  {
    assert IsDigit(ds[|ds| - 1]);
  }

  lemma ThreeDigits(e: nat)
    ensures DigitsOf([DigitChar(e / 100), DigitChar(e / 10), DigitChar(e)]) == e % 1000
  {
    var a, b, c := DigitChar(e / 100), DigitChar(e / 10), DigitChar(e);
    assert [a, b, c][..2] == [a, b] && [a, b][..1] == [a] && [a][..0] == [];
    assert DigitsOf([a]) == a as int - '0' as int;
    assert DigitsOf([a, b]) == 10 * DigitsOf([a]) + (b as int - '0' as int);
    assert e / 10 / 10 == e / 100;
  }

  /** The number that a text stands for. */
  function ValueRead(s: string): real
    requires Parse(s).Some?
  {
    var x := Parse(s).value;
    Prod(x.mantissa as real, Ten(x.exponent - x.places))
  }

  // A number without its last digit and with the shown exponent, and the number itself.
  lemma ShownExactly(d: nat, p: int, nd: nat)
    requires nd >= 2 && d >= 10
    ensures Prod((d / 10) as real, Ten(Shown(p + nd - 1) - (nd - 2))) == Prod(d as real, Ten(p)) <==>
            d % 10 == 0 && -1000 < p + nd - 1 < 1000
  {
    hide Ten, Prod;
    var e := p + nd - 1;
    var k := e - Shown(e);
    assert Shown(e) - (nd - 2) == p + 1 - k;
    assert k == 0 <==> -1000 < e < 1000;
    assert k > 0 ==> k >= 1000;
    assert k < 0 ==> k <= -1000;
    if k > 0 {
      FixedWidth.TenAdd(p + 1 - k, k - 1, p);
      TenAtLeast(0, k - 1);
      FactorOut(d, Ten(p + 1 - k), Ten(k - 1), Ten(p));
    } else {
      FixedWidth.TenAdd(p, 1 - k, p + 1 - k);
      TenAtLeast(if k == 0 then 1 else 2, 1 - k);
      FactorIn(d, Ten(p), Ten(1 - k), Ten(p + 1 - k));
    }
  }

  // A single digit is not lost.
  lemma OneDigit(s: string, d: nat, p: int)
    requires 1 <= d < 10 && Reads(s, d, 0, Shown(p))
    ensures ValueRead(s) == Prod(d as real, Ten(p)) <==> -1000 < p < 1000
  {
    hide Ten, Prod, Parse;
    assert ValueRead(s) == Prod(d as real, Ten(Shown(p)));
    if p >= 1000 {
      TenSmaller(Shown(p), p);
    } else if p <= -1000 {
      TenSmaller(p, Shown(p));
    }
    SameProduct(d as real, Ten(Shown(p)), Ten(p));
  }

  lemma TenSmaller(a: int, b: int)
    requires a < b
    ensures Ten(a) < Ten(b)
  {
    Logarithms.TenMono(a + 1, b);
    FixedWidth.TenNext(a);
  }

  lemma SameProduct(d: real, a: real, b: real)
    requires d > 0.0
    ensures Prod(d, a) == Prod(d, b) <==> a == b
  {
    SameFactor(a, b, d);
    assert Prod(d, a) == a * d && Prod(d, b) == b * d;
  }

  lemma ReadExactly(s: string, d: nat, p: int, nd: nat)
    requires nd >= 2 && d >= 10 && Reads(s, d / 10, nd - 2, Shown(p + nd - 1))
    ensures ValueRead(s) == Prod(d as real, Ten(p)) <==> d % 10 == 0 && -1000 < p + nd - 1 < 1000
  {
    hide Ten, Prod, Parse;
    ShownExactly(d, p, nd);
  }

  lemma TenAtLeast(i: nat, j: int)
    requires i <= 2 && i <= j
    ensures Ten(j) >= (if i == 0 then 1.0 else if i == 1 then 10.0 else 100.0)
    ensures i == j == 1 ==> Ten(j) == 10.0
  {
    Logarithms.TenMono(i, j);
    assert Ten(0) == 1.0 && Ten(1) == 10.0 && Ten(2) == 100.0;
  }

  lemma FactorOut(d: nat, a: real, t: real, b: real)
    requires d >= 10 && a > 0.0 && t >= 1.0 && Prod(a, t) == b
    ensures Prod((d / 10) as real, a) != Prod(d as real, b)
  {
    var x := (d / 10) as real;
    assert d as real * t >= d as real > x by {
      assert (t - 1.0) * d as real >= 0.0;
    }
    assert Prod(d as real, b) == (d as real * t) * a;
    assert (d as real * t - x) * a > 0.0;
  }

  lemma FactorIn(d: nat, a: real, t: real, b: real)
    requires d >= 10 && a > 0.0 && (t == 10.0 || t >= 100.0) && Prod(a, t) == b
    ensures Prod((d / 10) as real, b) == Prod(d as real, a) <==> d % 10 == 0 && t == 10.0
  {
    var x := (d / 10) as real;
    assert 10.0 * x == d as real - (d % 10) as real;
    assert Prod(x, b) == (x * t) * a;
    if t >= 100.0 {
      assert x * t >= 100.0 * x > d as real by {
        assert (t - 100.0) * x >= 0.0;
      }
    }
    SameFactor(x * t, d as real, a);
  }

  lemma SameFactor(x: real, y: real, a: real)
    requires a > 0.0
    ensures x * a == y * a <==> x == y
  {
    if x > y {
      assert (x - y) * a > 0.0;
    } else if y > x {
      assert (y - x) * a > 0.0;
    }
  }

  /**
   The characters of d * 10^p with nd digits: the digits but the last, or the only one, with a point behind the first,
   then the exponent of the first digit, with its sign and three digits.
   */
  predicate Layout(s: string, d: nat, p: int, nd: nat)
    requires nd >= 1
  {
    var x := p + nd - 1;
    var e := if x < 0 then -x else x;
    && |s| == nd + 5
    && s[0] as int == '0' as int + d / Pow10(nd - 1) % 10
    && (nd >= 2 ==> s[1] == '.')
    && (forall i :: 2 <= i < nd ==> s[i] as int == '0' as int + d / Pow10(nd - i) % 10)
    && s[nd] == 'e' && s[nd + 1] == (if x < 0 then '-' else '+')
    && s[nd + 2] as int == '0' as int + e / 100 % 10
    && s[nd + 3] as int == '0' as int + e / 10 % 10
    && s[nd + 4] as int == '0' as int + e % 10
  }

  // The characters of a text.
  lemma TextChars(ds: seq<char>, sign: char, e: nat)
    requires |ds| >= 1
    ensures var s, n := Text(ds, sign, e), |ds|;
            && |s| == n + 5 && s[0] == ds[0] && (n >= 2 ==> s[1] == '.')
            && (forall i :: 2 <= i < n ==> s[i] == ds[i - 1])
            && s[n..] == ['e', sign, DigitChar(e / 100), DigitChar(e / 10), DigitChar(e)]
  {
    hide DigitChar;
    assert |Mantissa(ds)| == |ds|;
  }

  lemma TextLayout(ds: seq<char>, d: nat, p: int, nd: nat)
    requires |ds| == nd >= 1 && LastDigits(ds, d)
    ensures Layout(Text(ds, SignOf(p + nd - 1), Magnitude(p + nd - 1)), d, p, nd)
  {
    hide Pow10, Text;
    var e := Magnitude(p + nd - 1);
    var s := Text(ds, SignOf(p + nd - 1), e);
    TextChars(ds, SignOf(p + nd - 1), e);
    assert forall i :: 0 <= i < 5 ==> s[nd..][i] == s[nd + i];
    LaidOut(s, ds, d, p, nd);
  }

  lemma LaidOut(s: string, ds: seq<char>, d: nat, p: int, nd: nat)
    requires |ds| == nd >= 1 && LastDigits(ds, d) && |s| == nd + 5 && s[0] == ds[0] && (nd >= 2 ==> s[1] == '.')
    requires forall i :: 2 <= i < nd ==> s[i] == ds[i - 1]
    requires var x := p + nd - 1;
             var e := if x < 0 then -x else x;
             && s[nd] == 'e' && s[nd + 1] == (if x < 0 then '-' else '+') && s[nd + 2] == DigitChar(e / 100)
             && s[nd + 3] == DigitChar(e / 10) && s[nd + 4] == DigitChar(e)
    ensures Layout(s, d, p, nd)
  {
    hide Pow10;
    forall i | 2 <= i < nd
      ensures s[i] as int == '0' as int + d / Pow10(nd - i) % 10
    {
      assert s[i] == ds[i - 1] && nd - i == |ds| - 1 - (i - 1);
    }
  }

  /**
   The last nd digits of d, times 10^p. The e of the exponent overwrites the last digit, so that the text reads back
   without it, or the decimal point when there is only one digit; the exponent is printed with three digits. So the text
   stands for d * 10^p exactly when the last digit is 0, or the only one, and the exponent has no more than three
   digits.
   */
  method Fmt(d: Word, p: int, nd: nat) returns (s: array<char>, len: nat)
    requires nd >= 1
    ensures len == nd + 5 <= s.Length == nd + 8 && Layout(s[..len], d, p, nd)
    ensures Reads(s[..len], Kept(d % Pow10(nd), nd), Places(nd), Shown(p + nd - 1))
    ensures nd >= 2 && 10 <= d < Pow10(nd) ==>
              (ValueRead(s[..len]) == Prod(d as real, Ten(p)) <==> d % 10 == 0 && -1000 < p + nd - 1 < 1000)
    ensures nd == 1 && 1 <= d < 10 ==> (ValueRead(s[..len]) == Prod(d as real, Ten(p)) <==> -1000 < p < 1000)
  {
    hide Reads, ValueRead, Parse, Ten, Prod, Shown, Text, Mantissa, ExponentText, AllDigits, DigitsOf, Pow10,
         LastDigits, Layout;
    s := FormatBase10(d, nd);
    ghost var ds, x := s[..nd], d % Pow10(nd);
    len := WriteText(s, nd, p, Mantissa(ds), ExponentText(p + nd - 1));
    TextJoined(ds, p + nd - 1);
    TextLayout(ds, d, p, nd);
    ReadBack(ds, p + nd - 1, x);
    if nd >= 2 && 10 <= d < Pow10(nd) {
      DivModUnique(d, Pow10(nd), 0, d);
      ReadExactly(s[..len], d, p, nd);
    } else if nd == 1 && 1 <= d < 10 {
      TenOnce();
      OneDigit(s[..len], d, p);
    }
  }

  lemma TenOnce()
    ensures Pow10(1) == 10
  {
  }

  // 1234 is printed as 1.23e+003.
  method LastDigitLost() returns (s: array<char>, len: nat)
    ensures len <= s.Length && Parse(s[..len]).Some? && ValueRead(s[..len]) == 1230.0
  {
    assert Pow10(3) == 1000 && Pow10(4) == 10000;
    s, len := Fmt(1234, 0, 4);
    assert Parse(s[..len]).value == Number(123, 2, 3);
    assert Ten(1) == 10.0;
  }

  // The part of Fmt that moves the digits and writes the rest around them.
  method WriteText(s: array<char>, nd: nat, p0: int, ghost mantissa: string, ghost exponent: string) returns (len: nat)
    requires nd >= 1 && s.Length == nd + 8 && mantissa == Mantissa(s[..nd]) && exponent == ExponentText(p0 + nd - 1)
    modifies s
    ensures len == nd + 5 && s[..len] == mantissa + "e" + exponent
  {
    hide ExponentText, Mantissa;
    len := nd;
    var p := p0 + nd - 1;
    MoveUp(s, nd, mantissa);
    len := Append(s, len, "e");
    len := PutExponent(s, len, p, exponent);
  }

  lemma TextJoined(ds: seq<char>, p: int)
    requires |ds| >= 1
    ensures Mantissa(ds) + "e" + ExponentText(p) == Text(ds, SignOf(p), Magnitude(p))
  {
    hide DigitChar, SignOf, Magnitude;
  }

  function ExponentText(p: int): string {
    var e := Magnitude(p);
    [SignOf(p), DigitChar(e / 100), DigitChar(e / 10), DigitChar(e)]
  }

  // The part of Fmt that writes the sign and the digits of the exponent.
  method PutExponent(s: array<char>, len0: nat, p0: int, ghost exponent: string) returns (len: nat)
    requires len0 + 4 < s.Length && exponent == ExponentText(p0)
    modifies s
    ensures len == len0 + 4
    ensures s[..len] == old(s[..len0]) + exponent
  {
    hide DigitChar;
    var p := p0;
    if p < 0 {
      len := Append(s, len0, "-");
      p := -p;
    } else {
      len := Append(s, len0, "+");
    }
    ghost var t, e := s[..len], p;
    len := Append(s, len, "   ");
    assert s[..len0 + 1] == s[..len][..len0 + 1] == t;
    var j := len - 1;
    s[j] := DigitChar(p);
    j := j - 1;
    p := p / 10;
    s[j] := DigitChar(p);
    j := j - 1;
    p := p / 10;
    s[j] := DigitChar(p);
    assert e / 10 / 10 == e / 100;
    assert s[..len0 + 1] == t;
  }

  // Moves the digits after the first up by one, and inserts the decimal point.
  method MoveUp(s: array<char>, nd: nat, ghost mantissa: string)
    requires 1 <= nd && nd + 1 < s.Length && mantissa == Mantissa(s[..nd])
    modifies s
    ensures s[..nd] == mantissa
  {
    var i: int := nd;
    while true
      invariant 0 <= i <= nd
      invariant s[..i + 1] == old(s[..i + 1]) && s[i + 2..nd + 2] == old(s[i + 1..nd + 1])
      decreases i
    {
      s[i + 1] := s[i];
      i := i - 1;
      if i < 0 {
        break;
      }
    }
    if nd >= 2 {
      assert s[2..nd] == s[1..nd + 2][1..nd - 1] == old(s[..nd])[1..nd - 1];
    }
    s[1] := '.';
    if nd >= 2 {
      assert s[..nd] == [s[0], '.'] + s[2..nd];
    }
  }

  // ----- both together -----

  /**
   A positive number printed with dp digits behind the point, where d is the number correctly rounded to dp + 1 digits:
   the last digit of d is lost, not rounded away, unless it is the only one. With more than 17 digits the text stands
   for zero.
   */
  method FormatFloat(f: Word, dp: nat, tab: seq<Word>) returns (s: array<char>, len: nat, ghost d: nat, ghost q: int)
    requires Binary64.Finite(f) && FixedWidth.PowerTable(tab)
    ensures dp <= 17 ==> Pow10(dp) <= d < Pow10(dp + 1) && d == RoundEven(Prod(Binary64.ValueOf(f), Ten(-q)))
    ensures dp <= 17 ==> RoundEven(Prod(Binary64.ValueOf(f), Ten(1 - q))) >= Pow10(dp + 1)
    ensures dp > 17 ==> d == 0 && q == 0
    ensures len == dp + 6 <= s.Length && Layout(s[..len], d, q, dp + 1)
    ensures Reads(s[..len], Kept(d, dp + 1), Places(dp + 1), Shown(q + dp))
    ensures dp <= 17 ==> Shown(q + dp) == q + dp
  {
    hide Pow10, Reads, Layout, RoundEven, Prod, Ten, Binary64.ValueOf, FixedWidth.PowerTable;
    var n := dp + 1;
    var m, x := FixedWidth.FixedWidth(f, n, tab);
    if m < Pow10(n) {
      DivModUnique(m, Pow10(n), 0, m);
    }
    s, len := Fmt(m, x, n);
    d, q := m, x;
  }
}
