/** The UTF-8 automaton and encoder. */
module Utf8 {
  import opened Words
  import opened Machine
  import opened Unrounded

  type Byte = x: int | 0 <= x < 256

  // ----- well-formed sequences: section 4 of RFC 3629 -----

  predicate Tail(b: Byte) { 0x80 <= b <= 0xBF }

  /** The second byte that a lead byte of three or four allows. */
  predicate Second(a: Byte, b: Byte) {
    if a == 0xE0 then 0xA0 <= b <= 0xBF
    else if a == 0xED then 0x80 <= b <= 0x9F
    else if a == 0xF0 then 0x90 <= b <= 0xBF
    else if a == 0xF4 then 0x80 <= b <= 0x8F
    else Tail(b)
  }

  predicate WellFormed(s: seq<Byte>) {
    || (|s| == 1 && s[0] <= 0x7F)
    || (|s| == 2 && 0xC2 <= s[0] <= 0xDF && Tail(s[1]))
    || (|s| == 3 && 0xE0 <= s[0] <= 0xEF && Second(s[0], s[1]) && Tail(s[2]))
    || (|s| == 4 && 0xF0 <= s[0] <= 0xF4 && Second(s[0], s[1]) && Tail(s[2]) && Tail(s[3]))
  }

  /** The number that a well-formed sequence encodes: section 3 of RFC 3629. */
  function CodePoint(s: seq<Byte>): int
    requires WellFormed(s)
  {
    if |s| == 1 then s[0]
    else if |s| == 2 then Six(Minus(s[0], 0xC0), s[1])
    else if |s| == 3 then Six(Six(Minus(s[0], 0xE0), s[1]), s[2])
    else Six(Six(Six(Minus(s[0], 0xF0), s[1]), s[2]), s[3])
  }

  function Minus(b: int, base: int): int { b - base }

  /** Six more bits, from a tail byte. */
  function Six(c: int, b: int): int { c * 64 + (b - 0x80) }

  const MAX_RUNE: int := 0x10FFFF
  const RUNE_ERROR: int := 0xFFFD

  predicate Surrogate(r: int) { 0xD800 <= r <= 0xDFFF }

  predicate Scalar(r: int) { 0 <= r <= MAX_RUNE && !Surrogate(r) }

  /** The encoding of a scalar value. */
  function Encoding(r: int): (s: seq<Byte>)
    requires Scalar(r)
  {
    if r <= 0x7F then [r]
    else if r <= 0x7FF then [0xC0 + r / 64, 0x80 + r % 64]
    else if r <= 0xFFFF then [0xE0 + r / 4096, 0x80 + r / 64 % 64, 0x80 + r % 64]
    else [0xF0 + r / 262144, 0x80 + r / 4096 % 64, 0x80 + r / 64 % 64, 0x80 + r % 64]
  }

  lemma SixParts(c: int, b: int)
    requires 0x80 <= b <= 0xBF
    ensures Six(c, b) / 64 == c && Six(c, b) % 64 == b - 0x80
    ensures c >= 0 ==> Six(c, b) / 4096 == c / 64 && Six(c, b) / 262144 == c / 4096
  {
  }

  lemma SixJoins(r: int)
    requires r >= 0
    ensures Six(r / 64, 0x80 + r % 64) == r
  {
  }

  /** Every scalar value has a well-formed encoding, which encodes it. */
  lemma EncodingDecodes(r: int)
    requires Scalar(r)
    ensures WellFormed(Encoding(r)) && CodePoint(Encoding(r)) == r
  {
    var s := Encoding(r);
    SixJoins(r);
    SixJoins(r / 64);
    SixJoins(r / 64 / 64);
    assert r / 64 / 64 == r / 4096 && r / 64 / 64 / 64 == r / 262144;
    EncodingShape(r);
    hide Six, WellFormed, Encoding;
  }

  lemma EncodingShape(r: int)
    requires Scalar(r)
    ensures var s := Encoding(r);
            && WellFormed(s)
            && (r <= 0x7F ==> s == [r])
            && (0x7F < r <= 0x7FF ==> |s| == 2 && s[0] == 0xC0 + r / 64 && s[1] == 0x80 + r % 64)
            && (0x7FF < r <= 0xFFFF ==>
                  |s| == 3 && s[0] == 0xE0 + r / 4096 && s[1] == 0x80 + r / 64 % 64 && s[2] == 0x80 + r % 64)
            && (0xFFFF < r ==>
                  && |s| == 4 && s[0] == 0xF0 + r / 262144 && s[1] == 0x80 + r / 4096 % 64
                  && s[2] == 0x80 + r / 64 % 64 && s[3] == 0x80 + r % 64)
  {
  }

  /** A well-formed sequence is the encoding of its number, which is a scalar value. */
  lemma DecodingEncodes(s: seq<Byte>)
    requires WellFormed(s)
    ensures Scalar(CodePoint(s)) && Encoding(CodePoint(s)) == s
  {
    if |s| == 2 {
      SixParts(Minus(s[0], 0xC0), s[1]);
    } else if |s| == 3 {
      var c := Six(Minus(s[0], 0xE0), s[1]);
      SixParts(Minus(s[0], 0xE0), s[1]);
      SixParts(c, s[2]);
    } else if |s| == 4 {
      var c := Six(Minus(s[0], 0xF0), s[1]);
      var d := Six(c, s[2]);
      SixParts(Minus(s[0], 0xF0), s[1]);
      SixParts(c, s[2]);
      SixParts(d, s[3]);
    }
  }

  // No well-formed sequence continues another one.
  lemma PrefixFree(a: seq<Byte>, b: seq<Byte>)
    requires WellFormed(a) && WellFormed(b) && a <= b
    ensures a == b
  {
    assert a[0] == b[0];
  }

  // ----- the automaton -----

  /** The class of a byte: the first table. */
  function Kind(b: Byte): nat {
    if b < 0x80 then 0
    else if b < 0x90 then 1
    else if b < 0xA0 then 9
    else if b < 0xC0 then 7
    else if b < 0xC2 then 8
    else if b < 0xE0 then 2
    else if b == 0xE0 then 10
    else if b < 0xED then 3
    else if b == 0xED then 4
    else if b < 0xF0 then 3
    else if b == 0xF0 then 11
    else if b < 0xF4 then 6
    else if b == 0xF4 then 5
    else 8
  }

  const ACCEPT: nat := 0
  const REJECT: nat := 1

  /** The second table, by row; the entries that are not named reject. */
  function NextState(state: nat, kind: nat): nat {
    match state
    case 0 =>
      (match kind
       case 0 => 0 case 2 => 2 case 3 => 3 case 4 => 5 case 5 => 8 case 6 => 7 case 10 => 4 case 11 => 6
       case _ => REJECT)
    case 2 => if kind == 1 || kind == 7 || kind == 9 then 0 else REJECT
    case 3 => if kind == 1 || kind == 7 || kind == 9 then 2 else REJECT
    case 4 => if kind == 7 then 2 else REJECT
    case 5 => if kind == 1 || kind == 9 then 2 else REJECT
    case 6 => if kind == 7 || kind == 9 then 3 else REJECT
    case 7 => if kind == 1 || kind == 7 || kind == 9 then 3 else REJECT
    case 8 => if kind == 1 then 3 else REJECT
    case _ => REJECT
  }

  // The value bits of a lead byte, masked by 0xFF shifted right by the class.
  function LeadBits(kind: nat, b: Byte): Word { Word64(BitAnd, ShiftRight(0xFF, kind), b) }

  function MoreBits(codep: Word, b: Byte): Word { Word64(BitOr, ShiftLeft(codep, 6), Word64(BitAnd, b, 0x3F)) }

  lemma MaskAnd(j: nat, x: Word)
    requires j <= 8
    ensures 1 <= Pow2(j) <= WORD && Word64(BitAnd, Pow2(j) - 1, x) == x % Pow2(j)
  {
    hide Pow2, Bits;
    Pow2Values();
    Pow2Mono(j, 64);
    AndMask(64, x, j);
    BitsCommute(BitAnd, 64, x, Pow2(j) - 1);
  }

  lemma LeadMask(kind: nat)
    requires 2 <= kind <= 6 || kind == 10 || kind == 11
    ensures ShiftRight(0xFF, kind) == if kind <= 6 then Pow2(8 - kind) - 1 else 0
  {
    hide Pow2;
    ShiftedRight(0xFF, kind);
    SmallPowers();
  }

  lemma SmallPowers()
    ensures Pow2(0) == 1 && Pow2(2) == 4 && Pow2(3) == 8 && Pow2(4) == 16 && Pow2(5) == 32 && Pow2(6) == 64
    ensures Pow2(10) == 1024 && Pow2(11) == 2048
  {
  }

  lemma LeadBitsAre(b: Byte)
    requires 0xC2 <= b <= 0xF4
    ensures LeadBits(Kind(b), b) == Minus(b, if b < 0xE0 then 0xC0 else if b < 0xF0 then 0xE0 else 0xF0)
  {
    hide Bits, Pow2, Word64, ShiftRight;
    var k := Kind(b);
    LeadMask(k);
    SmallPowers();
    MaskAnd(if k <= 6 then 8 - k else 0, b);
  }

  lemma MoreBitsAre(codep: Word, b: Byte)
    requires codep < 0x1_0000 && Tail(b)
    ensures MoreBits(codep, b) == Six(codep, b)
  {
    hide Bits, Pow2;
    SmallPowers();
    assert ShiftLeft(codep, 6) == codep * 64;
    AndMask(64, b, 6);
    hide ShiftLeft;
    Pow2Values();
    OrDisjoint(64, codep * 64, b % 64, 6);
  }

  // ----- runs of the automaton -----

  // The state and the bits after the bytes s of an unfinished sequence.
  predicate Partial(s: seq<Byte>, state: nat, codep: int) {
    if |s| == 1 then
      && 0xC2 <= s[0] <= 0xF4 && state == NextState(0, Kind(s[0]))
      && codep == Minus(s[0], if s[0] < 0xE0 then 0xC0 else if s[0] < 0xF0 then 0xE0 else 0xF0)
    else if |s| == 2 then
      && 0xE0 <= s[0] <= 0xF4 && Second(s[0], s[1]) && state == (if s[0] < 0xF0 then 2 else 3)
      && codep == Six(Minus(s[0], if s[0] < 0xF0 then 0xE0 else 0xF0), s[1])
    else
      && |s| == 3 && 0xF0 <= s[0] <= 0xF4 && Second(s[0], s[1]) && Tail(s[2]) && state == 2
      && codep == Six(Six(Minus(s[0], 0xF0), s[1]), s[2])
  }

  /** No well-formed sequence begins with these bytes. */
  ghost predicate Dead(s: seq<Byte>) {
    forall t: seq<Byte> :: !WellFormed(s + t)
  }

  /** These bytes are the beginning of a well-formed sequence. */
  ghost predicate Unfinished(s: seq<Byte>) {
    exists t: seq<Byte> :: |t| > 0 && WellFormed(s + t)
  }

  // A byte that no well-formed sequence has at its place.
  predicate Bad(s: seq<Byte>) {
    || (|s| >= 1 && (0x80 <= s[0] < 0xC2 || s[0] > 0xF4))
    || (|s| >= 2 && 0xC2 <= s[0] <= 0xDF && !Tail(s[1]))
    || (|s| >= 2 && 0xE0 <= s[0] <= 0xF4 && !Second(s[0], s[1]))
    || (|s| >= 3 && 0xE0 <= s[0] <= 0xF4 && !Tail(s[2]))
    || (|s| >= 4 && 0xF0 <= s[0] <= 0xF4 && !Tail(s[3]))
  }

  lemma BadIsDead(s: seq<Byte>)
    requires Bad(s) && |s| <= 4
    ensures Dead(s)
  {
    forall t: seq<Byte>
      ensures !WellFormed(s + t)
    {
      var w := s + t;
      assert forall i :: 0 <= i < |s| ==> w[i] == s[i];
    }
  }

  lemma FirstByte(b: Byte, codep: Word)
    requires b >= 0x80 && codep == LeadBits(Kind(b), b)
    ensures var st := NextState(0, Kind(b));
            st != ACCEPT && if st == REJECT then Dead([b]) else Partial([b], st, codep) && codep < 0x40
  {
    hide LeadBits, Dead;
    if 0xC2 <= b <= 0xF4 {
      LeadBitsAre(b);
    } else {
      BadIsDead([b]);
    }
  }

  /** What one more byte does to an unfinished sequence. */
  ghost predicate Steps(s: seq<Byte>, state: nat, b: Byte, c: Word) {
    var st := NextState(state, Kind(b));
    if st == ACCEPT then WellFormed(s + [b]) && c == CodePoint(s + [b])
    else if st == REJECT then Dead(s + [b])
    else |s| < 3 && Partial(s + [b], st, c)
  }

  lemma SecondByte(a: Byte, state: nat, codep: int, b: Byte, c: Word)
    requires Partial([a], state, codep) && (Tail(b) ==> c == Six(codep, b))
    ensures Steps([a], state, b, c)
  {
    hide Dead;
    assert [a] + [b] == [a, b];
    if if a < 0xE0 then Tail(b) else Second(a, b) {
    } else {
      BadIsDead([a, b]);
    }
  }

  lemma ThirdByte(s: seq<Byte>, state: nat, codep: int, b: Byte, c: Word)
    requires |s| == 2 && Partial(s, state, codep) && (Tail(b) ==> c == Six(codep, b))
    ensures Steps(s, state, b, c)
  {
    hide Dead, Six, Minus;
    var w := s + [b];
    assert w[0] == s[0] && w[1] == s[1] && w[2] == b;
    if !Tail(b) {
      BadIsDead(w);
    }
  }

  lemma FourthByte(s: seq<Byte>, state: nat, codep: int, b: Byte, c: Word)
    requires |s| == 3 && Partial(s, state, codep) && (Tail(b) ==> c == Six(codep, b))
    ensures Steps(s, state, b, c)
  {
    hide Dead, Six, Minus;
    var w := s + [b];
    assert w[0] == s[0] && w[1] == s[1] && w[2] == s[2] && w[3] == b;
    if !Tail(b) {
      BadIsDead(w);
    }
  }

  lemma PartialRange(s: seq<Byte>, state: nat, codep: int)
    requires Partial(s, state, codep)
    ensures 1 <= |s| <= 3 && state >= 2 && 0 <= codep < 0x1_0000
  {
  }

  lemma LaterByte(s: seq<Byte>, state: nat, codep: Word, b: Byte)
    requires Partial(s, state, codep)
    ensures state >= 2 && Steps(s, state, b, MoreBits(codep, b))
  {
    PartialRange(s, state, codep);
    hide MoreBits, Steps, Partial;
    if Tail(b) {
      MoreBitsAre(codep, b);
    }
    if |s| == 1 {
      assert s == [s[0]];
      SecondByte(s[0], state, codep, b, MoreBits(codep, b));
    } else if |s| == 2 {
      ThirdByte(s, state, codep, b, MoreBits(codep, b));
    } else {
      FourthByte(s, state, codep, b, MoreBits(codep, b));
    }
  }

  // ----- decoding -----

  /**
   The outcome at position i: a code point and the next position, or None for an index out of range.
   An error is found at the first byte that cannot continue a well-formed sequence.
   */
  ghost predicate Decoded(s: seq<Byte>, i: nat, r: Option<(int, nat)>)
    requires i < |s|
  {
    match r
    case None => |s| - i <= 3 && Unfinished(s[i..])
    case Some(v) =>
      && i < v.1 <= i + 4 && v.1 <= |s|
      && if WellFormed(s[i..v.1]) then v.0 == CodePoint(s[i..v.1])
         else v.0 == RUNE_ERROR && Dead(s[i..v.1]) && (v.1 == i + 1 || Unfinished(s[i..v.1 - 1]))
  }

  lemma Continues(s: seq<Byte>, t: seq<Byte>)
    requires |t| > 0 && WellFormed(s + t)
    ensures Unfinished(s)
  {
  }

  lemma PartialUnfinished(s: seq<Byte>, state: nat, codep: int)
    requires Partial(s, state, codep)
    ensures Unfinished(s) && 1 <= |s| <= 3
  {
    hide Unfinished;
    var a: Byte, c: Byte := s[0], 0x80;
    var b: Byte := if a == 0xE0 then 0xA0 else if a == 0xF0 then 0x90 else 0x80;
    if |s| == 3 {
      assert s + [c] == [a, s[1], s[2], c];
      Continues(s, [c]);
    } else if |s| == 2 && a < 0xF0 {
      assert s + [c] == [a, s[1], c];
      Continues(s, [c]);
    } else if |s| == 2 {
      assert s + [c, c] == [a, s[1], c, c];
      Continues(s, [c, c]);
    } else if a < 0xE0 {
      assert s + [c] == [a, c];
      Continues(s, [c]);
    } else if a < 0xF0 {
      assert s + [b, c] == [a, b, c];
      Continues(s, [b, c]);
    } else {
      assert s + [b, c, c] == [a, b, c, c];
      Continues(s, [b, c, c]);
    }
  }

  lemma DeadNotWell(s: seq<Byte>)
    requires Dead(s)
    ensures !WellFormed(s)
  {
    assert s + [] == s;
  }

  /** One code point from position i; past the end it is 0. */
  method Decode(s: seq<Byte>, i0: nat) returns (r: Option<(int, nat)>)
    ensures i0 >= |s| ==> r == Some((0, i0 + 1))
    ensures i0 < |s| ==> Decoded(s, i0, r)
  {
    hide Partial, LeadBits, MoreBits, Kind, NextState, Dead, Unfinished;
    var codep: Word, state, i := 0, ACCEPT, i0;
    if i >= |s| {
      return Some((0, i + 1));
    }
    var b := s[i];
    if b <= 0x7F {
      assert s[i..i + 1] == [b];
      return Some((b, i + 1));
    }
    while true
      invariant i0 <= i <= |s| && i - i0 <= 3
      invariant if i == i0 then state == ACCEPT else state >= 2 && Partial(s[i0..i], state, codep)
      decreases |s| - i
    {
      if i == |s| {
        // The index of the next byte is out of range.
        assert s[i0..i] == s[i0..];
        PartialUnfinished(s[i0..], state, codep);
        return None;
      }
      b := s[i];
      i := i + 1;
      assert s[i0..i] == s[i0..i - 1] + [b];
      var kind := Kind(b);
      if state != ACCEPT {
        PartialUnfinished(s[i0..i - 1], state, codep);
        LaterByte(s[i0..i - 1], state, codep, b);
        codep := MoreBits(codep, b);
      } else {
        assert s[i0..i - 1] == [] && s[i0..i] == [b];
        codep := LeadBits(kind, b);
        FirstByte(b, codep);
      }
      state := NextState(state, kind);
      if state == ACCEPT {
        return Some((codep, i));
      }
      if state == REJECT {
        DeadNotWell(s[i0..i]);
        return Some((RUNE_ERROR, i));
      }
    }
  }

  /** A well-formed sequence at position i is what is decoded, whatever follows it. */
  lemma WellFormedIsDecoded(s: seq<Byte>, i: nat, j: nat, r: Option<(int, nat)>)
    requires i < j <= |s| && WellFormed(s[i..j]) && Decoded(s, i, r)
    ensures r == Some((CodePoint(s[i..j]), j))
  {
    hide WellFormed, Unfinished, Dead, CodePoint;
    var a := s[i..j];
    if r.None? {
      NotUnfinished(a, s[i..]);
    } else {
      var k := r.value.1;
      if k <= j {
        NotDead(s[i..k], s[k..j]);
        assert s[i..k] + s[k..j] == a;
      } else {
        NotUnfinished(a, s[i..k - 1]);
      }
      if WellFormed(s[i..k]) {
        Comparable(a, s[i..k]);
      }
    }
  }

  lemma NotDead(s: seq<Byte>, t: seq<Byte>)
    ensures WellFormed(s + t) ==> !Dead(s)
  {
  }

  lemma Comparable(a: seq<Byte>, b: seq<Byte>)
    requires WellFormed(a) && WellFormed(b) && (a <= b || b <= a)
    ensures a == b
  {
    if a <= b {
      PrefixFree(a, b);
    } else {
      PrefixFree(b, a);
    }
  }

  // An unfinished sequence does not begin with a well-formed one.
  lemma NotUnfinished(a: seq<Byte>, s: seq<Byte>)
    requires WellFormed(a) && a <= s
    ensures !Unfinished(s)
  {
    forall t: seq<Byte> | |t| > 0
      ensures !WellFormed(s + t)
    {
      if WellFormed(s + t) {
        PrefixFree(a, s + t);
      }
    }
  }

  // ----- encoding -----

  // What Encode writes for r; the error bytes stand for what it does not encode, the last scalar value among them.
  function Written(r: int): (s: seq<Byte>)
    ensures |s| <= 4
  {
    if r < 0 then [LowByte(Word64(BitOr, 0xE0, r / 4096 % 256)), 0x80 + r / 64 % 64, 0x80 + r % 64]
    else if Scalar(r) && r < MAX_RUNE then Encoding(r)
    else [0xEF, 0xBF, 0xBD]
  }

  function LowByte(x: nat): Byte { x % 256 }

  // A byte made of a marker and value bits below it.
  function Marked(marker: Word, x: int): Byte { LowByte(Word64(BitOr, marker, x % 256)) }

  lemma MarkedIs(marker: Byte, x: int, j: nat)
    requires (j == 4 && marker == 0xF0) || (j == 5 && marker == 0xE0) || (j == 6 && (marker == 0xC0 || marker == 0x80))
    requires 0 <= x && x < (if j == 4 then 16 else if j == 5 then 32 else 64)
    ensures Marked(marker, x) == marker + x
  {
    SmallPowers();
    Pow2Values();
    hide Pow2, Bits;
    OrDisjoint(64, marker, x, j);
  }

  // The six value bits of a tail byte: byte(x) & 0x3F.
  function TailBits(x: int): Word { Word64(BitAnd, x % 256, 0x3F) }

  lemma TailBitsAre(x: int)
    ensures TailBits(x) == x % 64
  {
    SmallPowers();
    hide Pow2, Bits;
    AndMask(64, x % 256, 6);
  }

  lemma TailByteIs(x: int)
    ensures Marked(0x80, TailBits(x)) == 0x80 + x % 64
  {
    TailBitsAre(x);
    hide TailBits;
    MarkedIs(0x80, x % 64, 6);
  }

  // The bytes of each branch of Encode.
  lemma BranchBytes(r: int)
    ensures Written(r) ==
            if 0 <= r <= 0x7F then [LowByte(r)]
            else if r > 0 && r <= 0x7FF then [Marked(0xC0, r / 64), Marked(0x80, TailBits(r))]
            else if r < 0xD800 || (r > 0xDFFF && r <= 0xFFFF) then
              [Marked(0xE0, r / 4096), Marked(0x80, TailBits(r / 64)), Marked(0x80, TailBits(r))]
            else if r > 0xFFFF && r < MAX_RUNE then
              [Marked(0xF0, r / 262144), Marked(0x80, TailBits(r / 4096)), Marked(0x80, TailBits(r / 64)),
                Marked(0x80, TailBits(r))]
            else [0xEF, 0xBF, 0xBD]
  {
    hide Marked, TailBits, Word64;
    TailByteIs(r);
    TailByteIs(r / 64);
    TailByteIs(r / 4096);
    if 0 <= r <= 0x7F {
    } else if r > 0 && r <= 0x7FF {
      MarkedIs(0xC0, r / 64, 6);
    } else if r < 0xD800 || (r > 0xDFFF && r <= 0xFFFF) {
      LeadOfThree(r);
    } else if r > 0xFFFF && r < MAX_RUNE {
      MarkedIs(0xF0, r / 262144, 4);
    }
  }

  /** Writes the encoding of r at position i0, and nothing else. */
  method Encode(p: array<Byte>, i0: nat, r: int) returns (i: nat)
    requires i0 + |Written(r)| <= p.Length
    modifies p
    ensures i == i0 + |Written(r)| && p[i0..i] == Written(r)
    ensures p[..i0] == old(p[..i0]) && p[i..] == old(p[i..])
  {
    hide Marked, TailBits, Written, LowByte;
    BranchBytes(r);
    if 0 <= r <= 0x7F {
      p[i0] := LowByte(r);
      return i0 + 1;
    } else if r > 0 && r <= 0x7FF {
      p[i0] := Marked(0xC0, r / 64);
      p[i0 + 1] := Marked(0x80, TailBits(r));
      return i0 + 2;
    } else if r < 0xD800 || (r > 0xDFFF && r <= 0xFFFF) {
      p[i0] := Marked(0xE0, r / 4096);
      p[i0 + 1] := Marked(0x80, TailBits(r / 64));
      p[i0 + 2] := Marked(0x80, TailBits(r));
      return i0 + 3;
    } else if r > 0xFFFF && r < MAX_RUNE {
      p[i0] := Marked(0xF0, r / 262144);
      p[i0 + 1] := Marked(0x80, TailBits(r / 4096));
      p[i0 + 2] := Marked(0x80, TailBits(r / 64));
      p[i0 + 3] := Marked(0x80, TailBits(r));
      return i0 + 4;
    }
    p[i0] := 0xEF;
    p[i0 + 1] := 0xBF;
    p[i0 + 2] := 0xBD;
    return i0 + 3;
  }

  lemma LeadOfThree(r: int)
    requires r <= 0xFFFF
    ensures Marked(0xE0, r / 4096) == if r >= 0 then 0xE0 + r / 4096 else LowByte(Word64(BitOr, 0xE0, r / 4096 % 256))
  {
    if r >= 0 {
      MarkedIs(0xE0, r / 4096, 5);
    }
    hide Word64;
  }

  /** Encode writes the encoding of a scalar value exactly when it is not the greatest one. */
  lemma WrittenIsEncoding(r: int)
    requires Scalar(r)
    ensures Written(r) == Encoding(r) <==> r != MAX_RUNE
  {
    assert |Encoding(MAX_RUNE)| == 4;
  }

  // The greatest scalar value is written as U+FFFD.
  lemma GreatestIsLost()
    ensures Written(MAX_RUNE) == [0xEF, 0xBF, 0xBD] == Encoding(RUNE_ERROR)
            && Encoding(MAX_RUNE) == [0xF4, 0x8F, 0xBF, 0xBF]
  {
  }

  /** Encode reproduces every well-formed sequence from its code point, except the one for 0x10FFFF. */
  lemma ReEncoded(s: seq<Byte>)
    requires WellFormed(s)
    ensures Scalar(CodePoint(s)) && (Written(CodePoint(s)) == s <==> CodePoint(s) != MAX_RUNE)
  {
    DecodingEncodes(s);
    WrittenIsEncoding(CodePoint(s));
    hide WellFormed, CodePoint, Encoding, Written;
  }

  // ----- streams -----

  /** The encodings of several values, one after the other. */
  function Stream(rs: seq<int>): seq<Byte> {
    if rs == [] then [] else Stream(rs[..|rs| - 1]) + Written(rs[|rs| - 1])
  }

  /** Values that can be written and read back. */
  predicate Plain(r: int) { Scalar(r) && r < MAX_RUNE }

  method EncodeAll(p: array<Byte>, rs: seq<int>) returns (i: nat)
    requires |Stream(rs)| <= p.Length
    modifies p
    ensures i == |Stream(rs)| && p[..i] == Stream(rs)
  {
    hide Written;
    i := 0;
    assert rs[..0] == [];
    for k := 0 to |rs|
      invariant i == |Stream(rs[..k])| <= |Stream(rs)| && p[..i] == Stream(rs[..k])
    {
      StreamGrows(rs, k);
      ghost var was := i;
      i := Encode(p, i, rs[k]);
      assert p[..i] == p[..was] + p[was..i];
    }
    assert rs[..|rs|] == rs;
  }

  lemma {:induction false} StreamGrows(rs: seq<int>, k: nat)
    requires k < |rs|
    ensures Stream(rs[..k + 1]) == Stream(rs[..k]) + Written(rs[k])
    ensures Stream(rs[..k + 1]) <= Stream(rs)
    decreases |rs|
  {
    hide Written;
    assert rs[..k + 1][..k] == rs[..k];
    if k + 1 == |rs| {
      assert rs[..k + 1] == rs;
    } else {
      var qs := rs[..|rs| - 1];
      StreamGrows(qs, k);
      assert qs[..k + 1] == rs[..k + 1];
      assert Stream(rs) == Stream(qs) + Written(rs[|rs| - 1]);
    }
  }

  /** Decoding a stream again and again gives the values that were encoded, and ends exactly at its end. */
  method DecodeAll(s: seq<Byte>, ghost rs: seq<int>) returns (out: seq<int>)
    requires s == Stream(rs) && forall k :: 0 <= k < |rs| ==> Plain(rs[k])
    ensures out == rs
  {
    hide Written, Decoded, Plain;
    out := [];
    var i := 0;
    ghost var k := 0;
    assert rs[..0] == [];
    while i < |s|
      invariant 0 <= k <= |rs| && out == rs[..k] && i == |Stream(rs[..k])| <= |s|
      decreases |s| - i
    {
      ghost var j := NextValue(s, rs, k, i);
      var r := Decode(s, i);
      WellFormedIsDecoded(s, i, j, r);
      out := out + [r.value.0];
      i := r.value.1;
      k := k + 1;
    }
    AllRead(rs, k);
    assert rs[..|rs|] == rs;
  }

  // Where the encoding of value k stands in the stream.
  lemma NextValue(s: seq<Byte>, rs: seq<int>, k: nat, i: nat) returns (j: nat)
    requires s == Stream(rs) && forall k :: 0 <= k < |rs| ==> Plain(rs[k])
    requires k <= |rs| && i == |Stream(rs[..k])| < |s|
    ensures k < |rs| && i < j <= |s| && WellFormed(s[i..j]) && CodePoint(s[i..j]) == rs[k]
    ensures |Stream(rs[..k + 1])| == j && rs[..k + 1] == rs[..k] + [rs[k]]
  {
    hide Stream, Plain, Written, WellFormed, CodePoint;
    assert rs[..|rs|] == rs;
    assert k < |rs|;
    StreamGrows(rs, k);
    assert Plain(rs[k]);
    PlainWritten(rs[k]);
    j := i + |Written(rs[k])|;
    assert s[..j] == Stream(rs[..k]) + Written(rs[k]);
    assert s[i..j] == s[..j][i..] == Written(rs[k]);
  }

  lemma PlainWritten(r: int)
    requires Plain(r)
    ensures WellFormed(Written(r)) && CodePoint(Written(r)) == r && |Written(r)| >= 1
  {
    EncodingDecodes(r);
    hide CodePoint, Encoding;
  }

  lemma AllRead(rs: seq<int>, k: nat)
    requires k <= |rs| && |Stream(rs[..k])| >= |Stream(rs)|
    ensures k == |rs|
  {
    if k < |rs| {
      StreamGrows(rs, k);
      NotEmpty(rs[k]);
    }
  }

  lemma NotEmpty(r: int)
    ensures |Written(r)| >= 1
  {
  }
}
