/** Strings on the heap: a header word of length and capacity, in place appends, and the allocation counter. */
module Strings {
  import opened Words
  import opened Machine

  type Byte = x: int | 0 <= x < 256

  /** An address; nil is 0. */
  type Ptr = nat

  const NIL: Ptr := 0
  const FIELD: int := 0x1_0000_0000

  /** The header holds the capacity in its high half and the length in its low half. */
  datatype Block = Block(hdr: Word, data: seq<Byte>) {
    function Len(): nat { hdr % FIELD }

    function Cap(): nat { hdr / FIELD }

    predicate Sound() { Len() <= |data| && (Cap() > 0 ==> Len() <= Cap() == |data|) }

    function Text(): seq<Byte> { if Sound() then data[..Len()] else [] }
  }

  function Pack(cap: nat, len: nat): (w: Word)
    requires cap < FIELD && len < FIELD
    ensures w / FIELD == cap && w % FIELD == len
  {
    cap * FIELD + len
  }

  lemma AddLen(w: Word, n: nat)
    requires w % FIELD + n < FIELD
    ensures w + n < WORD && (w + n) / FIELD == w / FIELD && (w + n) % FIELD == w % FIELD + n
  {
  }

  /** Writes src at position i; the precondition keeps the write inside the block. */
  function Blit(dst: seq<Byte>, i: nat, src: seq<Byte>): (r: seq<Byte>)
    requires i + |src| <= |dst|
    ensures |r| == |dst| && r[..i] == dst[..i] && r[i..i + |src|] == src
  {
    dst[..i] + src + dst[i + |src|..]
  }

  // Two texts one after the other, and 32 bytes to spare.
  function Joined(a: seq<Byte>, b: seq<Byte>): (r: seq<Byte>)
    ensures |r| == |a| + |b| + 32 && r[..|a| + |b|] == a + b
  {
    var d := Blit(Blit(Zeros(|a| + |b| + 32), 0, a), |a|, b);
    assert d[..|a| + |b|] == d[..|a|] + d[|a|..|a| + |b|];
    d
  }

  function Zeros(n: nat): (r: seq<Byte>)
    ensures |r| == n
  {
    seq(n, i => 0)
  }

  // ----- what the allocation counter counts -----

  /** The sum of capacity + 8 over all blocks. */
  ghost function Total(h: map<Ptr, Block>): nat {
    if h == map[] then 0
    else
      var p :| p in h;
      h[p].Cap() + 8 + Total(h - {p})
  }

  lemma {:induction false} TotalRemove(h: map<Ptr, Block>, p: Ptr)
    requires p in h
    ensures Total(h) == h[p].Cap() + 8 + Total(h - {p})
  {
    var q :| q in h && Total(h) == h[q].Cap() + 8 + Total(h - {q});
    if q != p {
      TotalRemove(h - {q}, p);
      TotalRemove(h - {p}, q);
      assert h - {q} - {p} == h - {p} - {q};
    }
  }

  lemma TotalSet(h: map<Ptr, Block>, p: Ptr, b: Block)
    ensures Total(h[p := b]) == b.Cap() + 8 + Total(h - {p})
    ensures p !in h ==> Total(h[p := b]) == b.Cap() + 8 + Total(h)
    ensures p in h ==> Total(h[p := b]) == b.Cap() + Total(h) - h[p].Cap()
  {
    var g := h[p := b];
    TotalRemove(g, p);
    assert g - {p} == h - {p};
    if p in h {
      TotalRemove(h, p);
    } else {
      assert h - {p} == h;
    }
  }

  // ----- texts -----

  /** The characters of the string at p; nil has none. */
  function TextAt(blocks: map<Ptr, Block>, lits: map<Ptr, Block>, p: Ptr): seq<Byte> {
    if p in blocks then blocks[p].Text() else if p in lits then lits[p].Text() else []
  }

  /** The characters of several strings, one after the other. */
  function TextsAt(blocks: map<Ptr, Block>, lits: map<Ptr, Block>, ps: seq<Ptr>): seq<Byte> {
    if ps == [] then [] else TextsAt(blocks, lits, ps[..|ps| - 1]) + TextAt(blocks, lits, ps[|ps| - 1])
  }

  lemma OneText(blocks: map<Ptr, Block>, lits: map<Ptr, Block>, p: Ptr)
    ensures TextsAt(blocks, lits, [p]) == TextAt(blocks, lits, p)
  {
    assert [p][..0] == [];
    assert TextsAt(blocks, lits, []) == [];
  }

  lemma {:induction false} TextsSnoc(blocks: map<Ptr, Block>, lits: map<Ptr, Block>, ps: seq<Ptr>, i: nat)
    requires i < |ps|
    ensures TextsAt(blocks, lits, ps[..i + 1]) == TextsAt(blocks, lits, ps[..i]) + TextAt(blocks, lits, ps[i])
    ensures |TextsAt(blocks, lits, ps[..i + 1])| <= |TextsAt(blocks, lits, ps)|
    decreases |ps|
  {
    assert ps[..i + 1][..i] == ps[..i];
    if i + 1 == |ps| {
      assert ps[..i + 1] == ps;
    } else {
      var qs := ps[..|ps| - 1];
      TextsSnoc(blocks, lits, qs, i);
      assert qs[..i + 1] == ps[..i + 1];
    }
  }

  lemma LenIsText(blocks: map<Ptr, Block>, lits: map<Ptr, Block>, p: Ptr)
    requires if p in blocks then blocks[p].Sound() else p in lits ==> lits[p].Sound()
    ensures |TextAt(blocks, lits, p)| == if p in blocks then blocks[p].Len() else if p in lits then lits[p].Len() else 0
  {
  }

  // A temporary beside the blocks m changes nothing about a string known before.
  lemma KnownKept(m: map<Ptr, Block>, m': map<Ptr, Block>, t: Ptr, temp: bool, p: Ptr)
    requires if temp then t !in m && t in m' && m' == m[t := m'[t]] else m' == m
    ensures p in m ==> p in m' && m'[p] == m[p]
    ensures p !in m && p != t ==> p !in m'
  {
  }

  lemma TextKept(m: map<Ptr, Block>, m': map<Ptr, Block>, lits: map<Ptr, Block>, t: Ptr, temp: bool, p: Ptr)
    requires if temp then t !in m && t in m' && m' == m[t := m'[t]] else m' == m
    requires p in m || (p in lits && t !in lits) || !temp
    ensures TextAt(m', lits, p) == TextAt(m, lits, p)
  {
  }

  lemma Replaced(m: map<Ptr, Block>, m': map<Ptr, Block>, t: Ptr, temp: bool, q: Ptr, b: Block)
    requires if temp then t !in m && t in m' && m' == m[t := m'[t]] else m' == m
    ensures (m' - Freed(t, temp) - {})[q := b] == m[q := b]
  {
  }

  lemma SetThenRemove(m: map<Ptr, Block>, q: Ptr, b: Block, f1: set<Ptr>, f2: set<Ptr>)
    requires q !in f1 && q !in f2
    ensures m[q := b] - f1 - f2 == (m - f1 - f2)[q := b]
  {
  }

  // ----- string variables -----

  type Texts = map<Ident, Option<seq<Byte>>>

  /** What the variables hold; None is nil. */
  function Values(vars: map<Ident, Ptr>, blocks: map<Ptr, Block>, lits: map<Ptr, Block>): Texts {
    map x | x in vars :: if vars[x] == NIL then None else Some(TextAt(blocks, lits, vars[x]))
  }

  /** Every live block is owned by exactly one variable. */
  ghost predicate Owned(vars: map<Ident, Ptr>, blocks: map<Ptr, Block>, lits: map<Ptr, Block>) {
    && (forall x :: x in vars ==> vars[x] == NIL || vars[x] in blocks || vars[x] in lits)
    && (forall x, y :: x in vars && y in vars && x != y && vars[x] in blocks ==> vars[x] != vars[y])
    && (forall p :: p in blocks ==> exists x :: x in vars && vars[x] == p)
  }

  // ----- capacities -----

  type Caps = map<Ident, nat>

  function CapAt(blocks: map<Ptr, Block>, p: Ptr): nat { if p in blocks then blocks[p].Cap() else 0 }

  /** The capacity of the string of each variable; nil and literals have none. */
  function CapsOf(vars: map<Ident, Ptr>, blocks: map<Ptr, Block>): Caps {
    map x | x in vars :: CapAt(blocks, vars[x])
  }

  /** What a string of this capacity takes of the heap. */
  function Space(cap: nat): nat { if cap == 0 then 0 else cap + 8 }

  /** What all variables take of the heap. */
  ghost function Occupied(caps: Caps): nat {
    if caps == map[] then 0
    else
      var x :| x in caps;
      Space(caps[x]) + Occupied(caps - {x})
  }

  /** The string of x has the capacity c now, and the counter has changed by what it takes. */
  predicate Takes(before: Caps, count0: int, x: Ident, c: nat, after: Caps, count1: int) {
    x in before && after == before[x := c] && count1 == count0 - Space(before[x]) + Space(c)
  }

  lemma {:induction false} OccupiedRemove(caps: Caps, x: Ident)
    requires x in caps
    ensures Occupied(caps) == Space(caps[x]) + Occupied(caps - {x})
  {
    var y :| y in caps && Occupied(caps) == Space(caps[y]) + Occupied(caps - {y});
    if y != x {
      OccupiedRemove(caps - {y}, x);
      OccupiedRemove(caps - {x}, y);
      assert caps - {y} - {x} == caps - {x} - {y};
    }
  }

  lemma OccupiedSet(caps: Caps, x: Ident, c: nat)
    requires x in caps
    ensures Occupied(caps[x := c]) == Occupied(caps) - Space(caps[x]) + Space(c)
  {
    OccupiedRemove(caps, x);
    OccupiedRemove(caps[x := c], x);
    assert caps[x := c] - {x} == caps - {x};
  }

  lemma CapsRest(vars: map<Ident, Ptr>, m: map<Ptr, Block>, lits: map<Ptr, Block>, x: Ident)
    requires Owned(vars, m, lits) && x in vars
    ensures x in CapsOf(vars, m) && CapsOf(vars, m)[x] == CapAt(m, vars[x])
    ensures CapsOf(vars - {x}, m - {vars[x]}) == CapsOf(vars, m) - {x}
  {
    forall y | y in vars && y != x
      ensures CapAt(m - {vars[x]}, vars[y]) == CapAt(m, vars[y])
    {
    }
    hide Owned, CapAt;
  }

  /** When every block has one owner, the heap is what the variables take of it. */
  lemma {:induction false} HeapIsOccupied(vars: map<Ident, Ptr>, m: map<Ptr, Block>, lits: map<Ptr, Block>)
    requires Owned(vars, m, lits) && forall p :: p in m ==> m[p].Cap() > 0
    ensures Total(m) == Occupied(CapsOf(vars, m))
    decreases |vars|
  {
    if vars == map[] {
      NoOwners(m, lits);
    } else {
      var x :| x in vars;
      OwnedRest(vars, m, lits, x);
      CapsRest(vars, m, lits, x);
      hide Owned, CapsOf, Total, Occupied;
      HeapIsOccupied(vars - {x}, m - {vars[x]}, lits);
      OccupiedRemove(CapsOf(vars, m), x);
      if vars[x] in m {
        TotalRemove(m, vars[x]);
      } else {
        assert m - {vars[x]} == m;
      }
    }
  }

  lemma OwnedRest(vars: map<Ident, Ptr>, m: map<Ptr, Block>, lits: map<Ptr, Block>, x: Ident)
    requires Owned(vars, m, lits) && x in vars
    ensures Owned(vars - {x}, m - {vars[x]}, lits)
  {
    var vars', m' := vars - {x}, m - {vars[x]};
    forall p | p in m'
      ensures exists y :: y in vars' && vars'[y] == p
    {
      var y :| y in vars && vars[y] == p;
      assert y in vars' && vars'[y] == p;
    }
  }

  lemma NoOwners(m: map<Ptr, Block>, lits: map<Ptr, Block>)
    requires Owned(map[], m, lits)
    ensures m == map[]
  {
    forall p
      ensures p !in m
    {
    }
  }

  /** Between m and m' the string of x has given way to q, a block in its own place or a new one, or to a literal. */
  ghost predicate GivesWay(vars: map<Ident, Ptr>, m: map<Ptr, Block>, lits: map<Ptr, Block>, x: Ident, q: Ptr,
                           m': map<Ptr, Block>) {
    && Owned(vars, m, lits) && x in vars && NIL !in m && NIL !in lits && m.Keys !! lits.Keys
    && if q in lits then m' == m - {vars[x]}
       else q in m' && q != NIL && m' == (m - {vars[x]})[q := m'[q]] && (q == vars[x] || q !in m)
  }

  lemma GivesWayOwned(vars: map<Ident, Ptr>, m: map<Ptr, Block>, lits: map<Ptr, Block>, x: Ident, q: Ptr,
                      m': map<Ptr, Block>)
    requires GivesWay(vars, m, lits, x, q, m')
    ensures Owned(vars, m, lits)
  {
  }

  lemma OtherVar(vars: map<Ident, Ptr>, m: map<Ptr, Block>, lits: map<Ptr, Block>, x: Ident, q: Ptr,
                 m': map<Ptr, Block>, y: Ident)
    requires GivesWay(vars, m, lits, x, q, m') && y in vars && y != x
    ensures (q in m' ==> vars[y] != q) && (vars[y] in m' <==> vars[y] in m)
            && TextAt(m', lits, vars[y]) == TextAt(m, lits, vars[y]) && CapAt(m', vars[y]) == CapAt(m, vars[y])
  {
  }

  // The string of a variable that is not nil.
  lemma VarText(vars: map<Ident, Ptr>, m: map<Ptr, Block>, lits: map<Ptr, Block>, x: Ident)
    requires Owned(vars, m, lits) && x in Values(vars, m, lits) && Values(vars, m, lits)[x].Some?
    requires forall p :: p in m ==> m[p].Sound()
    requires forall p :: p in lits ==> lits[p].Sound()
    ensures x in vars && vars[x] != NIL && (vars[x] in m || vars[x] in lits)
    ensures TextAt(m, lits, vars[x]) == Values(vars, m, lits)[x].value
    ensures |TextAt(m, lits, vars[x])| == if vars[x] in m then m[vars[x]].Len() else lits[vars[x]].Len()
  {
  }

  lemma OwnedOrNil(vars: map<Ident, Ptr>, m: map<Ptr, Block>, lits: map<Ptr, Block>, x: Ident)
    requires Owned(vars, m, lits) && x in vars
    ensures vars[x] == NIL || vars[x] in m || vars[x] in lits
  {
  }

  // The string of a variable, which may be nil.
  lemma VarLength(vars: map<Ident, Ptr>, m: map<Ptr, Block>, lits: map<Ptr, Block>, x: Ident)
    requires Owned(vars, m, lits) && x in Values(vars, m, lits) && NIL !in m && NIL !in lits
    requires forall p :: p in m ==> m[p].Sound()
    requires forall p :: p in lits ==> lits[p].Sound()
    ensures x in vars && (vars[x] == NIL || vars[x] in m || vars[x] in lits)
    ensures vars[x] == NIL <==> Values(vars, m, lits)[x].None?
    ensures vars[x] != NIL ==> Values(vars, m, lits)[x].value == TextAt(m, lits, vars[x])
    ensures vars[x] == NIL ==> TextAt(m, lits, vars[x]) == []
    ensures |TextAt(m, lits, vars[x])| ==
            if vars[x] in m then m[vars[x]].Len() else if vars[x] in lits then lits[vars[x]].Len() else 0
  {
    LenIsText(m, lits, vars[x]);
  }

  lemma TwoOwners(vars: map<Ident, Ptr>, m: map<Ptr, Block>, lits: map<Ptr, Block>, x: Ident, y: Ident)
    requires Owned(vars, m, lits) && x in vars && y in vars && x != y
    ensures vars[x] == vars[y] ==> vars[x] !in m
  {
  }

  // A string gives way to its extension, in place or elsewhere.
  lemma ExtendedOwned(vars: map<Ident, Ptr>, m: map<Ptr, Block>, lits: map<Ptr, Block>, x: Ident, q: Ptr,
                      m': map<Ptr, Block>)
    requires Owned(vars, m, lits) && x in vars && NIL !in m && NIL !in lits && m.Keys !! lits.Keys
    requires q != NIL && q in m' && q !in lits && m' == (m - {vars[x]})[q := m'[q]] && (q == vars[x] || q !in m)
    ensures GivesWay(vars, m, lits, x, q, m')
  {
    hide Owned;
  }

  // A literal gives way to its copy in RAM.
  lemma CopyOwned(vars: map<Ident, Ptr>, m: map<Ptr, Block>, lits: map<Ptr, Block>, x: Ident, q: Ptr,
                  m': map<Ptr, Block>)
    requires Owned(vars, m, lits) && x in vars && NIL !in m && NIL !in lits && m.Keys !! lits.Keys && q != NIL
             && q in m' && q !in lits
    requires if vars[x] in m then q == vars[x] && m' == m[q := m'[q]] else q !in m && m' == m[q := m'[q]]
    ensures GivesWay(vars, m, lits, x, q, m')
  {
    hide Owned;
    assert m' == (m - {vars[x]})[q := m'[q]];
  }

  lemma StillOwned(vars: map<Ident, Ptr>, m: map<Ptr, Block>, lits: map<Ptr, Block>, x: Ident, q: Ptr,
                   m': map<Ptr, Block>)
    requires GivesWay(vars, m, lits, x, q, m')
    ensures Owned(vars[x := q], m', lits)
  {
    var vars' := vars[x := q];
    forall y | y in vars && y != x
      ensures (q in m' ==> vars[y] != q) && (vars[y] in m' <==> vars[y] in m)
    {
      OtherVar(vars, m, lits, x, q, m', y);
    }
    forall p | p in m'
      ensures exists y :: y in vars' && vars'[y] == p
    {
      if p == q {
        assert vars'[x] == p;
      } else {
        var y :| y in vars && vars[y] == p;
        assert vars'[y] == p;
      }
    }
  }

  lemma ValueSet(vars: map<Ident, Ptr>, m: map<Ptr, Block>, lits: map<Ptr, Block>, x: Ident, q: Ptr,
                 m': map<Ptr, Block>)
    requires GivesWay(vars, m, lits, x, q, m')
    ensures Values(vars[x := q], m', lits) == Values(vars, m, lits)[x := Some(TextAt(m', lits, q))]
  {
    assert q != NIL && x in vars;
    forall y | y in vars && y != x
      ensures TextAt(m', lits, vars[y]) == TextAt(m, lits, vars[y])
    {
      OtherVar(vars, m, lits, x, q, m', y);
    }
    hide GivesWay, TextAt;
    assert Values(vars[x := q], m', lits) == Values(vars, m, lits)[x := Some(TextAt(m', lits, q))];
  }

  lemma CapSet(vars: map<Ident, Ptr>, m: map<Ptr, Block>, lits: map<Ptr, Block>, x: Ident, q: Ptr,
               m': map<Ptr, Block>)
    requires GivesWay(vars, m, lits, x, q, m')
    ensures x in CapsOf(vars, m) && CapsOf(vars[x := q], m') == CapsOf(vars, m)[x := CapAt(m', q)]
  {
    forall y | y in vars && y != x
      ensures CapAt(m', vars[y]) == CapAt(m, vars[y])
    {
      OtherVar(vars, m, lits, x, q, m', y);
    }
    assert x in vars;
    hide GivesWay, CapAt;
    assert CapsOf(vars[x := q], m') == CapsOf(vars, m)[x := CapAt(m', q)];
  }

  // ----- string statements -----

  datatype Operand = OpVar(x: Ident) | OpLit(l: Ptr)

  datatype StrStmt =
    | SetLit(x: Ident, l: Ptr)                 // x = "..."
    | SetNew(x: Ident, cap: nat)               // x = new(String, cap)
    | SetConcat(x: Ident, ops: seq<Operand>)   // x = s1 + ... + sk
    | AddLit(x: Ident, l: Ptr)                 // x += "..."
    | AddVar(x: Ident, y: Ident)               // x += y
    | AddChar(x: Ident, c: Byte)               // x += 'c'
    | SetChar(x: Ident, i: nat, c: Byte)       // x[i] = 'c'

  function OperandText(o: Operand, st: Texts, lits: map<Ptr, Block>): Option<seq<Byte>> {
    match o
    case OpVar(x) => if x in st then st[x] else None
    case OpLit(l) => if l in lits then Some(lits[l].Text()) else None
  }

  function OperandTexts(ops: seq<Operand>, st: Texts, lits: map<Ptr, Block>): Option<seq<Byte>> {
    if ops == [] then Some([])
    else
      var a, b := OperandTexts(ops[..|ops| - 1], st, lits), OperandText(ops[|ops| - 1], st, lits);
      if a.None? || b.None? then None else Some(a.value + b.value)
  }

  /** The pointers that the code of the operands loads. */
  function Pointer(o: Operand, vars: map<Ident, Ptr>): Ptr {
    match o
    case OpVar(x) => if x in vars then vars[x] else NIL
    case OpLit(l) => l
  }

  function Pointers(ops: seq<Operand>, vars: map<Ident, Ptr>): (ps: seq<Ptr>)
    ensures |ps| == |ops|
  {
    if ops == [] then [] else Pointers(ops[..|ops| - 1], vars) + [Pointer(ops[|ops| - 1], vars)]
  }

  lemma {:induction false} PointersText(ops: seq<Operand>, vars: map<Ident, Ptr>, blocks: map<Ptr, Block>,
                                        lits: map<Ptr, Block>)
    requires Owned(vars, blocks, lits) && blocks.Keys !! lits.Keys
             && OperandTexts(ops, Values(vars, blocks, lits), lits).Some?
    ensures var ps := Pointers(ops, vars);
            && (forall i :: 0 <= i < |ps| ==> ps[i] in blocks || ps[i] in lits)
            && OperandTexts(ops, Values(vars, blocks, lits), lits).value == TextsAt(blocks, lits, ps)
  {
    if ops != [] {
      var n := |ops| - 1;
      PointersText(ops[..n], vars, blocks, lits);
      PointerText(ops[n], vars, blocks, lits);
      var ps := Pointers(ops, vars);
      assert ps[..n] == Pointers(ops[..n], vars);
      hide Owned, OperandText, TextAt, Values;
    }
  }

  lemma {:induction false} OperandsDeclared(ops: seq<Operand>, st: Texts, lits: map<Ptr, Block>)
    requires OperandTexts(ops, st, lits).Some?
    ensures forall i :: 0 <= i < |ops| && ops[i].OpVar? ==> ops[i].x in st
  {
    if ops != [] {
      OperandsDeclared(ops[..|ops| - 1], st, lits);
    }
  }

  lemma PointerText(o: Operand, vars: map<Ident, Ptr>, blocks: map<Ptr, Block>, lits: map<Ptr, Block>)
    requires Owned(vars, blocks, lits) && blocks.Keys !! lits.Keys
             && OperandText(o, Values(vars, blocks, lits), lits).Some?
    ensures var p := Pointer(o, vars);
            (p in blocks || p in lits) && OperandText(o, Values(vars, blocks, lits), lits).value ==
              TextAt(blocks, lits, p)
  {
  }

  // The value of x with t appended; None when it would not fit a header.
  function Appended(st: Texts, x: Ident, t: Option<seq<Byte>>, spare: nat): Option<Texts>
    requires x in st
  {
    var s := if st[x].None? then [] else st[x].value;
    if t.None? || |s| + |t.value| + spare >= FIELD then None else Some(st[x := Some(s + t.value)])
  }

  /**
   What a statement does to the texts. None where the program reads through nil or writes outside of a text, where the
   length or the capacity does not fit its half of the header, or where a string is appended to itself.
   */
  function Meaning(s: StrStmt, st: Texts, lits: map<Ptr, Block>): (r: Option<Texts>)
    ensures r.Some? ==> s.x in st && r.value.Keys == st.Keys && r.value[s.x].Some?
  {
    if s.x !in st then None
    else match s
      case SetLit(x, l) => if l in lits then Some(st[x := Some(lits[l].Text())]) else None
      case SetNew(x, cap) => if 1 <= cap < FIELD then Some(st[x := Some([])]) else None
      case SetConcat(x, ops) =>
        var t := OperandTexts(ops, st, lits);
        if |ops| < 2 || t.None? || |t.value| + 32 >= FIELD then None else Some(st[x := t])
      case AddLit(x, l) => if st[x].None? then None else Appended(st, x, OperandText(OpLit(l), st, lits), 32)
      case AddVar(x, y) => if x == y then None else Appended(st, x, OperandText(OpVar(y), st, lits), 8)
      case AddChar(x, c) => if c > 128 then None else Appended(st, x, Some([c]), 8)
      case SetChar(x, i, c) =>
        if st[x].None? || i >= |st[x].value| || |st[x].value| + 24 >= FIELD then None
          else Some(st[x := Some(st[x].value[i := c])])
  }

  function MeaningAll(ss: seq<StrStmt>, st: Texts, lits: map<Ptr, Block>): Option<Texts> {
    if ss == [] then Some(st)
    else
      var st1 := Meaning(ss[0], st, lits);
      if st1.None? then None else MeaningAll(ss[1..], st1.value, lits)
  }

  /** The capacity of the variable's string when its text has got length n; it was cap before. */
  function CapAfter(s: StrStmt, n: nat, cap: nat): nat {
    match s
    case SetLit(_, _) => 0
    case SetNew(_, c) => c
    case SetConcat(_, _) => n + 32
    case AddLit(_, _) => n + 32
    case AddVar(_, _) => if n < cap then cap else n + 8
    case AddChar(_, _) => if n < cap then cap else n + 8
    case SetChar(_, _, _) => if cap > 0 then cap else n + 24
  }

  /** Appends to a string with enough room, and writing a character of a heap string, change the block of the string. */
  predicate StaysInPlace(s: StrStmt, n: nat, cap: nat) {
    match s
    case AddVar(_, _) => n < cap
    case AddChar(_, _) => n < cap
    case SetChar(_, _, _) => cap > 0
    case _ => false
  }

  lemma AddVarMeans(x: Ident, y: Ident, st: Texts, lits: map<Ptr, Block>)
    requires Meaning(AddVar(x, y), st, lits).Some?
    ensures x in st && y in st && x != y && st[y].Some?
    ensures var t := (if st[x].None? then [] else st[x].value) + st[y].value;
            && |t| + 8 < FIELD && TextLen(AddVar(x, y), st, lits) == |t|
            && Meaning(AddVar(x, y), st, lits).value == st[x := Some(t)]
  {
  }

  lemma AddCharMeans(x: Ident, c: Byte, st: Texts, lits: map<Ptr, Block>)
    requires Meaning(AddChar(x, c), st, lits).Some?
    ensures x in st
    ensures var t := (if st[x].None? then [] else st[x].value) + [c];
            && |t| + 8 < FIELD && TextLen(AddChar(x, c), st, lits) == |t|
            && Meaning(AddChar(x, c), st, lits).value == st[x := Some(t)]
  {
  }

  lemma SetCharMeans(x: Ident, i: nat, c: Byte, st: Texts, lits: map<Ptr, Block>)
    requires Meaning(SetChar(x, i, c), st, lits).Some?
    ensures x in st && st[x].Some? && i < |st[x].value| == TextLen(SetChar(x, i, c), st, lits)
    ensures |st[x].value| + 24 < FIELD
    ensures Meaning(SetChar(x, i, c), st, lits).value == st[x := Some(st[x].value[i := c])]
  {
  }

  lemma SetConcatMeans(x: Ident, ops: seq<Operand>, st: Texts, lits: map<Ptr, Block>)
    requires Meaning(SetConcat(x, ops), st, lits).Some?
    ensures x in st && |ops| >= 2 && OperandTexts(ops, st, lits).Some?
    ensures var t := OperandTexts(ops, st, lits).value;
            && |t| + 32 < FIELD && TextLen(SetConcat(x, ops), st, lits) == |t|
            && Meaning(SetConcat(x, ops), st, lits).value == st[x := Some(t)]
  {
    hide OperandTexts;
  }

  // The length of the text that the statement gives its variable.
  function TextLen(s: StrStmt, st: Texts, lits: map<Ptr, Block>): nat
    requires Meaning(s, st, lits).Some?
  {
    |Meaning(s, st, lits).value[s.x].value|
  }

  function CapsAfterAll(ss: seq<StrStmt>, st: Texts, caps: Caps, lits: map<Ptr, Block>): Caps
    requires MeaningAll(ss, st, lits).Some? && caps.Keys == st.Keys
  {
    if ss == [] then caps
    else
      var s := ss[0];
      CapsAfterAll(ss[1..], Meaning(s, st, lits).value,
        caps[s.x := CapAfter(s, TextLen(s, st, lits), caps[s.x])], lits)
  }

  // ----- the heap -----

  lemma {:induction false} UnusedAddress(s: set<Ptr>) returns (m: Ptr)
    ensures m != NIL && forall p :: p in s ==> p < m
    decreases |s|
  {
    if s == {} {
      m := 1;
    } else {
      var p :| p in s;
      var k := UnusedAddress(s - {p});
      m := if p < k then k else p + 1;
      forall q | q in s
        ensures q < m
      {
        assert q == p || q in s - {p};
      }
    }
  }

  class Heap {
    var blocks: map<Ptr, Block>    // the live heap blocks
    var lits: map<Ptr, Block>      // the literals, in read-only memory, with capacity 0
    var count: int                 // allocation_count
    var vars: map<Ident, Ptr>

    ghost predicate Valid()
      reads this
    {
      && NIL !in blocks && NIL !in lits && blocks.Keys !! lits.Keys
      && (forall p :: p in blocks ==> blocks[p].Sound() && blocks[p].Cap() > 0)
      && (forall p :: p in lits ==> lits[p].Sound() && lits[p].Cap() == 0)
      && count == Total(blocks)
    }

    predicate Known(p: Ptr)
      reads this`blocks, this`lits
    {
      p in blocks || p in lits
    }

    function Mem(p: Ptr): Block
      reads this`blocks, this`lits
      requires Known(p)
    {
      if p in blocks then blocks[p] else lits[p]
    }

    /** The characters of a string; nil has none. */
    ghost function TextOf(p: Ptr): seq<Byte>
      reads this`blocks, this`lits
    {
      TextAt(blocks, lits, p)
    }

    function LenOf(p: Ptr): nat
      reads this`blocks, this`lits
      requires p == NIL || Known(p)
    {
      if p == NIL then 0 else Mem(p).Len()
    }

    /** Zeroed memory at an address that is not in use; the header is still to be written. */
    method Alloc(bytes: nat) returns (p: Ptr)
      requires Valid() && bytes >= 8
      modifies this`blocks, this`count
      ensures p != NIL && p !in old(blocks) && p !in lits
      ensures blocks == old(blocks)[p := Block(0, Zeros(bytes - 8))] && count == old(count) + bytes
    {
      ghost var m := UnusedAddress(blocks.Keys + lits.Keys);
      assert m !in blocks.Keys + lits.Keys;
      p :| p != NIL && p !in blocks && p !in lits;
      blocks := blocks[p := Block(0, Zeros(bytes - 8))];
      count := count + bytes;
    }

    /** Frees a heap string; nil and literals are left alone. */
    method FreeString(p: Ptr)
      requires Valid() && (p == NIL || Known(p))
      modifies this`blocks, this`count
      ensures Valid()
      ensures blocks == old(blocks) - {p}
      ensures count == old(count) - (if p in old(blocks) then old(blocks)[p].Cap() + 8 else 0)
    {
      if p == NIL {
        assert blocks - {p} == blocks;
        return;
      }
      var cap := Mem(p).Cap();
      if cap == 0 {
        assert blocks - {p} == blocks;
        return;
      }
      TotalRemove(blocks, p);
      count := count - (cap + 8);
      blocks := blocks - {p};
    }

    // The header and the data of a block that has just been allocated.
    method Fill(p: Ptr, cap: nat, len: nat, data: seq<Byte>, ghost before: map<Ptr, Block>)
      requires NIL !in before && NIL !in lits && before.Keys !! lits.Keys
      requires forall p :: p in before ==> before[p].Sound() && before[p].Cap() > 0
      requires forall p :: p in lits ==> lits[p].Sound() && lits[p].Cap() == 0
      requires p != NIL && p !in before && p !in lits && p in blocks && blocks == before[p := blocks[p]]
      requires count == Total(before) + cap + 8
      requires 0 < cap < FIELD && len <= cap == |data|
      modifies this`blocks
      ensures Valid() && blocks == before[p := Block(Pack(cap, len), data)]
    {
      blocks := blocks[p := Block(Pack(cap, len), data)];
      assert blocks == before[p := Block(Pack(cap, len), data)];
      TotalSet(before, p, Block(Pack(cap, len), data));
    }

    /** A new empty string. */
    method NewString(cap: nat) returns (p: Ptr)
      requires Valid() && 1 <= cap < FIELD
      modifies this`blocks, this`count
      ensures Valid() && p != NIL && p !in old(blocks) && p !in lits && p in blocks
      ensures blocks == old(blocks)[p := blocks[p]] && count == old(count) + cap + 8
      ensures TextOf(p) == [] && blocks[p].Cap() == cap
    {
      p := Alloc(cap + 8);
      Fill(p, cap, 0, Zeros(cap), old(blocks));
    }

    /** A writeable copy of a literal; a heap string is returned as it is. */
    method CopyStringToRam(p: Ptr) returns (q: Ptr)
      requires Valid() && Known(p) && (p in lits ==> LenOf(p) + 24 < FIELD)
      modifies this`blocks, this`count
      ensures Valid() && q in blocks && TextOf(q) == old(TextOf(p))
      ensures p in old(blocks) ==> q == p && blocks == old(blocks) && count == old(count)
      ensures p !in old(blocks) ==>
                && q != NIL && q !in old(blocks) && q !in lits && blocks == old(blocks)[q := blocks[q]]
                && blocks[q].Cap() == old(LenOf(p)) + 24 && count == old(count) + old(LenOf(p)) + 32
    {
      if Mem(p).Cap() != 0 {
        return p;
      }
      var len, src := Mem(p).Len(), Mem(p).data;
      q := Alloc(len + 32);
      Fill(q, len + 24, len, Blit(Zeros(len + 24), 0, src[..len]), old(blocks));
    }

    /**
     A new string with the characters of both arguments and 32 bytes to spare. A flagged argument is freed
     if it is a heap string.
     */
    method Concat(p1: Ptr, p2: Ptr, free1: bool, free2: bool) returns (q: Ptr)
      requires Valid() && Known(p1) && Known(p2) && (free1 && free2 && p1 == p2 ==> p1 in lits)
      requires LenOf(p1) + LenOf(p2) + 32 < FIELD
      modifies this`blocks, this`count
      ensures Valid() && q !in old(blocks) && q in blocks
      ensures TextOf(q) == old(TextOf(p1) + TextOf(p2))
      ensures q !in lits && blocks == (old(blocks) - Freed(p1, free1) - Freed(p2, free2))[q := blocks[q]]
      ensures blocks[q].Cap() == old(LenOf(p1) + LenOf(p2)) + 32
    {
      q := Join(p1, p2);
      FreeArgument(p1, free1);
      FreeArgument(p2, free2);
      SetThenRemove(old(blocks), q, blocks[q], Freed(p1, free1), Freed(p2, free2));
    }

    // The end of Concat: an argument that is a temporary is freed, if it is a heap string.
    method FreeArgument(p: Ptr, free: bool)
      requires Valid() && (free ==> Known(p))
      modifies this`blocks, this`count
      ensures Valid() && blocks == old(blocks) - Freed(p, free)
    {
      assert blocks - {} == blocks;
      if free {
        assert p !in blocks ==> blocks - {p} == blocks;
        if Mem(p).Cap() != 0 {
          FreeString(p);
        }
      }
    }

    // The part of Concat that allocates and copies.
    method Join(p1: Ptr, p2: Ptr) returns (q: Ptr)
      requires Valid() && Known(p1) && Known(p2) && LenOf(p1) + LenOf(p2) + 32 < FIELD
      modifies this`blocks, this`count
      ensures Valid() && q != NIL && q !in old(blocks) && q !in lits && q in blocks
      ensures blocks == old(blocks)[q := blocks[q]] && blocks[q].Cap() == old(LenOf(p1) + LenOf(p2)) + 32
      ensures TextOf(q) == old(TextOf(p1) + TextOf(p2))
    {
      var len1, len2 := Mem(p1).Len(), Mem(p2).Len();
      var data := Joined(Mem(p1).data[..len1], Mem(p2).data[..len2]);
      q := Alloc(len1 + len2 + 40);
      Fill(q, len1 + len2 + 32, len1 + len2, data, old(blocks));
    }

    /**
     Room for n characters more. The string is kept when it has the room already; otherwise it is
     copied to a new block and the old block is freed, if it was a heap block.
     */
    method ExtendStringCapacity(p: Ptr, n: nat, bytesExtra: nat) returns (q: Ptr)
      requires Valid() && (p == NIL || Known(p)) && LenOf(p) + n + bytesExtra + 4 < FIELD
      modifies this`blocks, this`count
      ensures Valid() && q in blocks
      ensures TextOf(q) == old(TextOf(p)) && blocks[q].Len() == old(LenOf(p)) && blocks[q].Len() + n <= |blocks[q].data|
      ensures blocks == (old(blocks) - {p})[q := blocks[q]]
      ensures if p in old(blocks) && old(blocks)[p].Len() + n < old(blocks)[p].Cap()
              then q == p && blocks == old(blocks)
              else q != p && q !in old(blocks) && q !in lits && blocks[q].Cap() == old(LenOf(p)) + n + bytesExtra + 4
    {
      var len := 0;
      if p != NIL {
        len := Mem(p).Len();
        if len + n < Mem(p).Cap() {
          assert blocks == (blocks - {p})[p := blocks[p]];
          return p;
        }
      }
      var cap := len + n + bytesExtra + 4;
      q := Alloc(cap + 8);
      var data := Zeros(cap);
      if p != NIL {
        data := Blit(data, 0, Mem(p).data[..len]);
      }
      Fill(q, cap, len, data, old(blocks));
      ghost var b := blocks[q];
      SetThenRemove(old(blocks), q, b, {p}, {});
      FreeString(p);
      assert blocks - {} == blocks && old(blocks) - {p} - {} == old(blocks) - {p};
    }

    // The new length and the appended characters, in a block with the room.
    method StoreAppended(q: Ptr, t: seq<Byte>)
      requires Valid() && q in blocks && blocks[q].Len() + |t| <= |blocks[q].data| && blocks[q].Len() + |t| < FIELD
      modifies this`blocks
      ensures Valid() && q in blocks && blocks == old(blocks)[q := blocks[q]]
      ensures TextOf(q) == old(TextOf(q)) + t && blocks[q].Cap() == old(blocks)[q].Cap()
    {
      var b := blocks[q];
      AddLen(b.hdr, |t|);
      var b' := Block(b.hdr + |t|, Blit(b.data, b.Len(), t));
      assert b'.data[..b.Len() + |t|] == b.data[..b.Len()] + t;
      TotalSet(blocks, q, b');
      blocks := blocks[q := b'];
    }

    /** One character of a heap string is overwritten. */
    method StoreChar(q: Ptr, i: nat, c: Byte)
      requires Valid() && q in blocks && i < blocks[q].Len()
      modifies this`blocks
      ensures Valid() && q in blocks && blocks == old(blocks)[q := blocks[q]]
      ensures TextOf(q) == old(TextOf(q))[i := c] && blocks[q].hdr == old(blocks)[q].hdr
    {
      var b := blocks[q];
      var b' := Block(b.hdr, b.data[i := c]);
      assert b'.data[..b.Len()] == b.data[..b.Len()][i := c];
      TotalSet(blocks, q, b');
      blocks := blocks[q := b'];
    }

    /** A string with room for n characters has stayed where it was; otherwise there is a new one with 8 to spare. */
    twostate predicate Extended(p: Ptr, q: Ptr, n: nat)
      reads this`blocks
    {
      && q in blocks
      && (if n < CapAt(old(blocks), p) then q == p && blocks[q].Cap() == old(blocks)[p].Cap()
          else q != p && blocks[q].Cap() == n + 8)
    }

    /** Appends string r to p, which may be nil, a literal or a heap string other than r. */
    method AppendString(p: Ptr, r: Ptr) returns (q: Ptr)
      requires Valid() && (p == NIL || Known(p)) && Known(r) && (p == r ==> p in lits)
               && LenOf(p) + LenOf(r) + 8 < FIELD
      modifies this`blocks, this`count
      ensures Valid() && q in blocks
      ensures TextOf(q) == old(TextOf(p) + TextOf(r))
      ensures blocks == (old(blocks) - {p})[q := blocks[q]] && (q == p || (q !in old(blocks) && q !in lits))
      ensures Extended(p, q, old(LenOf(p)) + old(LenOf(r)))
    {
      var len := Mem(r).Len();
      ghost var t := TextOf(r);
      q := ExtendStringCapacity(p, len, 4);
      assert Mem(r).Text() == t;
      StoreAppended(q, Mem(r).data[..len]);
      assert blocks == (old(blocks) - {p})[q := blocks[q]];
    }

    /** Appends one byte: a constant character up to 128, or the low byte of an expression. */
    method AppendChar(p: Ptr, c: Byte) returns (q: Ptr)
      requires Valid() && (p == NIL || Known(p)) && LenOf(p) + 9 < FIELD
      modifies this`blocks, this`count
      ensures Valid() && q in blocks
      ensures TextOf(q) == old(TextOf(p)) + [c]
      ensures blocks == (old(blocks) - {p})[q := blocks[q]] && (q == p || (q !in old(blocks) && q !in lits))
      ensures Extended(p, q, old(LenOf(p)) + 1)
    {
      q := ExtendStringCapacity(p, 1, 4);
      StoreAppended(q, [c]);
      assert blocks == (old(blocks) - {p})[q := blocks[q]];
    }

    /**
     s1 + ... + sk for variables and literals: each intermediate string is freed by the next concatenation,
     so that one new block is left and the counter has grown by the total length and 40.
     */
    method ConcatChain(ps: seq<Ptr>) returns (acc: Ptr)
      requires Valid() && |ps| >= 2 && (forall i :: 0 <= i < |ps| ==> Known(ps[i]))
               && |TextsAt(blocks, lits, ps)| + 32 < FIELD
      modifies this`blocks, this`count
      ensures Valid() && acc !in old(blocks) && acc in blocks && blocks == old(blocks)[acc := blocks[acc]]
      ensures TextOf(acc) == TextsAt(old(blocks), lits, ps)
      ensures blocks[acc].Cap() == |TextsAt(old(blocks), lits, ps)| + 32
      ensures count == old(count) + |TextsAt(old(blocks), lits, ps)| + 40
    {
      hide TextAt, TextsAt, Total;
      acc := ps[0];
      var temp, i := false, 1;
      assert ps[..1] == [ps[0]];
      OneText(blocks, lits, ps[0]);
      while i < |ps|
        invariant 1 <= i <= |ps| && temp == (i > 1) && Valid()
        invariant TextOf(acc) == TextsAt(old(blocks), lits, ps[..i])
        invariant if temp then acc !in old(blocks) && acc in blocks && blocks == old(blocks)[acc := blocks[acc]]
                               && blocks[acc].Cap() == |TextsAt(old(blocks), lits, ps[..i])| + 32
                  else acc == ps[0] && blocks == old(blocks)
      {
        TextsSnoc(old(blocks), lits, ps, i);
        KnownKept(old(blocks), blocks, acc, temp, ps[i]);
        TextKept(old(blocks), blocks, lits, acc, temp, ps[i]);
        LenIsText(blocks, lits, acc);
        LenIsText(blocks, lits, ps[i]);
        ghost var before, last := blocks, acc;
        acc := Concat(acc, ps[i], temp, false);
        Replaced(old(blocks), before, last, temp, acc, blocks[acc]);
        temp := true;
        i := i + 1;
      }
      assert ps[..|ps|] == ps;
      TotalSet(old(blocks), acc, blocks[acc]);
    }

    // ----- statements on variables -----

    /** The heap is sound, every block has one owner, and the variables hold st. */
    ghost predicate Holds(st: Texts)
      reads this
    {
      Valid() && Owned(vars, blocks, lits) && Values(vars, blocks, lits) == st
    }

    /** The capacities of the variables. */
    function Caps(): Caps
      reads this`vars, this`blocks
    {
      CapsOf(vars, blocks)
    }

    /**
     The statement has left the capacities that it should, the counter has changed by the space that x takes, and a
     string that can be changed in place has not moved.
     */
    twostate predicate Accounts(s: StrStmt, st: Texts)
      reads this
    {
      && Meaning(s, st, lits).Some? && s.x in old(vars)
      && Takes(old(Caps()), old(count), s.x, CapAfter(s, TextLen(s, st, lits), CapAt(old(blocks), old(vars)[s.x])),
           Caps(), count)
      && (StaysInPlace(s, TextLen(s, st, lits), CapAt(old(blocks), old(vars)[s.x])) ==> vars == old(vars))
    }

    // A variable gets its new string.
    method SetVar(x: Ident, q: Ptr, ghost m: map<Ptr, Block>)
      requires Valid() && GivesWay(vars, m, lits, x, q, blocks) && forall p :: p in m ==> m[p].Cap() > 0
      modifies this`vars
      ensures vars == old(vars)[x := q] && Holds(Values(old(vars), m, lits)[x := Some(TextOf(q))])
      ensures Takes(CapsOf(old(vars), m), Total(m), x, CapAt(blocks, q), Caps(), count)
    {
      hide GivesWay, Owned, Values, TextAt, Total, CapAt, CapsOf, Occupied;
      StillOwned(vars, m, lits, x, q, blocks);
      ValueSet(vars, m, lits, x, q, blocks);
      CapSet(vars, m, lits, x, q, blocks);
      GivesWayOwned(vars, m, lits, x, q, blocks);
      HeapIsOccupied(vars, m, lits);
      HeapIsOccupied(vars[x := q], blocks, lits);
      OccupiedSet(CapsOf(vars, m), x, CapAt(blocks, q));
      vars := vars[x := q];
    }

    method AssignLiteral(x: Ident, l: Ptr, ghost st: Texts)
      requires Holds(st) && Meaning(SetLit(x, l), st, lits).Some?
      modifies this`vars, this`blocks, this`count
      ensures Holds(Meaning(SetLit(x, l), st, lits).value) && Accounts(SetLit(x, l), st)
    {
      FreeString(vars[x]);
      SetVar(x, l, old(blocks));
    }

    /** A temporary is assigned: it becomes the string of x, and the old string is freed. */
    method AssignTemp(x: Ident, t: Ptr, ghost st: Texts, ghost m: map<Ptr, Block>)
      requires Valid() && NIL !in m && m.Keys !! lits.Keys && Owned(vars, m, lits) && Values(vars, m, lits) == st
               && x in vars
      requires t in blocks && t !in m && blocks == m[t := blocks[t]] && forall p :: p in m ==> m[p].Cap() > 0
      modifies this`vars, this`blocks, this`count
      ensures Holds(st[x := Some(old(TextOf(t)))])
      ensures Takes(CapsOf(old(vars), m), Total(m), x, old(blocks)[t].Cap(), Caps(), count)
    {
      ghost var b := blocks[t];
      OwnedOrNil(vars, m, lits, x);
      hide Owned, Values, Total;
      FreeString(vars[x]);
      assert blocks == (m - {vars[x]})[t := b];
      SetVar(x, t, m);
    }

    /** Appends a literal by concatenation; the old string is freed. */
    method AppendLiteral(x: Ident, l: Ptr, ghost st: Texts)
      requires Holds(st) && Meaning(AddLit(x, l), st, lits).Some?
      modifies this`vars, this`blocks, this`count
      ensures Holds(Meaning(AddLit(x, l), st, lits).value) && Accounts(AddLit(x, l), st)
    {
      hide Owned, Values, Total, CapsOf, Takes;
      VarText(vars, blocks, lits, x);
      LenIsText(blocks, lits, l);
      hide TextAt;
      var q := Concat(vars[x], l, true, false);
      assert blocks == (old(blocks) - {vars[x]})[q := blocks[q]];
      SetVar(x, q, old(blocks));
    }

    // The end of an append: q is the string of x, extended in place or elsewhere; m are the blocks before.
    method SetExtended(x: Ident, q: Ptr, ghost m: map<Ptr, Block>, ghost s: StrStmt, ghost st: Texts, ghost st': Texts)
      requires Valid() && GivesWay(vars, m, lits, x, q, blocks) && (forall p :: p in m ==> m[p].Cap() > 0) && x in vars
      requires Meaning(s, st, lits) == Some(st') && st' == Values(vars, m, lits)[x := Some(TextOf(q))]
      requires var n, cap := TextLen(s, st, lits), CapAt(m, vars[x]);
               CapAt(blocks, q) == CapAfter(s, n, cap) && (StaysInPlace(s, n, cap) ==> q == vars[x])
      modifies this`vars
      ensures Holds(st')
      ensures var n, cap := TextLen(s, st, lits), CapAt(m, old(vars)[x]);
              && Takes(CapsOf(old(vars), m), Total(m), x, CapAfter(s, n, cap), Caps(), count)
              && (StaysInPlace(s, n, cap) ==> vars == old(vars))
    {
      hide Owned, Total, CapsOf, Takes, Meaning, TextLen, GivesWay, TextAt, Values;
      SetVar(x, q, m);
    }

    method AppendVariable(x: Ident, y: Ident, ghost st: Texts)
      requires Holds(st) && Meaning(AddVar(x, y), st, lits).Some?
      modifies this`vars, this`blocks, this`count
      ensures Holds(Meaning(AddVar(x, y), st, lits).value) && Accounts(AddVar(x, y), st)
    {
      hide Owned, Total, CapsOf, Takes, Meaning, TextLen, GivesWay;
      AddVarMeans(x, y, st, lits);
      VarLength(vars, blocks, lits, x);
      VarLength(vars, blocks, lits, y);
      TwoOwners(vars, blocks, lits, x, y);
      hide TextAt, Values;
      var q := AppendString(vars[x], vars[y]);
      ExtendedOwned(vars, old(blocks), lits, x, q, blocks);
      SetExtended(x, q, old(blocks), AddVar(x, y), st, Meaning(AddVar(x, y), st, lits).value);
    }

    method AppendCharacter(x: Ident, c: Byte, ghost st: Texts)
      requires Holds(st) && Meaning(AddChar(x, c), st, lits).Some?
      modifies this`vars, this`blocks, this`count
      ensures Holds(Meaning(AddChar(x, c), st, lits).value) && Accounts(AddChar(x, c), st)
    {
      hide Owned, Total, CapsOf, Takes, Meaning, TextLen, GivesWay;
      AddCharMeans(x, c, st, lits);
      VarLength(vars, blocks, lits, x);
      hide TextAt, Values;
      var q := AppendChar(vars[x], c);
      ExtendedOwned(vars, old(blocks), lits, x, q, blocks);
      SetExtended(x, q, old(blocks), AddChar(x, c), st, Meaning(AddChar(x, c), st, lits).value);
    }

    // The capacity of a string of length n that can be written to.
    twostate function WriteableCap(p: Ptr, n: nat): nat
      reads this`blocks
    {
      if p in old(blocks) then old(blocks)[p].Cap() else n + 24
    }

    /** The variable gets a string that can be written to; its text stays. */
    method MakeWriteable(x: Ident, ghost st: Texts)
      requires Holds(st) && x in st && st[x].Some? && |st[x].value| + 24 < FIELD
      modifies this`vars, this`blocks, this`count
      ensures Holds(st) && x in vars && vars[x] in blocks && TextOf(vars[x]) == st[x].value
      ensures x in old(vars)
      ensures Takes(old(Caps()), old(count), x, WriteableCap(old(vars)[x], |st[x].value|), Caps(), count)
      ensures old(vars)[x] in old(blocks) ==> vars == old(vars)
    {
      hide CapsOf, Takes, Owned, Values, TextAt, Total, GivesWay;
      VarText(vars, blocks, lits, x);
      var q := CopyStringToRam(vars[x]);
      CopyOwned(vars, old(blocks), lits, x, q, blocks);
      SetVar(x, q, old(blocks));
      assert st[x := st[x]] == st;
    }

    /** Overwrites a character: a literal is copied to RAM first, and the variable gets the copy. */
    method AssignChar(x: Ident, i: nat, c: Byte, ghost st: Texts)
      requires Holds(st) && Meaning(SetChar(x, i, c), st, lits).Some?
      modifies this`vars, this`blocks, this`count
      ensures Holds(Meaning(SetChar(x, i, c), st, lits).value) && Accounts(SetChar(x, i, c), st)
    {
      hide Owned, Values, TextAt, Total, GivesWay, CapsOf, Meaning, TextLen;
      SetCharMeans(x, i, c, st, lits);
      MakeWriteable(x, st);
      var q := vars[x];
      VarText(vars, blocks, lits, x);
      ghost var m := blocks;
      StoreChar(q, i, c);
      CopyOwned(vars, m, lits, x, q, blocks);
      SetVar(x, q, m);
    }

    method PushOperands(ops: seq<Operand>) returns (ps: seq<Ptr>)
      requires forall i :: 0 <= i < |ops| && ops[i].OpVar? ==> ops[i].x in vars
      ensures ps == Pointers(ops, vars)
    {
      ps := [];
      assert ops[..0] == [];
      for i := 0 to |ops|
        invariant ps == Pointers(ops[..i], vars)
      {
        assert ops[..i + 1][..i] == ops[..i];
        var p := if ops[i].OpVar? then vars[ops[i].x] else ops[i].l;
        ps := ps + [p];
      }
      assert ops[..|ops|] == ops;
    }

    method AssignConcat(x: Ident, ops: seq<Operand>, ghost st: Texts)
      requires Holds(st) && Meaning(SetConcat(x, ops), st, lits).Some?
      modifies this`vars, this`blocks, this`count
      ensures Holds(Meaning(SetConcat(x, ops), st, lits).value) && Accounts(SetConcat(x, ops), st)
    {
      hide CapsOf, Takes, Meaning, TextLen, OperandTexts, TextsAt, TextAt, Total;
      SetConcatMeans(x, ops, st, lits);
      OperandsDeclared(ops, st, lits);
      PointersText(ops, vars, blocks, lits);
      hide Pointers, Owned, Values;
      var ps := PushOperands(ops);
      ghost var m := blocks;
      var t := ConcatChain(ps);
      AssignTemp(x, t, st, m);
    }

    method AssignNew(x: Ident, cap: nat, ghost st: Texts)
      requires Holds(st) && Meaning(SetNew(x, cap), st, lits).Some?
      modifies this`vars, this`blocks, this`count
      ensures Holds(Meaning(SetNew(x, cap), st, lits).value) && Accounts(SetNew(x, cap), st)
    {
      ghost var m := blocks;
      var t := NewString(cap);
      AssignTemp(x, t, st, m);
    }

    method Execute(s: StrStmt, ghost st: Texts)
      requires Holds(st) && Meaning(s, st, lits).Some?
      modifies this`vars, this`blocks, this`count
      ensures Holds(Meaning(s, st, lits).value) && Accounts(s, st)
    {
      match s
      case SetLit(x, l) => AssignLiteral(x, l, st);
      case SetNew(x, cap) => AssignNew(x, cap, st);
      case SetConcat(x, ops) => AssignConcat(x, ops, st);
      case AddLit(x, l) => AppendLiteral(x, l, st);
      case AddVar(x, y) => AppendVariable(x, y, st);
      case AddChar(x, c) => AppendCharacter(x, c, st);
      case SetChar(x, i, c) => AssignChar(x, i, c, st);
    }

    /**
     A program of string statements: the variables end with the texts the statements mean and with the capacities that
     these texts call for, every block has an owner, and the counter is what the variables take.
     */
    method Run(ss: seq<StrStmt>, ghost st: Texts)
      requires Holds(st) && MeaningAll(ss, st, lits).Some?
      modifies this`vars, this`blocks, this`count
      ensures Holds(MeaningAll(ss, st, lits).value) && Caps() == CapsAfterAll(ss, st, old(Caps()), lits)
      ensures count == Occupied(Caps())
    {
      hide Meaning, Total, Owned, Occupied;
      if ss == [] {
        HeapIsOccupied(vars, blocks, lits);
      } else {
        Execute(ss[0], st);
        Run(ss[1..], Meaning(ss[0], st, lits).value);
      }
    }

    /** The end of a function frees its string variables: nothing is left, and the counter is back at zero. */
    method FreeVars()
      requires Valid() && Owned(vars, blocks, lits)
      modifies this`vars, this`blocks, this`count
      ensures blocks == map[] && count == 0 && vars == map[]
    {
      while vars != map[]
        invariant Valid() && Owned(vars, blocks, lits)
        decreases vars.Keys
      {
        var x :| x in vars;
        ghost var m, v := blocks, vars;
        FreeString(vars[x]);
        vars := vars - {x};
        OwnedRest(v, m, lits, x);
      }
      NoOwners(blocks, lits);
    }

    /**
     x += t for a temporary t, such as the result of a concatenation, appends its text, but t is neither freed
     nor owned afterwards: the counter keeps its capacity and header.
     */
    method AppendTemp(x: Ident, t: Ptr)
      requires Valid() && t in blocks && forall y :: y in vars ==> vars[y] != t
      requires x in vars && (vars[x] == NIL || Known(vars[x])) && LenOf(vars[x]) + LenOf(t) + 8 < FIELD
      modifies this`vars, this`blocks, this`count
      ensures Valid() && x in vars && TextOf(vars[x]) == old(TextOf(vars[x]) + TextOf(t))
      ensures t in blocks && forall y :: y in vars ==> vars[y] != t
      ensures count == Total(blocks - {t}) + old(blocks)[t].Cap() + 8
    {
      hide TextAt;
      var q := AppendString(vars[x], t);
      assert q != t && blocks[t] == old(blocks)[t];
      TotalRemove(blocks, t);
      vars := vars[x := q];
    }
  }

  function Freed(p: Ptr, free: bool): set<Ptr> { if free then {p} else {} }
}
