/** What it means that a piece of generated code computes an expression, and how such pieces compose. */
module Codegen {
  import opened Words
  import opened Machine
  import opened Source

  /** Where the generated code keeps the top of the evaluation stack. */
  datatype Cache = Undef | Sp | Ax

  /** The evaluation stack: the machine stack, with rax on top of it in state Ax. */
  function StackOf(s: Cache, m: State): seq<Word> {
    if s.Ax? then m.stack + [m.rax] else m.stack
  }

  function Depth(s: Cache, sp: int): int {
    if s.Ax? then sp + 1 else sp
  }

  /** The frame slots hold the store. */
  ghost predicate Models(sc: Scope, st: Store, m: State) {
    forall x :: x in sc.vars ==> x in st && ValidSlot(m, sc.vars[x]) && ReadSlot(m, sc.vars[x]) == st[x]
  }

  /** The run traps when v is None and otherwise pushes v. */
  ghost predicate Pushes(o: Outcome, v: Option<Word>, s0: Cache, s1: Cache, m: State) {
    match v
    case None => o.Trap?
    case Some(w) => o.Fall? && o.m.bp == m.bp && StackOf(s1, o.m) == StackOf(s0, m) + [w]
  }

  /**
   From cache state s0, code c leaves the value of e on top of the evaluation stack, in
   state s1, and everything below it as it was; it traps exactly when e does.
   */
  ghost predicate Computes(sc: Scope, c: seq<Instr>, e: Exp, s0: Cache, s1: Cache) {
    forall env: Env, m: State, st: Store :: Models(sc, st, m) ==> Pushes(Exec(env, c, m), Eval(e, st, env), s0, s1, m)
  }

  /** Code p changes where the top of the stack is held, and nothing on the evaluation stack. */
  ghost predicate Moves(p: seq<Instr>, s0: Cache, s1: Cache) {
    forall env: Env, m: State :: (s0.Sp? ==> |m.stack| > 0) ==>
      var o := Exec(env, p, m);
      o.Fall? && o.m.bp == m.bp && StackOf(s1, o.m) == StackOf(s0, m)
  }

  /** The run replaces rax, and `drop` words of the stack, by v, or traps when v is None. */
  ghost predicate Replaces(o: Outcome, v: Option<Word>, m: State, drop: nat)
    requires drop <= |m.stack|
  {
    match v
    case None => o.Trap?
    case Some(w) => o.Fall? && o.m.bp == m.bp && o.m.rax == w && o.m.stack == m.stack[..|m.stack| - drop]
  }

  /** Code c replaces the next word of the stack and rax by the result of op on them. */
  ghost predicate AppliesNosTos(c: seq<Instr>, op: Op) {
    forall env: Env, m: State :: |m.stack| >= 1 ==>
      Replaces(Exec(env, c, m), OpWord(op, m.stack[|m.stack| - 1], m.rax), m, 1)
  }

  /** Code c replaces rax by the result of op on it and a constant. */
  ghost predicate AppliesConst(c: seq<Instr>, op: Op, n: nat) {
    forall env: Env, m: State :: Replaces(Exec(env, c, m), OpWord(op, m.rax, Wrap(n)), m, 0)
  }

  // ----- composition -----

  lemma ModelsKept(sc: Scope, st: Store, m: State, m1: State)
    requires Models(sc, st, m)
    requires m1.bp == m.bp && m.stack <= m1.stack
    ensures Models(sc, st, m1)
  {
  }

  lemma PushesKeeps(o: Outcome, w: Word, s0: Cache, s1: Cache, m: State)
    requires Pushes(o, Some(w), s0, s1, m)
    ensures m.stack <= o.m.stack
  {
    var t := StackOf(s1, o.m);
    assert t == StackOf(s0, m) + [w];
    assert m.stack <= StackOf(s0, m);
    assert |m.stack| <= |o.m.stack|;
    assert forall i :: 0 <= i < |m.stack| ==> o.m.stack[i] == t[i] == StackOf(s0, m)[i] == m.stack[i];
  }

  lemma ComputesThenMoves(sc: Scope, c: seq<Instr>, e: Exp, p: seq<Instr>, s0: Cache, s1: Cache, s2: Cache)
    requires Computes(sc, c, e, s0, s1) && Moves(p, s1, s2)
    ensures Computes(sc, c + p, e, s0, s2)
  {
    hide Step, Exec, OpWord;
    forall env: Env, m: State, st: Store | Models(sc, st, m)
      ensures Pushes(Exec(env, c + p, m), Eval(e, st, env), s0, s2, m)
    {
      ExecConcat(env, c, p, m);
      assert Pushes(Exec(env, c, m), Eval(e, st, env), s0, s1, m);
    }
  }

  lemma MovesThenComputes(sc: Scope, p: seq<Instr>, c: seq<Instr>, e: Exp, s0: Cache, s1: Cache, s2: Cache)
    requires Moves(p, s0, s1) && Computes(sc, c, e, s1, s2) && !s0.Sp? && !s1.Ax?
    ensures Computes(sc, p + c, e, s0, s2)
  {
    hide Step, Exec, OpWord;
    forall env: Env, m: State, st: Store | Models(sc, st, m)
      ensures Pushes(Exec(env, p + c, m), Eval(e, st, env), s0, s2, m)
    {
      ExecConcat(env, p, c, m);
      var m1 := Exec(env, p, m).m;
      assert m.stack <= StackOf(s0, m) == m1.stack;
      ModelsKept(sc, st, m, m1);
      assert Pushes(Exec(env, c, m1), Eval(e, st, env), s1, s2, m1);
    }
  }

  lemma BinaryRun(env: Env, c1: seq<Instr>, c2: seq<Instr>, c3: seq<Instr>, op: Op,
                  a: Option<Word>, b: Option<Word>, m: State, s0: Cache, s1: Cache)
    requires Pushes(Exec(env, c1, m), a, s0, s1, m)
    requires a.Some? ==> Pushes(Exec(env, c2, Exec(env, c1, m).m), b, s1, Ax, Exec(env, c1, m).m)
    requires AppliesNosTos(c3, op)
    ensures Pushes(Exec(env, c1 + c2 + c3, m), Lift(op, a, b), s0, Ax, m)
  {
    hide Step, Exec, OpWord;
    ExecConcat(env, c1 + c2, c3, m);
    ExecConcat(env, c1, c2, m);
    if a.Some? && b.Some? {
      var m2 := Exec(env, c2, Exec(env, c1, m).m).m;
      TwoOnTop(StackOf(s0, m), a.value, b.value, m2);
      assert Replaces(Exec(env, c3, m2), OpWord(op, a.value, b.value), m2, 1);
    }
  }

  // The code of two operands, then of the operator.
  lemma ComposeBinary(sc: Scope, c1: seq<Instr>, c2: seq<Instr>, c3: seq<Instr>, op: Op, l: Exp, r: Exp, s0: Cache,
                      s1: Cache)
    requires Computes(sc, c1, l, s0, s1) && Computes(sc, c2, r, s1, Ax) && AppliesNosTos(c3, op)
    ensures Computes(sc, c1 + c2 + c3, Bin(op, l, r), s0, Ax)
  {
    hide Step, Exec, OpWord;
    forall env: Env, m: State, st: Store | Models(sc, st, m)
      ensures Pushes(Exec(env, c1 + c2 + c3, m), Eval(Bin(op, l, r), st, env), s0, Ax, m)
    {
      var a, b := Eval(l, st, env), Eval(r, st, env);
      var o1 := Exec(env, c1, m);
      assert Pushes(o1, a, s0, s1, m);
      if a.Some? {
        PushesKeeps(o1, a.value, s0, s1, m);
        ModelsKept(sc, st, m, o1.m);
        assert Pushes(Exec(env, c2, o1.m), b, s1, Ax, o1.m);
      }
      BinaryRun(env, c1, c2, c3, op, a, b, m, s0, s1);
    }
  }

  lemma TwoOnTop(base: seq<Word>, a: Word, b: Word, m: State)
    requires StackOf(Ax, m) == base + [a] + [b]
    ensures m.stack == base + [a] && m.rax == b && |m.stack| >= 1
    ensures m.stack[|m.stack| - 1] == a && m.stack[..|m.stack| - 1] == base
  {
    var t := StackOf(Ax, m);
    assert m.stack == t[..|t| - 1] == base + [a];
    assert m.rax == t[|t| - 1] == b;
  }

  lemma OneOnTop(base: seq<Word>, a: Word, m: State)
    requires StackOf(Ax, m) == base + [a]
    ensures m.stack == base && m.rax == a
  {
    var t := StackOf(Ax, m);
    assert m.stack == t[..|t| - 1];
    assert m.rax == t[|t| - 1];
  }

  // The code of one operand, then of the operator with a constant.
  lemma ComposeConst(sc: Scope, c1: seq<Instr>, c2: seq<Instr>, op: Op, e: Exp, n: nat, e': Exp, s0: Cache)
    requires Computes(sc, c1, e, s0, Ax) && AppliesConst(c2, op, n)
    requires forall st, env :: Eval(e', st, env) == Lift(op, Eval(e, st, env), Some(Wrap(n)))
    ensures Computes(sc, c1 + c2, e', s0, Ax)
  {
    hide Step, Exec, OpWord;
    forall env: Env, m: State, st: Store | Models(sc, st, m)
      ensures Pushes(Exec(env, c1 + c2, m), Eval(e', st, env), s0, Ax, m)
    {
      ExecConcat(env, c1, c2, m);
      var a := Eval(e, st, env);
      assert Pushes(Exec(env, c1, m), a, s0, Ax, m);
      assert Eval(e', st, env) == Lift(op, a, Some(Wrap(n)));
      if a.Some? {
        var m1 := Exec(env, c1, m).m;
        OneOnTop(StackOf(s0, m), a.value, m1);
        assert Replaces(Exec(env, c2, m1), OpWord(op, a.value, Wrap(n)), m1, 0);
        assert m1.stack[..|m1.stack| - 0] == m1.stack;
      }
    }
  }

  // ----- the types of arguments -----

  /** A call is well typed exactly when the arguments are, and no I64 is passed for a boolean parameter. */
  lemma CallTyped(sc: Scope, f: Ident, args: seq<Exp>)
    ensures Static(sc, Apply(f, args)).Some? <==>
            f in sc.fns && |sc.fns[f]| == |args| && forall i :: 0 <= i < |args| ==>
              Static(sc, args[i]).Some? && (sc.fns[f][i].BoolT? ==> Static(sc, args[i]).value.ty.BoolT?)
  {
    hide Static;
    ArgTypes(sc, args);
    if f in sc.fns && |sc.fns[f]| == |args| {
      ArgsAccepted(sc.fns[f], TypesOf(sc, args));
    }
    CallStatic(sc, f, args);
  }

  lemma CallStatic(sc: Scope, f: Ident, args: seq<Exp>)
    ensures Static(sc, Apply(f, args)).Some? <==>
            f in sc.fns && AllTyped(sc, args) && Accepts(sc.fns[f], TypesOf(sc, args))
  {
  }

  lemma ArgsAccepted(pars: seq<Type>, args: seq<Type>)
    requires |pars| == |args|
    ensures Accepts(pars, args) <==> forall i :: 0 <= i < |args| ==> (pars[i].BoolT? ==> args[i].BoolT?)
  {
    assert forall a: Type, b: Type :: CanAssign(a, b) <==> (a.BoolT? ==> b.BoolT?);
  }

  lemma {:induction false} ArgTypes(sc: Scope, args: seq<Exp>)
    ensures AllTyped(sc, args) <==> forall i :: 0 <= i < |args| ==> Static(sc, args[i]).Some?
    ensures forall i :: 0 <= i < |args| ==>
              TypesOf(sc, args)[i] == if Static(sc, args[i]).Some? then Static(sc, args[i]).value.ty else IntT
  {
    hide Static;
    if args != [] {
      ArgTypes(sc, args[1..]);
      assert args == [args[0]] + args[1..];
    }
  }

  // ----- labels -----

  /** The labels of c are distinct and lie in (lo, hi]. */
  ghost predicate Labelled(c: seq<Instr>, lo: nat, hi: nat) {
    UniqueLabels(c) && forall i :: 0 <= i < |c| && c[i].Label? ==> lo < c[i].lbl <= hi
  }

  /** Every call in c is a call of a known function, with the right number of arguments. */
  ghost predicate CallsIn(fns: map<Ident, seq<Type>>, c: seq<Instr>) {
    forall i :: 0 <= i < |c| && c[i].Call? ==> c[i].f in fns && |fns[c[i].f]| == c[i].arity
  }

  lemma LabelledConcat(a: seq<Instr>, lo1: nat, hi1: nat, b: seq<Instr>, lo2: nat, hi2: nat)
    requires Labelled(a, lo1, hi1) && Labelled(b, lo2, hi2) && (hi1 <= lo2 || hi2 <= lo1)
    ensures forall lo: nat, hi: nat :: lo <= lo1 && lo <= lo2 && hi1 <= hi && hi2 <= hi ==> Labelled(a + b, lo, hi)
  {
  }

  // ----- constants and truth values -----

  /**
   Folding two constants agrees with the 64-bit operator exactly under the conditions of FoldExact:
   the equality tests have a relative tolerance, and a count of 64 or more shifts everything out.
   */
  lemma FoldAgrees(op: Op, a: int, b: int)
    requires 0 <= a <= MAX_LIT && 0 <= b <= MAX_LIT
    requires Fold(op, a, b).Some? && 0 <= Fold(op, a, b).value.n <= MAX_LIT
    ensures OpWord(op, a, b) == Some(Fold(op, a, b).value.n) <==> FoldExact(op, a, b)
  {
    hide OpWord, FoldTest, FoldShifted, FoldDivided, FoldInt, Wrap, Pow2;
    if op.IsCompare() {
      FoldCompare(op, a, b);
    } else if op.Shl? || op.Shr? {
      FoldShift(op, a, b);
    } else if op.Div? || op.Mod? {
      FoldDivide(op, a, b);
    } else {
      FoldOther(op, a, b);
    }
  }

  // A relative error of at most 2^-53, that of rounding to a binary64 number.
  predicate Rounded(x: real, y: real) { -y <= 9_007_199_254_740_992.0 * (x - y) <= y }

  // The compiler divides in floating point: q is the rounded quotient of the difference d and the maximum m, and c the
  // rounded constant 1e-7. The comparison comes out as with exact numbers; where they are equal, both are roundings of
  // the same number.
  lemma RoundedQuotient(d: nat, m: int, q: real, c: real)
    requires d <= MAX_LIT && 1 <= m <= MAX_LIT
    requires Rounded(q * m as real, d as real) && Rounded(10_000_000.0 * c, 1.0)
    ensures d * 10_000_000 < m ==> q < c
    ensures d * 10_000_000 > m ==> q > c
  {
    var x := m as real;
    var a, b := q * x, c * x;
    RoundedConstant(c, x, b);
    hide Rounded;
    FarApart(d, m, a, b);
    SameOrder(q, c, x);
    SameOrder(c, q, x);
  }

  lemma RoundedConstant(c: real, x: real, b: real)
    requires Rounded(10_000_000.0 * c, 1.0) && x >= 0.0 && b == c * x
    ensures Rounded(10_000_000.0 * b, x)
  {
    var e := 9_007_199_254_740_992.0 * (10_000_000.0 * c - 1.0);
    NotNegative(e + 1.0, x);
    NotNegative(1.0 - e, x);
    assert e * x == 9_007_199_254_740_992.0 * (10_000_000.0 * (c * x) - x);
    assert e * x == 9_007_199_254_740_992.0 * (10_000_000.0 * b - x);
  }

  lemma NotNegative(a: real, b: real)
    requires a >= 0.0 && b >= 0.0
    ensures a * b >= 0.0
  {
  }

  lemma FarApart(d: nat, m: int, a: real, b: real)
    requires d <= MAX_LIT && 1 <= m <= MAX_LIT && Rounded(a, d as real) && Rounded(10_000_000.0 * b, m as real)
    ensures d * 10_000_000 < m ==> a < b
    ensures d * 10_000_000 > m ==> a > b
  {
    var y, x := d as real, m as real;
    assert (d * 10_000_000) as real == y * 10_000_000.0;
    assert d * 10_000_000 < m ==> y * 10_000_000.0 <= x - 1.0;
    assert d * 10_000_000 > m ==> y * 10_000_000.0 >= x + 1.0;
  }

  lemma SameOrder(q: real, c: real, x: real)
    requires x > 0.0
    ensures q * x < c * x ==> q < c
  {
    if q >= c {
      assert (q - c) * x >= 0.0;
    }
  }

  // Two constants that differ are folded as equal.
  lemma FoldDiffers()
    ensures Fold(Eq, 20_000_001, 20_000_000) == Some(Value(BoolT, true, 1))
            && OpWord(Eq, 20_000_001, 20_000_000) == Some(0)
  {
    hide Word64, DivWord, ModWord, MulLow, Wrap;
  }

  // 1 << 64, or by any other multiple of 64, is folded to 0, and at run time it is 1.
  lemma FoldShiftDiffers(b: int)
    requires 64 <= b <= MAX_LIT && b % 64 == 0
    ensures Fold(Shl, 1, b) == Some(Value(IntT, true, 0)) && OpWord(Shl, 1, b) == Some(1)
  {
    ShiftedOut(1, b);
    assert ShiftLeft(1, b) == Wrap(Pow2(0));
    hide Pow2, Word64, DivWord, ModWord, MulLow, FoldInt, FoldDivided, FoldTest;
  }

  lemma FoldCompare(op: Op, a: int, b: int)
    requires 0 <= a <= MAX_LIT && 0 <= b <= MAX_LIT && op.IsCompare()
    ensures OpWord(op, a, b) == Some(Truth(FoldTest(op, a, b))) <==> FoldExact(op, a, b)
  {
    hide Pow2, Word64;
    assert Signed(a) == a && Signed(b) == b;
  }

  lemma FoldDivide(op: Op, a: int, b: int)
    requires 0 <= a <= MAX_LIT && 0 <= b <= MAX_LIT && (op.Div? || op.Mod?)
    requires FoldDivided(op, a, b).Some? && 0 <= FoldDivided(op, a, b).value <= MAX_LIT
    ensures OpWord(op, a, b) == Some(FoldDivided(op, a, b).value)
  {
    assert OpWord(op, a, b) == if op.Div? then DivWord(a, b) else ModWord(a, b);
    hide OpWord;
    assert Signed(a) == a && Signed(b) == b;
    SmallQuotient(a, b);
    hide TruncDiv, Signed;
    var q := TruncDiv(a, b);
    if op.Div? {
      WrapSmall(q);
    } else {
      WrapSmall(a - q * b);
    }
    hide Wrap;
  }

  lemma SmallQuotient(a: int, b: int)
    requires 0 <= a <= MAX_LIT && 0 < b
    ensures 0 <= TruncDiv(a, b) <= MAX_LIT
  {
    DivBounds(a, b);
  }

  lemma WrapSmall(x: int)
    requires 0 <= x <= MAX_LIT
    ensures Wrap(x) == x
  {
  }

  lemma FoldOther(op: Op, a: int, b: int)
    requires 0 <= a <= MAX_LIT && 0 <= b <= MAX_LIT
    requires FoldInt(op, a, b).Some? && 0 <= FoldInt(op, a, b).value <= MAX_LIT
    ensures OpWord(op, a, b) == Some(FoldInt(op, a, b).value)
  {
    hide Word64;
    assert Wrap(a) == a && Wrap(b) == b;
  }

  lemma FoldShift(op: Op, a: int, b: int)
    requires 0 <= a <= MAX_LIT && 0 <= b <= MAX_LIT && (op.Shl? || op.Shr?)
    ensures OpWord(op, a, b) == Some(FoldShifted(op, a, b).value) <==> FoldExact(op, a, b)
  {
    if b < 64 {
      assert b % 64 == b;
    } else {
      ShiftedOut(a, b);
      KeptLeft(a, b % 64);
      KeptRight(a, Pow2(b % 64));
      hide Pow2;
    }
  }

  // What a shift by the count modulo 64 keeps.
  lemma KeptLeft(a: nat, j: nat)
    requires j < 64
    ensures Wrap(a * Pow2(j)) == 0 <==> a % Pow2(64 - j) == 0
  {
    Pow2Values();
    Pow2Add(j, 64 - j);
    hide Pow2;
    KeptMultiple(a, Pow2(j), Pow2(64 - j));
  }

  lemma KeptMultiple(a: nat, p: nat, q: nat)
    requires p >= 1 && q >= 1
    ensures p * q >= 1
    ensures (a * p) % (p * q) == 0 <==> a % q == 0
  {
    var k, r := a / q, a % q;
    MulAtLeast(p, q);
    assert a == k * q + r;
    Regrouped(p, q, k, r);
    MulAtLeast(q - r, p);
    assert r * p < p * q && (r > 0 ==> r * p > 0);
    DivModUnique(a * p, p * q, k, r * p);
  }

  lemma Regrouped(p: int, q: int, k: int, r: int)
    ensures (k * q + r) * p == k * (p * q) + r * p && (q - r) * p == p * q - r * p
  {
  }

  lemma KeptRight(a: nat, p: nat)
    requires p >= 1
    ensures a / p == 0 <==> a < p
  {
    assert a == (a / p) * p + a % p;
    if a < p {
      DivModUnique(a, p, 0, a);
    }
  }

  lemma ShiftedOut(a: int, b: int)
    requires 0 <= a <= MAX_LIT && b >= 64
    ensures Wrap(a * Pow2(b)) == 0 && a / Pow2(b) == 0
  {
    Pow2Values();
    Pow2Add(64, b - 64);
    ShiftedFar(a, Pow2(b - 64));
  }

  lemma ShiftedFar(a: int, p: nat)
    requires 0 <= a <= MAX_LIT && p >= 1
    ensures Wrap(a * (WORD * p)) == 0 && a / (WORD * p) == 0
  {
    hide Pow2;
    assert a * (WORD * p) == (a * p) * WORD;
    assert ((a * p) * WORD) % WORD == 0;
    MulAtLeast(p, WORD);
    DivModUnique(a, WORD * p, 0, a);
  }

  // A constant expression has its folded value, whatever the store.
  lemma {:induction false} ConstEval(sc: Scope, e: Exp, st: Store, env: Env)
    requires Fragment(sc, e) && Static(sc, e).Some? && Static(sc, e).value.isConst
    ensures 0 <= Static(sc, e).value.n <= MAX_LIT
    ensures Static(sc, e).value.ty.BoolT? ==> Static(sc, e).value.n <= 1
    ensures Eval(e, st, env) == Some(Static(sc, e).value.n)
  {
    hide OpWord, Fold, FoldExact;
    match e
    case Lit(n) => WrapSmall(n);
    case Bin(op, l, r) =>
      ConstEval(sc, l, st, env);
      ConstEval(sc, r, st, env);
      FoldAgrees(op, Static(sc, l).value.n, Static(sc, r).value.n);
      FoldBool(op, Static(sc, l).value.n, Static(sc, r).value.n);
    case _ =>
  }

  lemma FoldBool(op: Op, a: int, b: int)
    ensures Fold(op, a, b).Some? && Fold(op, a, b).value.ty.BoolT? ==> Fold(op, a, b).value.n <= 1
    ensures Fold(op, a, b).Some? ==> Fold(op, a, b).value.isConst
  {
    hide FoldTest, FoldShifted, FoldDivided, FoldInt;
  }

  // A boolean that is computed at run time is 0 or 1.
  lemma {:induction false} TruthValue(sc: Scope, e: Exp, st: Store, env: Env)
    requires Fragment(sc, e) && Static(sc, e).Some? && Static(sc, e).value.ty.BoolT? && !Static(sc, e).value.isConst
    ensures Eval(e, st, env).Some? ==> Eval(e, st, env).value in {0, 1}
  {
    hide Fold, FoldExact, OpWord, Word64, Negated, Wrap;
    match e
    case Bin(op, l, r) => CompareIsTruth(op, Eval(l, st, env), Eval(r, st, env));
      FoldBool(op, Static(sc, l).value.n, Static(sc, r).value.n);
    case Both(l, r) => TruthValue(sc, r, st, env);
    case Either(l, r) => TruthValue(sc, r, st, env);
    case _ =>
  }

  lemma CompareIsTruth(op: Op, a: Option<Word>, b: Option<Word>)
    ensures op.IsCompare() && Lift(op, a, b).Some? ==> Lift(op, a, b).value in {0, 1}
  {
    hide Word64, ShiftLeft, ShiftRight, DivWord, ModWord, MulLow;
  }

  /**
   What the parser has produced for e from cache state s0: no code for a constant; otherwise
   code that computes e, with its value in rax unless e is a call, and with labels in (lo, hi].
   */
  ghost predicate Generates(sc: Scope, c: seq<Instr>, e: Exp, s0: Cache, s1: Cache, lo: nat, hi: nat) {
    lo <= hi &&
    match Static(sc, e)
    case None => false
    case Some(v) =>
      if v.isConst then c == [] && s1 == s0 && lo == hi
      else s1 == (if e.Apply? then Sp else Ax) && Labelled(c, lo, hi) && Computes(sc, c, e, s0, s1)
  }
}
