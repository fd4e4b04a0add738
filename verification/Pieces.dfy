/**
 The fragment stack, small pieces of code, and facts about the grammar that the
 code generator relies on.
 */
module Pieces {
  import opened Words
  import opened Machine
  import opened Source
  import opened Codegen
  import OpCode
  import Calls

  /** The code written so far: the assembly file and the stack of pending fragments. */
  datatype Code = Code(out: seq<Instr>, frags: seq<seq<Instr>>)

  /** Code c added to the last fragment, or to the file when there is none. */
  function Extend(b: Code, c: seq<Instr>): Code {
    var n := |b.frags|;
    if n == 0 then b.(out := b.out + c) else b.(frags := b.frags[..n - 1] + [b.frags[n - 1] + c])
  }

  // ----- the calls in the code -----

  /** The calls in the fragments, and in the file from position start on, are calls of known functions. */
  ghost predicate KnownCalls(fns: map<Ident, seq<Type>>, start: nat, b: Code) {
    && start <= |b.out| && CallsIn(fns, b.out[start..])
    && forall i :: 0 <= i < |b.frags| ==> CallsIn(fns, b.frags[i])
  }

  lemma WriteKnown(fns: map<Ident, seq<Type>>, start: nat, b: Code, i: Instr)
    requires KnownCalls(fns, start, b) && (i.Call? ==> i.f in fns && |fns[i.f]| == i.arity)
    ensures KnownCalls(fns, start, Extend(b, [i]))
  {
    var b1 := Extend(b, [i]);
    if b.frags == [] {
      assert b1.out[start..] == b.out[start..] + [i];
    }
  }

  lemma {:induction false} JoinKnown(fns: map<Ident, seq<Type>>, cs: seq<seq<Instr>>)
    requires forall i :: 0 <= i < |cs| ==> CallsIn(fns, cs[i])
    ensures CallsIn(fns, Forwards(cs)) && CallsIn(fns, Calls.Backwards(cs))
  {
    if cs != [] {
      JoinKnown(fns, cs[..|cs| - 1]);
    }
  }

  lemma OutputKnown(fns: map<Ident, seq<Type>>, start: nat, b: Code)
    requires KnownCalls(fns, start, b) && |b.frags| == 1
    ensures KnownCalls(fns, start, Code(b.out + b.frags[0], []))
  {
    assert (b.out + b.frags[0])[start..] == b.out[start..] + b.frags[0];
  }

  lemma KnownSuffix(fns: map<Ident, seq<Type>>, out: seq<Instr>, p: seq<Instr>)
    ensures KnownCalls(fns, |out|, Code(out + p, [])) <==> CallsIn(fns, p)
  {
    assert (out + p)[|out|..] == p;
  }

  lemma Assoc(a: seq<Instr>, b: seq<Instr>, c: seq<Instr>)
    ensures a + b + c == a + (b + c)
  {
  }

  lemma ExtendTwice(b: Code, c1: seq<Instr>, c2: seq<Instr>)
    ensures Extend(Extend(b, c1), c2) == Extend(b, c1 + c2)
  {
    if |b.frags| == 0 {
      assert b.out + c1 + c2 == b.out + (c1 + c2);
    } else {
      var n := |b.frags|;
      assert b.frags[n - 1] + c1 + c2 == b.frags[n - 1] + (c1 + c2);
      assert Extend(b, c1).frags[..n - 1] == b.frags[..n - 1];
    }
  }

  lemma ExtendNothing(b: Code)
    ensures Extend(b, []) == b
  {
    if |b.frags| == 0 {
      assert b.out + [] == b.out;
    } else {
      assert b.frags[|b.frags| - 1] + [] == b.frags[|b.frags| - 1];
    }
  }

  /** The fragments joined first to last. */
  function Forwards(cs: seq<seq<Instr>>): seq<Instr> {
    if cs == [] then [] else Forwards(cs[..|cs| - 1]) + cs[|cs| - 1]
  }

  lemma LastFragment(cs: seq<seq<Instr>>, i: nat)
    requires i < |cs|
    ensures Forwards(cs[..i + 1]) == Forwards(cs[..i]) + cs[i]
    ensures Calls.Backwards(cs[..i + 1]) == cs[i] + Calls.Backwards(cs[..i])
  {
    assert cs[..i + 1][..i] == cs[..i];
  }

  lemma NoFragment()
    ensures Forwards([]) == [] && Calls.Backwards([]) == []
  {
  }

  // Joining the last three fragments extends the first of them by the other two.
  lemma JoinThree(b: Code, c1: seq<Instr>, c2: seq<Instr>, c3: seq<Instr>, frags: seq<seq<Instr>>)
    requires |b.frags| >= 1 && frags == Extend(b, c1).frags + [c2, c3]
    ensures var n := |frags|;
            frags[..n - 3] + [Forwards(frags[n - 3..])] == Extend(b, c1 + c2 + c3).frags
  {
    var n := |frags|;
    var a := frags[n - 3..];
    var top := b.frags[|b.frags| - 1];
    var x := top + c1;
    ForwardsThree(x, c2, c3);
    Assoc(top, c1, c2);
    Assoc(top, c1 + c2, c3);
    assert a == [x, c2, c3];
    hide Forwards;
    assert frags[..n - 3] == b.frags[..|b.frags| - 1];
  }

  lemma ForwardsThree(x: seq<Instr>, y: seq<Instr>, z: seq<Instr>)
    ensures Forwards([x, y, z]) == x + y + z
  {
    assert [x, y, z][..2] == [x, y] && [x, y][..1] == [x];
    assert Forwards([x]) == [] + x == x;
    assert Forwards([x, y]) == x + y;
  }

  /** How an instruction moves rsp, in words. */
  function SpChange(i: Instr): int {
    match i
    case Push(_) => 1
    case Pop(_) => -1
    case SubRsp(n) => n
    case AddRsp(n) => 0 - n
    case _ => 0
  }

  function Inverse(op: Op): Op {
    match op
    case Lt => Gt
    case Le => Op.Ge
    case Gt => Lt
    case Ge => Op.Le
    case Minus => InvMinus
    case Div => InvDiv
    case Mod => InvMod
    case Shl => InvShl
    case Shr => InvShr
    case _ => op
  }

  // With its operands exchanged, the inverse operator computes the same.
  lemma InverseMeans(op: Op, a: Word, b: Word)
    requires !op.IsInverse() && !op.AndNot?
    ensures OpWord(Inverse(op), b, a) == OpWord(op, a, b)
  {
    hide Word64, ShiftLeft, ShiftRight, DivWord, ModWord, MulLow;
    Word64Commutes(BitAnd, a, b);
    Word64Commutes(BitOr, a, b);
    Word64Commutes(BitXor, a, b);
    OpCode.MulCommutes(a, b);
  }

  lemma InverseValue(op: Op, v1: Value, v2: Value)
    requires !op.IsInverse() && v1.isConst && !v2.isConst
    ensures OpValue(Inverse(op), v2, v1) == OpValue(op, v1, v2)
  {
    hide Fold;
  }

  // ----- what may follow a tree of each grammar level -----

  predicate AfterUnary(k: Tokens) { k.Tok? ==> !k.head.Lpar? }

  predicate AfterProd(k: Tokens) { AfterUnary(k) && !(k.Tok? && k.head.Infix? && k.head.op.IsProd()) }

  predicate AfterSum(k: Tokens) { AfterProd(k) && !(k.Tok? && k.head.Infix? && k.head.op.IsSum()) }

  predicate AfterComp(k: Tokens) { AfterUnary(k) && !(k.Tok? && k.head.Infix?) }

  predicate AfterConj(k: Tokens) { AfterComp(k) && !(k.Tok? && k.head.LogAnd?) }

  predicate AfterExpr(k: Tokens) { AfterConj(k) && !(k.Tok? && k.head.LogOr?) }

  lemma ExprHead(e: Expr, k: Tokens)
    ensures TokExpr(e, k).Tok? && !TokExpr(e, k).head.Rpar?
  {
    var c := e.c.c;
    var k1 := TokConjRest(e.c.rest, TokDisjRest(e.rest, k));
    var s, k2 := if c.CompOne? then c.s else c.l, if c.CompOne? then k1 else Tok(Infix(c.op), TokSum(c.r, k1));
    assert TokExpr(e, k) == TokComp(c, k1) == TokSum(s, k2);
    var k3 := TokProdRest(s.p.rest, TokSumRest(s.rest, k2));
    assert TokSum(s, k2) == TokUnary(s.p.u, k3);
  }

  // ----- an operand that is ill-typed stays ill-typed -----

  lemma {:induction false} ProdFacts(sc: Scope, left: Exp, r: ProdRest)
    ensures Static(sc, AbsProdRest(left, r)).Some? ==> Static(sc, left).Some?
    ensures Fragment(sc, AbsProdRest(left, r)) ==> Fragment(sc, left)
    ensures StartsWithCall(AbsProdRest(left, r)) == StartsWithCall(left)
    decreases r
  {
    if r.ProdMore? {
      ProdFacts(sc, Bin(r.op, left, AbsUnary(r.u)), r.rest);
    }
  }

  lemma {:induction false} SumFacts(sc: Scope, left: Exp, r: SumRest)
    ensures Static(sc, AbsSumRest(left, r)).Some? ==> Static(sc, left).Some?
    ensures Fragment(sc, AbsSumRest(left, r)) ==> Fragment(sc, left)
    ensures StartsWithCall(AbsSumRest(left, r)) == StartsWithCall(left)
    decreases r
  {
    if r.SumMore? {
      SumFacts(sc, Bin(r.op, left, AbsProd(r.p)), r.rest);
    }
  }

  lemma {:induction false} ConjFacts(sc: Scope, left: Exp, r: ConjRest)
    ensures Static(sc, AbsConjRest(left, r)).Some? ==> Static(sc, left).Some?
    ensures Fragment(sc, AbsConjRest(left, r)) ==> Fragment(sc, left)
    ensures StartsWithCall(AbsConjRest(left, r)) == StartsWithCall(left)
    decreases r
  {
    if r.ConjMore? {
      ConjFacts(sc, Both(left, AbsComp(r.c)), r.rest);
    }
  }

  lemma {:induction false} DisjFacts(sc: Scope, left: Exp, r: DisjRest)
    ensures Static(sc, AbsDisjRest(left, r)).Some? ==> Static(sc, left).Some?
    ensures Fragment(sc, AbsDisjRest(left, r)) ==> Fragment(sc, left)
    ensures StartsWithCall(AbsDisjRest(left, r)) == StartsWithCall(left)
    decreases r
  {
    if r.DisjMore? {
      DisjFacts(sc, Either(left, AbsConj(r.c)), r.rest);
    }
  }

  // ----- small pieces of code -----

  lemma LoadComputes(sc: Scope, x: Ident, s: Cache)
    requires x in sc.vars && !s.Ax?
    ensures Computes(sc, [Load(Rax, sc.vars[x])], Ref(x), s, Ax)
  {
    hide Exec;
    var c := [Load(Rax, sc.vars[x])];
    forall env: Env, m: State, st: Store | Models(sc, st, m)
      ensures Pushes(Exec(env, c, m), Eval(Ref(x), st, env), s, Ax, m)
    {
      OpCode.Chain1(env, c[0], m, m.(rax := st[x]));
    }
  }

  // A constant operand, loaded into rax.
  function LoadConst(n: nat): Instr { if n == 0 then Zero(Rax) else MovImm(Rax, n) }

  lemma LoadConstRuns(env: Env, n: nat, m: State)
    ensures var o := Exec(env, [LoadConst(n)], m);
            o.Fall? && o.m.bp == m.bp && o.m.stack == m.stack && o.m.rax == Wrap(n)
  {
    hide Exec;
    OpCode.Chain1(env, LoadConst(n), m, m.(rax := Wrap(n), flags := if n == 0 then Unset else m.flags));
  }

  lemma ConstComputes(sc: Scope, e: Exp, s: Cache)
    requires Fragment(sc, e) && Static(sc, e).Some? && Static(sc, e).value.isConst && Static(sc, e).value.n >= 0
             && !s.Ax?
    ensures Computes(sc, [LoadConst(Static(sc, e).value.n)], e, s, Ax)
  {
    hide Exec, Fragment, Static, LoadConst, Eval;
    var n := Static(sc, e).value.n;
    forall env: Env, m: State, st: Store | Models(sc, st, m)
      ensures Pushes(Exec(env, [LoadConst(n)], m), Eval(e, st, env), s, Ax, m)
    {
      ConstEval(sc, e, st, env);
      LoadConstRuns(env, n, m);
    }
  }

  lemma FlushMoves()
    ensures Moves([Push(Rax)], Ax, Undef) && Moves([Push(Rax)], Ax, Sp) && Moves([Pop(Rax)], Sp, Ax)
  {
    hide Exec;
    forall env: Env, m: State
      ensures Exec(env, [Push(Rax)], m) == Fall(m.(stack := m.stack + [m.rax]))
      ensures |m.stack| > 0 ==>
                Exec(env, [Pop(Rax)], m) == Fall(OpCode.Popped(m, Rax)) && StackOf(Ax, OpCode.Popped(m, Rax)) == m.stack
    {
      OpCode.Chain1(env, Push(Rax), m, m.(stack := m.stack + [m.rax]));
      if |m.stack| > 0 {
        OpCode.Chain1(env, Pop(Rax), m, OpCode.Popped(m, Rax));
      }
    }
  }

  lemma NothingMoves(s: Cache, s': Cache)
    requires s.Ax? == s'.Ax?
    ensures Moves([], s, s')
  {
  }

  lemma NegateComputes(sc: Scope, c: seq<Instr>, e: Exp, s0: Cache)
    requires Computes(sc, c, e, s0, Ax)
    ensures Computes(sc, c + [Instr.Neg(Rax)], Negate(e), s0, Ax)
  {
    hide Exec;
    forall env: Env, m: State, st: Store | Models(sc, st, m)
      ensures Pushes(Exec(env, c + [Instr.Neg(Rax)], m), Eval(Negate(e), st, env), s0, Ax, m)
    {
      ExecConcat(env, c, [Instr.Neg(Rax)], m);
      var o := Exec(env, c, m);
      assert Pushes(o, Eval(e, st, env), s0, Ax, m);
      if o.Fall? {
        OneOnTop(StackOf(s0, m), Eval(e, st, env).value, o.m);
        OpCode.StepNeg(env, o.m);
        OpCode.Chain1(env, Instr.Neg(Rax), o.m, OpCode.Computed(o.m, Negated(o.m.rax)));
      }
    }
  }

  ghost predicate NoLabels(c: seq<Instr>) {
    forall i :: 0 <= i < |c| ==> !c[i].Label?
  }

  lemma NoLabelsLabelled(c: seq<Instr>, n: nat)
    requires NoLabels(c)
    ensures Labelled(c, n, n)
  {
  }

  lemma JumpCondLabelled(pre: seq<Instr>, cond: Cond, l: nat)
    requires NoLabels(pre) && l > 0
    ensures Labelled(pre + OpCode.JumpCond(cond, l), l - 1, l)
  {
    var j := OpCode.JumpCond(cond, l);
    assert j == [MovImm(Rax, 1), Jcc(cond, l), MovImm(Rax, 0), Label(l)];
    LabelledConcat(pre, l - 1, l - 1, j, l - 1, l);
  }

  // ----- the code of a binary operator, by which operand is constant -----

  function PopCode(s: Cache): seq<Instr> { if s.Sp? then [Pop(Rax)] else [] }

  lemma IntoRax(sc: Scope, c: seq<Instr>, e: Exp, s0: Cache, s1: Cache)
    requires Computes(sc, c, e, s0, s1) && !s1.Undef?
    ensures Computes(sc, c + PopCode(s1), e, s0, Ax)
  {
    hide Computes;
    FlushMoves();
    NothingMoves(Ax, Ax);
    hide Moves;
    ComputesThenMoves(sc, c, e, PopCode(s1), s0, s1, Ax);
  }

  lemma DynResult(sc: Scope, op: Op, l: Exp, r: Exp)
    requires Static(sc, Bin(op, l, r)).Some?
    ensures Static(sc, l).Some? && Static(sc, r).Some?
    ensures Static(sc, Bin(op, l, r)).value.isConst <==> Static(sc, l).value.isConst && Static(sc, r).value.isConst
  {
    FoldBool(op, Static(sc, l).value.n, Static(sc, r).value.n);
    hide Fold;
  }

  lemma ConstInRange(sc: Scope, e: Exp)
    requires Fragment(sc, e) && Static(sc, e).Some? && Static(sc, e).value.isConst
    ensures 0 <= Static(sc, e).value.n <= MAX_LIT
    ensures Static(sc, e).value.ty.BoolT? ==> Static(sc, e).value.n <= 1
  {
    hide Fragment, Static;
    ConstEval(sc, e, map[], Env((f, a) => None, (f, m, n) => 0));
  }

  // What the type rules and the fragment say of an operator's operands.
  lemma DynOrConst(sc: Scope, op: Op, l: Exp, r: Exp)
    requires Fragment(sc, Bin(op, l, r)) && Static(sc, l).Some? && Static(sc, r).Some?
    ensures !op.IsInverse() && Fragment(sc, l) && Fragment(sc, r)
    ensures Static(sc, Bin(op, l, r)) == OpValue(op, Static(sc, l).value, Static(sc, r).value)
    ensures op.AndNot? ==> Static(sc, l).value.isConst == Static(sc, r).value.isConst
  {
    hide OpValue, FoldOk;
  }

  // The operands of an operator: no code for constants, and the second one is on top.
  lemma OperandStates(sc: Scope, l: Exp, r: Exp, c1: seq<Instr>, c2: seq<Instr>, s0: Cache, s1: Cache, s2: Cache,
                      lo: nat, mid: nat, hi: nat)
    requires Generates(sc, c1, l, s0, s1, lo, mid) && Generates(sc, c2, r, s1, s2, mid, hi)
    ensures Static(sc, l).Some? && Static(sc, r).Some? && lo <= mid <= hi
    ensures Static(sc, l).value.isConst ==> c1 == [] && s1 == s0 && lo == mid
    ensures Static(sc, r).value.isConst ==> c2 == [] && s2 == s1 && mid == hi
    ensures !Static(sc, l).value.isConst ==> !s1.Undef?
    ensures !Static(sc, r).value.isConst ==> !s2.Undef?
  {
    hide Computes, Static, Labelled;
  }

  lemma FoldGenerates(sc: Scope, op: Op, l: Exp, r: Exp, s0: Cache, lo: nat)
    requires Static(sc, l).Some? && Static(sc, r).Some? && Static(sc, l).value.isConst && Static(sc, r).value.isConst
    requires Static(sc, Bin(op, l, r)) == Fold(op, Static(sc, l).value.n, Static(sc, r).value.n)
    ensures var v := Fold(op, Static(sc, l).value.n, Static(sc, r).value.n);
            v.Some? ==> v.value.isConst && Generates(sc, [] + [] + [], Bin(op, l, r), s0, s0, lo, lo)
  {
    hide Static, Fold, Computes;
    FoldBool(op, Static(sc, l).value.n, Static(sc, r).value.n);
  }

  lemma ConstRight(sc: Scope, op: Op, l: Exp, r: Exp, st: Store, env: Env)
    requires Fragment(sc, r) && Static(sc, r).Some? && Static(sc, r).value.isConst && Static(sc, r).value.n >= 0
    ensures Eval(Bin(op, l, r), st, env) == Lift(op, Eval(l, st, env), Some(Wrap(Static(sc, r).value.n)))
  {
    hide OpWord, Static, Fragment;
    ConstEval(sc, r, st, env);
  }

  lemma ConstLeft(sc: Scope, op: Op, l: Exp, r: Exp, st: Store, env: Env)
    requires Fragment(sc, l) && Static(sc, l).Some? && Static(sc, l).value.isConst && Static(sc, l).value.n >= 0
    requires !op.IsInverse() && !op.AndNot?
    ensures Eval(Bin(op, l, r), st, env) == Lift(Inverse(op), Eval(r, st, env), Some(Wrap(Static(sc, l).value.n)))
  {
    hide OpWord, Static, Fragment, Inverse;
    ConstEval(sc, l, st, env);
    var b := Eval(r, st, env);
    if b.Some? {
      InverseMeans(op, Static(sc, l).value.n, b.value);
    }
  }

  // Code pieces with consecutive label ranges, a piece without labels between them.
  lemma LabelledPieces(c1: seq<Instr>, lo: nat, mid: nat, p: seq<Instr>, c: seq<Instr>, hi: nat)
    requires Labelled(c1, lo, mid) && NoLabels(p) && Labelled(c, mid, hi) && lo <= mid <= hi
    ensures Labelled(c1 + (p + c), lo, hi)
  {
    NoLabelsLabelled(p, mid);
    hide Labelled;
    LabelledConcat(p, mid, mid, c, mid, hi);
    LabelledPair(c1, lo, mid, p + c, hi);
  }

  lemma LabelledPair(a: seq<Instr>, lo: nat, mid: nat, b: seq<Instr>, hi: nat)
    requires Labelled(a, lo, mid) && Labelled(b, mid, hi) && lo <= mid <= hi
    ensures Labelled(a + b, lo, hi)
  {
    LabelledConcat(a, lo, mid, b, mid, hi);
  }

  lemma TosConstGenerates(sc: Scope, op: Op, l: Exp, r: Exp, c1: seq<Instr>, c: seq<Instr>, s0: Cache, s1: Cache,
                          lo: nat, mid: nat, hi: nat)
    requires Fragment(sc, Bin(op, l, r)) && Static(sc, Bin(op, l, r)).Some?
    requires !Static(sc, l).value.isConst && Static(sc, r).value.isConst
    requires Fragment(sc, r) && Generates(sc, c1, l, s0, s1, lo, mid)
    requires Static(sc, r).value.n >= 0 && AppliesConst(c, op, Static(sc, r).value.n) && Labelled(c, mid, hi)
             && mid <= hi
    ensures Generates(sc, c1 + [] + (PopCode(s1) + c), Bin(op, l, r), s0, Ax, lo, hi)
  {
    DynResult(sc, op, l, r);
    var n := Static(sc, r).value.n;
    IntoRax(sc, c1, l, s0, s1);
    forall st: Store, env: Env
      ensures Eval(Bin(op, l, r), st, env) == Lift(op, Eval(l, st, env), Some(Wrap(n)))
    {
      ConstRight(sc, op, l, r, st, env);
    }
    hide Computes, Eval, Static, Fragment, Labelled, AppliesConst;
    ComposeConst(sc, c1 + PopCode(s1), c, op, l, n, Bin(op, l, r), s0);
    LabelledPieces(c1, lo, mid, PopCode(s1), c, hi);
    Assoc(c1, PopCode(s1), c);
    assert c1 + [] == c1;
  }

  lemma ConstTosGenerates(sc: Scope, op: Op, l: Exp, r: Exp, c2: seq<Instr>, c: seq<Instr>, s0: Cache, s2: Cache,
                          lo: nat, mid: nat, hi: nat)
    requires Fragment(sc, Bin(op, l, r)) && Static(sc, Bin(op, l, r)).Some?
    requires Static(sc, l).value.isConst && !Static(sc, r).value.isConst
    requires Generates(sc, c2, r, s0, s2, lo, mid)
    requires Static(sc, l).value.n >= 0 && AppliesConst(c, Inverse(op), Static(sc, l).value.n) && Labelled(c, mid, hi)
             && mid <= hi
    ensures Generates(sc, [] + c2 + (PopCode(s2) + c), Bin(op, l, r), s0, Ax, lo, hi)
  {
    DynResult(sc, op, l, r);
    DynOrConst(sc, op, l, r);
    var n := Static(sc, l).value.n;
    IntoRax(sc, c2, r, s0, s2);
    forall st: Store, env: Env
      ensures Eval(Bin(op, l, r), st, env) == Lift(Inverse(op), Eval(r, st, env), Some(Wrap(n)))
    {
      ConstLeft(sc, op, l, r, st, env);
    }
    hide Computes, Eval, Static, Fragment, Labelled, AppliesConst;
    ComposeConst(sc, c2 + PopCode(s2), c, Inverse(op), r, n, Bin(op, l, r), s0);
    LabelledPieces(c2, lo, mid, PopCode(s2), c, hi);
    Assoc(c2, PopCode(s2), c);
    assert [] + c2 == c2;
  }

  lemma NosTosGenerates(sc: Scope, op: Op, l: Exp, r: Exp, c1: seq<Instr>, c2: seq<Instr>, c: seq<Instr>,
                        s0: Cache, s1: Cache, s2: Cache, lo: nat, mid: nat, mid2: nat, hi: nat)
    requires Static(sc, Bin(op, l, r)).Some?
    requires !Static(sc, l).value.isConst && !Static(sc, r).value.isConst
    requires Generates(sc, c1, l, s0, s1, lo, mid) && Generates(sc, c2, r, s1, s2, mid, mid2)
    requires AppliesNosTos(c, op) && Labelled(c, mid2, hi) && mid2 <= hi
    ensures Generates(sc, c1 + c2 + (PopCode(s2) + c), Bin(op, l, r), s0, Ax, lo, hi)
  {
    DynResult(sc, op, l, r);
    hide Computes, Eval, Static, Fragment, Labelled, AppliesNosTos;
    var p := PopCode(s2);
    IntoRax(sc, c2, r, s1, s2);
    ComposeBinary(sc, c1, c2 + p, c, op, l, r, s0, s1);
    LabelledPieces(c2, mid, mid2, p, c, hi);
    LabelledPair(c1, lo, mid, c2 + (p + c), hi);
    Assoc(c1, c2 + p, c);
    Assoc(c2, p, c);
    Assoc(c1, c2, p + c);
  }

  // ----- the parser's loops: at an operator of the level there is one more operand, else the tree ends -----

  predicate AtProdOp(t: Tokens) { t.Tok? && t.head.Infix? && t.head.op.IsProd() }

  predicate AtSumOp(t: Tokens) { t.Tok? && t.head.Infix? && t.head.op.IsSum() }

  lemma ProdStep(sc: Scope, left: Exp, r: ProdRest, k: Tokens)
    requires OkProdRest(r) && AfterProd(k)
    ensures AfterUnary(TokProdRest(r, k))
    ensures !AtProdOp(TokProdRest(r, k)) ==> TokProdRest(r, k) == k && AbsProdRest(left, r) == left
    ensures AtProdOp(TokProdRest(r, k)) ==>
              var t := TokProdRest(r, k);
              && r.ProdMore? && t.head.op == r.op && OkUnary(r.u) && OkProdRest(r.rest)
              && t.tail == TokUnary(r.u, TokProdRest(r.rest, k))
              && AbsProdRest(left, r) == AbsProdRest(Bin(r.op, left, AbsUnary(r.u)), r.rest)
    ensures AtProdOp(TokProdRest(r, k)) && Static(sc, AbsProdRest(left, r)).Some? ==>
            Static(sc, Bin(r.op, left, AbsUnary(r.u))).Some? && Static(sc, AbsUnary(r.u)).Some?
    ensures AtProdOp(TokProdRest(r, k)) && Fragment(sc, AbsProdRest(left, r)) ==>
            Fragment(sc, Bin(r.op, left, AbsUnary(r.u))) && Fragment(sc, AbsUnary(r.u))
  {
    if r.ProdMore? {
      ProdFacts(sc, Bin(r.op, left, AbsUnary(r.u)), r.rest);
    }
  }

  lemma SumStep(sc: Scope, left: Exp, r: SumRest, k: Tokens)
    requires OkSumRest(r) && AfterSum(k)
    ensures AfterProd(TokSumRest(r, k))
    ensures !AtSumOp(TokSumRest(r, k)) ==> TokSumRest(r, k) == k && AbsSumRest(left, r) == left
    ensures AtSumOp(TokSumRest(r, k)) ==>
              var t := TokSumRest(r, k);
              && r.SumMore? && t.head.op == r.op && OkProd(r.p) && OkSumRest(r.rest)
              && t.tail == TokProd(r.p, TokSumRest(r.rest, k))
              && AbsSumRest(left, r) == AbsSumRest(Bin(r.op, left, AbsProd(r.p)), r.rest)
    ensures AtSumOp(TokSumRest(r, k)) && Static(sc, AbsSumRest(left, r)).Some? ==>
            Static(sc, Bin(r.op, left, AbsProd(r.p))).Some? && Static(sc, AbsProd(r.p)).Some?
    ensures AtSumOp(TokSumRest(r, k)) && Fragment(sc, AbsSumRest(left, r)) ==>
            Fragment(sc, Bin(r.op, left, AbsProd(r.p))) && Fragment(sc, AbsProd(r.p))
  {
    if r.SumMore? {
      SumFacts(sc, Bin(r.op, left, AbsProd(r.p)), r.rest);
    }
  }

  lemma ConjStep(sc: Scope, left: Exp, r: ConjRest, k: Tokens)
    requires OkConjRest(r) && AfterConj(k)
    ensures AfterComp(TokConjRest(r, k))
    ensures r.ConjEnd? ==> TokConjRest(r, k) == k && !(k.Tok? && k.head.LogAnd?) && AbsConjRest(left, r) == left
    ensures r.ConjMore? ==>
              var t := TokConjRest(r, k);
              && t.Tok? && t.head.LogAnd? && OkComp(r.c) && OkConjRest(r.rest)
              && t.tail == TokComp(r.c, TokConjRest(r.rest, k))
              && AbsConjRest(left, r) == AbsConjRest(Both(left, AbsComp(r.c)), r.rest)
    ensures r.ConjMore? && Static(sc, AbsConjRest(left, r)).Some? ==> Static(sc, Both(left, AbsComp(r.c))).Some?
    ensures r.ConjMore? && Fragment(sc, AbsConjRest(left, r)) ==> Fragment(sc, Both(left, AbsComp(r.c)))
  {
    if r.ConjMore? {
      ConjFacts(sc, Both(left, AbsComp(r.c)), r.rest);
    }
  }

  lemma DisjStep(sc: Scope, left: Exp, r: DisjRest, k: Tokens)
    requires OkDisjRest(r) && AfterExpr(k)
    ensures AfterConj(TokDisjRest(r, k))
    ensures r.DisjEnd? ==> TokDisjRest(r, k) == k && !(k.Tok? && k.head.LogOr?) && AbsDisjRest(left, r) == left
    ensures r.DisjMore? ==>
              var t := TokDisjRest(r, k);
              && t.Tok? && t.head.LogOr? && OkConj(r.c) && OkDisjRest(r.rest)
              && t.tail == TokConj(r.c, TokDisjRest(r.rest, k))
              && AbsDisjRest(left, r) == AbsDisjRest(Either(left, AbsConj(r.c)), r.rest)
    ensures r.DisjMore? && Static(sc, AbsDisjRest(left, r)).Some? ==> Static(sc, Either(left, AbsConj(r.c))).Some?
    ensures r.DisjMore? && Fragment(sc, AbsDisjRest(left, r)) ==> Fragment(sc, Either(left, AbsConj(r.c)))
  {
    if r.DisjMore? {
      DisjFacts(sc, Either(left, AbsConj(r.c)), r.rest);
    }
  }

  lemma {:induction false} DynValue(sc: Scope, e: Exp)
    requires Static(sc, e).Some? && !Static(sc, e).value.isConst
    ensures Static(sc, e).value in {DYN_INT, DYN_BOOL}
  {
    hide Fold;
    match e
    case Negate(e1) => DynValue(sc, e1);
    case Bin(op, l, r) => FoldBool(op, Static(sc, l).value.n, Static(sc, r).value.n);
    case _ =>
  }

  // The two operands of a well-formed && or ||, and their types.
  lemma JoinFacts(sc: Scope, e: Exp, l: Exp, r: Exp)
    requires e == Both(l, r) || e == Either(l, r)
    ensures Static(sc, e).Some? <==>
              && Static(sc, l).Some? && Static(sc, l).value.ty.BoolT?
              && Static(sc, r).Some? && Static(sc, r).value.ty.BoolT?
    ensures Static(sc, e).Some? ==> Static(sc, e) == Some(DYN_BOOL)
    ensures Fragment(sc, e) && Static(sc, e).Some? ==> Static(sc, l) == Static(sc, e)
    ensures Fragment(sc, e) ==> Fragment(sc, l) && Fragment(sc, r) && IsDyn(sc, l) && IsDyn(sc, r) && !StartsWithCall(r)
  {
    if Fragment(sc, e) && Static(sc, e).Some? {
      DynValue(sc, l);
    }
  }

  lemma ExtendHeight(b: Code, c: seq<Instr>)
    requires |b.frags| >= 1
    ensures Extend(b, c).out == b.out && |Extend(b, c).frags| == |b.frags|
  {
  }

  // A new fragment that received code c2 on top of the code since b.
  lemma FreshFragment(b: Code, c1: seq<Instr>, b': Code, c2: seq<Instr>)
    requires |b.frags| >= 1 && b' == Extend(Code(b.out, Extend(b, c1).frags + [[]]), c2)
    ensures b'.out == b.out && b'.frags == Extend(b, c1).frags + [c2]
  {
    assert [] + c2 == c2;
  }

  lemma LoadGenerates(sc: Scope, x: Ident, s: Cache, n: nat)
    requires x in sc.vars
    ensures Generates(sc, (if s.Ax? then [Push(Rax)] else []) + [Load(Rax, sc.vars[x])], Ref(x), s, Ax, n, n)
  {
    var l := [Load(Rax, sc.vars[x])];
    if s.Ax? {
      FlushMoves();
      LoadComputes(sc, x, Undef);
      MovesThenComputes(sc, [Push(Rax)], l, Ref(x), Ax, Undef, Ax);
    } else {
      LoadComputes(sc, x, s);
      assert [] + l == l;
    }
  }

  lemma NegateGenerates(sc: Scope, c: seq<Instr>, e: Exp, s0: Cache, s1: Cache, lo: nat, hi: nat)
    requires Generates(sc, c, e, s0, s1, lo, hi) && Static(sc, e) == Some(DYN_INT)
    ensures Generates(sc, c + (PopCode(s1) + [Instr.Neg(Rax)]), Negate(e), s0, Ax, lo, hi)
  {
    hide Computes, Eval;
    IntoRax(sc, c, e, s0, s1);
    NegateComputes(sc, c + PopCode(s1), e, s0);
    Assoc(c, PopCode(s1), [Instr.Neg(Rax)]);
    LabelledPieces(c, lo, hi, PopCode(s1), [Instr.Neg(Rax)], hi);
  }

  // ----- arguments -----

  // The loop over the arguments: what is left after a comma is one more argument, or nothing.
  lemma ArgStep(sc: Scope, r: ArgRest, k: Tokens)
    requires r.ArgMore? && OkArgRest(r) && AllFragment(sc, AbsArgRest(r))
    ensures OkExpr(r.e) && OkArgRest(r.rest) && AllFragment(sc, AbsArgRest(r.rest)) && Fragment(sc, AbsExpr(r.e))
    ensures AllTyped(sc, AbsArgRest(r)) <==> Static(sc, AbsExpr(r.e)).Some? && AllTyped(sc, AbsArgRest(r.rest))
    ensures AfterExpr(TokArgRest(r.rest, k))
    ensures TokArgRest(r, k) == Tok(Comma, TokExpr(r.e, TokArgRest(r.rest, k)))
  {
    hide AbsExpr, OkExpr, TokExpr, Fragment, Static;
    var es := AbsArgRest(r);
    assert es[0] == AbsExpr(r.e) && es[1..] == AbsArgRest(r.rest);
  }

  lemma ArgSnoc(done: seq<Exp>, r: ArgRest)
    requires r.ArgMore?
    ensures done + AbsArgRest(r) == done + [AbsExpr(r.e)] + AbsArgRest(r.rest)
  {
    hide AbsExpr;
    assert AbsArgRest(r) == [AbsExpr(r.e)] + AbsArgRest(r.rest);
  }

  // A constant argument is loaded and pushed; any other one is pushed from rax.
  lemma ConstArg(sc: Scope, e: Exp)
    requires Fragment(sc, e) && Static(sc, e).Some? && Static(sc, e).value.isConst && Static(sc, e).value.n >= 0
    ensures Computes(sc, [LoadConst(Static(sc, e).value.n)] + [Push(Rax)], e, Undef, Sp)
  {
    ConstComputes(sc, e, Undef);
    FlushMoves();
    hide Computes, Moves, Fragment, Static, LoadConst;
    ComputesThenMoves(sc, [LoadConst(Static(sc, e).value.n)], e, [Push(Rax)], Undef, Ax, Sp);
  }

  lemma DynArg(sc: Scope, c: seq<Instr>, e: Exp, s1: Cache)
    requires Computes(sc, c, e, Undef, s1) && !s1.Undef?
    ensures Computes(sc, c + (if s1.Ax? then [Push(Rax)] else []), e, Undef, Sp)
  {
    FlushMoves();
    NothingMoves(Sp, Sp);
    hide Computes, Moves;
    ComputesThenMoves(sc, c, e, if s1.Ax? then [Push(Rax)] else [], Undef, s1, Sp);
  }

  lemma ArgListStarts(sc: Scope, u: Unary, k: Tokens, lbl: nat)
    requires u.UCall? && OkUnary(u)
    ensures var r := ArgMore(u.arg, u.more);
            && AbsUnary(u).args == AbsArgRest(r) == [] + AbsArgRest(r) && OkArgRest(r)
            && TokArgRest(r, k) == Tok(Comma, TokExpr(u.arg, TokArgRest(u.more, k)))
    ensures Calls.PushArgs(sc, [], []) && Labelled(Calls.Backwards([]), lbl, lbl) && TypesOf(sc, []) == ValueTypes([])
  {
    hide AbsExpr, OkExpr, TokExpr;
  }

  // The types of the arguments so far, and of the values so far.
  lemma {:induction false} TypesSnoc(sc: Scope, es: seq<Exp>, vs: seq<Value>, e: Exp, v: Value)
    requires Static(sc, e) == Some(v) && TypesOf(sc, es) == ValueTypes(vs)
    ensures TypesOf(sc, es + [e]) == ValueTypes(vs + [v])
  {
    hide Static;
    OneType(sc, es, e, v);
    assert (vs + [v])[..|vs|] == vs;
  }

  lemma {:induction false} TypeAt(vs: seq<Value>, i: nat)
    requires i < |vs|
    ensures ValueTypes(vs)[i] == vs[i].ty
  {
    if i < |vs| - 1 {
      TypeAt(vs[..|vs| - 1], i);
    }
  }

  lemma {:induction false} OneType(sc: Scope, es: seq<Exp>, e: Exp, v: Value)
    requires Static(sc, e) == Some(v)
    ensures TypesOf(sc, es + [e]) == TypesOf(sc, es) + [v.ty]
    decreases |es|
  {
    hide Static;
    if es == [] {
      assert [] + [e] == [e] && [e][1..] == [];
    } else {
      assert (es + [e])[1..] == es[1..] + [e];
      OneType(sc, es[1..], e, v);
    }
  }

  // At the right parenthesis, and only there, no argument is left.
  lemma ArgsLeft(sc: Scope, r: ArgRest, k: Tokens)
    ensures var t := TokArgRest(r, k);
            && t.Tok? && (t.head.Comma? || t.head.Rpar?)
            && (t.head.Rpar? <==> r.ArgEnd?) && (r.ArgEnd? ==> t == Tok(Rpar, k))
            && (t.head.Comma? ==> ((t.tail.Tok? && t.tail.head.Rpar?) <==> r.ArgComma?))
            && (r.ArgComma? ==> t == Tok(Comma, Tok(Rpar, k)))
    ensures !r.ArgMore? ==> AbsArgRest(r) == [] && AllTyped(sc, AbsArgRest(r))
  {
    if r.ArgMore? {
      ExprHead(r.e, TokArgRest(r.rest, k));
    }
  }

  // Code that went into an empty last fragment.
  lemma OpenFragment(b: Code, frags: seq<seq<Instr>>, c: seq<Instr>)
    requires b.frags == frags + [[]]
    ensures Extend(b, c) == Code(b.out, frags + [c])
  {
    assert [] + c == c;
    assert b.frags[..|b.frags| - 1] == frags;
  }

  lemma ConstArgLabelled(n: nat, lbl: nat)
    ensures Labelled([LoadConst(n)] + [Push(Rax)], lbl, lbl)
  {
  }

  lemma DynArgLabelled(c: seq<Instr>, p: seq<Instr>, lo: nat, hi: nat)
    requires Labelled(c, lo, hi) && (p == [] || p == [Push(Rax)])
    ensures Labelled(c + p, lo, hi)
  {
    LabelledConcat(c, lo, hi, p, hi, hi);
  }

  // ----- calls -----

  lemma CallFacts(sc: Scope, u: Unary, k: Tokens, t: Tokens)
    requires u.UCall? && OkUnary(u) && Tok(Id(u.f), Tok(Lpar, t)) == TokUnary(u, k) && Fragment(sc, AbsUnary(u))
    ensures t == TokExpr(u.arg, TokArgRest(u.more, k))
    ensures AbsUnary(u) == Apply(u.f, AbsUnary(u).args) && |AbsUnary(u).args| >= 1 && AllFragment(sc, AbsUnary(u).args)
    ensures StartsWithCall(AbsUnary(u))
    ensures Static(sc, AbsUnary(u)) ==
            var es := AbsUnary(u).args;
            if u.f in sc.fns && AllTyped(sc, es) && Accepts(sc.fns[u.f], TypesOf(sc, es)) then Some(DYN_INT) else None
  {
    hide TokExpr, TokArgRest, AbsExpr, AbsArgRest, AllTyped, AllFragment, TypesOf, Accepts;
  }

  lemma ArityKnown(sc: Scope, f: Ident, es: seq<Exp>)
    requires Static(sc, Apply(f, es)).Some?
    ensures f in sc.fns && |sc.fns[f]| == |es|
  {
    hide TypesOf, AllTyped;
  }

  lemma CallFragments(base: seq<seq<Instr>>, cs: seq<seq<Instr>>, p: seq<Instr>)
    ensures var frags := base + cs + [p];
            var start := |frags| - (|cs| + 1);
            frags[..start] == base && Calls.Backwards(frags[start..]) == p + Calls.Backwards(cs)
  {
    var frags := base + cs + [p];
    var tail := frags[|base|..];
    assert tail == cs + [p];
    assert (cs + [p])[..|cs|] == cs;
  }

  lemma CallCode(b: Code, c0: seq<Instr>, f: Ident, n: nat, d: seq<Instr>)
    requires n >= 1 && d == [AddRsp(n)]
    ensures Extend(Extend(b, c0 + [MovImm(Rbx, n * 8), Call(f, n)]), d) == Extend(b, c0 + Calls.CallTail(f, n))
  {
    ExtendTwice(b, c0 + [MovImm(Rbx, n * 8), Call(f, n)], d);
    hide Extend;
    assert c0 + [MovImm(Rbx, n * 8), Call(f, n)] + d == c0 + Calls.CallTail(f, n);
  }

  lemma CallGenerates(sc: Scope, p: seq<Instr>, cs: seq<seq<Instr>>, f: Ident, es: seq<Exp>, s0: Cache, lo: nat,
                      hi: nat)
    requires p == if s0.Ax? then [Push(Rax)] else []
    requires Calls.PushArgs(sc, cs, es) && Labelled(Calls.Backwards(cs), lo, hi) && lo <= hi
    requires Static(sc, Apply(f, es)) == Some(DYN_INT)
    ensures Generates(sc, (p + [SubRsp(1)] + Calls.Backwards(cs)) + Calls.CallTail(f, |es|), Apply(f, es), s0, Sp, lo,
            hi)
  {
    FlushMoves();
    hide Computes, Moves, Calls.PushArgs, Static;
    Calls.CallComputes(sc, p, cs, f, es, s0);
    var c, a := Calls.Backwards(cs), p + [SubRsp(1)];
    LabelledConcat(a, lo, lo, c, lo, hi);
    LabelledConcat(a + c, lo, hi, Calls.CallTail(f, |es|), hi, hi);
  }

  lemma OneFragment(c: seq<Instr>)
    ensures Forwards([c]) == c
  {
    assert [c][..0] == [];
    assert [] + c == c;
  }

  lemma FirstFragment(out: seq<Instr>, c: seq<Instr>)
    ensures Extend(Code(out, [[]]), c) == Code(out, [c])
  {
    assert [] + c == c;
  }

  lemma OpenFragments(out: seq<Instr>, c: seq<Instr>, c2: seq<Instr>)
    ensures Extend(Code(out, [c]), c2) == Code(out, [c + c2])
  {
    assert [c][..0] == [];
  }

  lemma ExtendFile(out: seq<Instr>, c: seq<Instr>)
    ensures Extend(Code(out, []), c) == Code(out + c, [])
  {
  }

  // ----- the return statement -----

  // The returned value is in rax: computed there, or loaded when it is constant.
  lemma ReturnValue(sc: Scope, e: Exp, c: seq<Instr>, q: seq<Instr>, s0: Cache, s1: Cache, lo: nat, hi: nat)
    requires Fragment(sc, e) && !e.Apply? && !s0.Ax? && Generates(sc, c, e, s0, s1, lo, hi)
    requires Static(sc, e).Some? && (Static(sc, e).value.isConst ==> Static(sc, e).value.n >= 0)
    requires q == if Static(sc, e).value.isConst then [LoadConst(Static(sc, e).value.n)] else []
    ensures lo <= hi && Computes(sc, c + q, e, s0, Ax) && Labelled(c + q, lo, hi)
  {
    hide Computes, Static, Fragment;
    if Static(sc, e).value.isConst {
      assert c + q == q;
      ConstComputes(sc, e, s0);
    } else {
      assert c + q == c;
    }
  }

  lemma ReturnState(sc: Scope, e: Exp, c: seq<Instr>, s0: Cache, s1: Cache, lo: nat, hi: nat)
    requires Generates(sc, c, e, s0, s1, lo, hi) && Static(sc, e).Some?
    ensures s1 == if Static(sc, e).value.isConst then s0 else if e.Apply? then Sp else Ax
    ensures lo <= hi && (Static(sc, e).value.isConst ==> !e.Apply?)
  {
    hide Computes, Labelled;
    assert e.Apply? ==> Static(sc, e) == Some(DYN_INT);
  }
}
