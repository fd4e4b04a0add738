/** The code of && and || chains. */
module ShortCircuit {
  import opened Words
  import opened Machine
  import opened Source
  import opened Codegen
  import OpCode

  /**
   Code c either runs through with the value of e in rax, or jumps to label l; it jumps only
   with the deciding truth value w in rax, and then e has that value.
   */
  ghost predicate Decides(sc: Scope, c: seq<Instr>, e: Exp, s0: Cache, l: nat, w: Word) {
    forall env: Env, m: State, st: Store :: Models(sc, st, m) ==>
      DecidesTo(Exec(env, c, m), Eval(e, st, env), s0, m, l, w)
  }

  ghost predicate DecidesTo(o: Outcome, v: Option<Word>, s0: Cache, m: State, l: nat, w: Word) {
    Pushes(o, v, s0, Ax, m) ||
    (v == Some(w) && o.Escape? && o.lbl == l && o.m.bp == m.bp && StackOf(Ax, o.m) == StackOf(s0, m) + [w])
  }

  // Test of al and jump; both chains test the value on top of the stack.
  function TestJump(and: bool, l: nat): seq<Instr> {
    [OrAl] + [Jcc(if and then E else Cond.Ne, l)]
  }

  // The connective's deciding value: 0 for &&, 1 for ||.
  function Decider(and: bool): Word { if and then 0 else 1 }

  function Join(and: bool, l: Exp, r: Exp): Exp { if and then Both(l, r) else Either(l, r) }

  lemma TestJumpRuns(env: Env, and: bool, l: nat, m: State)
    requires m.rax in {0, 1}
    ensures var o := Exec(env, TestJump(and, l), m);
            if m.rax == Decider(and)
            then o.Escape? && o.lbl == l && o.m.bp == m.bp && o.m.stack == m.stack && o.m.rax == m.rax
            else o.Fall? && o.m.bp == m.bp && o.m.stack == m.stack
  {
    var m1 := m.(flags := AlFlags(m.rax));
    var j := Jcc(if and then E else Cond.Ne, l);
    OpCode.First(env, OrAl, [j], m, m1);
    var r := if m.rax == Decider(and) then Goto(l, m1) else Next(m1);
    OpCode.Last(env, j, m1, r);
  }

  // One more operand, from the outcome of the operands before it.
  lemma JoinRuns(env: Env, c: seq<Instr>, and: bool, l: nat, c2: seq<Instr>, a: Option<Word>, b: Option<Word>, m: State,
                 s0: Cache)
    requires DecidesTo(Exec(env, c, m), a, s0, m, l, Decider(and))
    requires a.Some? ==> a.value in {0, 1}
    requires forall i :: 0 <= i < |c2| ==> c2[i] != Label(l)
    requires a.Some? && a.value != Decider(and) ==>
               forall m1: State :: m1.bp == m.bp && m1.stack == StackOf(s0, m) ==>
                 Pushes(Exec(env, c2, m1), b, Undef, Ax, m1)
    ensures DecidesTo(Exec(env, c + (TestJump(and, l) + c2), m),
                      if a == Some(Decider(and)) then a else if a.None? then None else b, s0, m, l, Decider(and))
  {
    hide Exec, TestJump;
    var t := TestJump(and, l) + c2;
    ExecConcat(env, c, t, m);
    var o := Exec(env, c, m);
    if o.Escape? {
      assert forall i :: 0 <= i < |t| ==> t[i] != Label(l) by { TestJumpInstrs(and, l); }
      NotFound(t, l);
    } else if a.Some? {
      OneOnTop(StackOf(s0, m), a.value, o.m);
      ExecConcat(env, TestJump(and, l), c2, o.m);
      TestJumpRuns(env, and, l, o.m);
      NotFound(c2, l);
    }
  }

  lemma TestJumpInstrs(and: bool, l: nat)
    ensures |TestJump(and, l)| == 2 && !TestJump(and, l)[0].Label? && !TestJump(and, l)[1].Label?
  {
  }

  lemma NotFound(c: seq<Instr>, l: nat)
    requires forall i :: 0 <= i < |c| ==> c[i] != Label(l)
    ensures FindLabel(c, l) == |c|
  {
  }

  lemma Start(sc: Scope, c: seq<Instr>, e: Exp, s0: Cache, l: nat, w: Word)
    requires Computes(sc, c, e, s0, Ax)
    ensures Decides(sc, c, e, s0, l, w)
  {
    hide Exec, Eval, Models;
  }

  // The code of one more operand extends the chain.
  lemma Extend(sc: Scope, c: seq<Instr>, and: bool, l: nat, c2: seq<Instr>, e: Exp, e2: Exp, s0: Cache)
    requires Decides(sc, c, e, s0, l, Decider(and)) && Computes(sc, c2, e2, Undef, Ax)
    requires Fragment(sc, e) && Static(sc, e).Some? && Static(sc, e).value.ty.BoolT? && !Static(sc, e).value.isConst
    requires forall i :: 0 <= i < |c2| ==> c2[i] != Label(l)
    ensures Decides(sc, c + (TestJump(and, l) + c2), Join(and, e, e2), s0, l, Decider(and))
  {
    hide Exec, TestJump, Fragment, Static, Eval;
    forall env: Env, m: State, st: Store | Models(sc, st, m)
      ensures DecidesTo(Exec(env, c + (TestJump(and, l) + c2), m), Eval(Join(and, e, e2), st, env), s0, m, l,
              Decider(and))
    {
      var a, b := Eval(e, st, env), Eval(e2, st, env);
      TruthValue(sc, e, st, env);
      JoinEval(and, e, e2, st, env);
      forall m1: State | m1.bp == m.bp && m1.stack == StackOf(s0, m)
        ensures Pushes(Exec(env, c2, m1), b, Undef, Ax, m1)
      {
        ModelsKept(sc, st, m, m1);
      }
      JoinRuns(env, c, and, l, c2, a, b, m, s0);
    }
  }

  lemma JoinEval(and: bool, e: Exp, e2: Exp, st: Store, env: Env)
    requires Eval(e, st, env).Some? ==> Eval(e, st, env).value in {0, 1}
    ensures Eval(Join(and, e, e2), st, env) ==
            if Eval(e, st, env) == Some(Decider(and)) then Eval(e, st, env)
            else if Eval(e, st, env).None? then None else Eval(e2, st, env)
  {
  }

  // The end label makes both ways out meet.
  lemma Finish(sc: Scope, c: seq<Instr>, e: Exp, s0: Cache, l: nat, w: Word)
    requires Decides(sc, c, e, s0, l, w)
    ensures Computes(sc, c + [Label(l)], e, s0, Ax)
  {
    hide Exec, Eval;
    forall env: Env, m: State, st: Store | Models(sc, st, m)
      ensures Pushes(Exec(env, c + [Label(l)], m), Eval(e, st, env), s0, Ax, m)
    {
      ExecConcat(env, c, [Label(l)], m);
      var o := Exec(env, c, m);
      assert DecidesTo(o, Eval(e, st, env), s0, m, l, w);
      if o.Fall? || o.Escape? {
        assert FindLabel([Label(l)], l) == 0 && [Label(l)][0..] == [Label(l)];
        OpCode.Chain1(env, Label(l), o.m, o.m);
      }
    }
  }

  // ----- chains under construction -----

  ghost predicate DynBool(sc: Scope, e: Exp) {
    Static(sc, e).Some? && Static(sc, e).value.ty.BoolT? && !Static(sc, e).value.isConst
  }

  /** Code c for the chain e so far, whose jumps go to label l, not yet placed. */
  ghost predicate Chain(sc: Scope, and: bool, c: seq<Instr>, e: Exp, s0: Cache, l: nat, lo: nat, hi: nat) {
    && Fragment(sc, e) && DynBool(sc, e) && !e.Apply?
    && Decides(sc, c, e, s0, l, Decider(and))
    && Labelled(c, lo, hi) && lo < l <= hi && (forall i :: 0 <= i < |c| ==> c[i] != Label(l))
  }

  lemma Begin(sc: Scope, and: bool, c: seq<Instr>, e: Exp, s0: Cache, s1: Cache, lo: nat, hi: nat)
    requires Fragment(sc, e) && DynBool(sc, e) && Generates(sc, c, e, s0, s1, lo, hi)
    ensures s1 == Ax && Chain(sc, and, c, e, s0, hi + 1, lo, hi + 1)
  {
    hide Computes, Decides, Fragment;
    Start(sc, c, e, s0, hi + 1, Decider(and));
  }

  lemma More(sc: Scope, and: bool, c: seq<Instr>, c2: seq<Instr>, e: Exp, e2: Exp, s0: Cache, s2: Cache, l: nat,
             lo: nat, mid: nat, hi: nat)
    requires Chain(sc, and, c, e, s0, l, lo, mid)
    requires Fragment(sc, Join(and, e, e2)) && DynBool(sc, e2) && Generates(sc, c2, e2, Undef, s2, mid, hi)
    ensures s2 == Ax && Chain(sc, and, c + (TestJump(and, l) + c2), Join(and, e, e2), s0, l, lo, hi)
  {
    JoinIsBool(sc, and, e, e2);
    assert !e2.Apply?;
    hide Computes, Decides, Fragment, Static;
    Codes(c, and, l, c2, lo, mid, hi);
    hide TestJump, Labelled;
    Extend(sc, c, and, l, c2, e, e2, s0);
  }

  lemma JoinIsBool(sc: Scope, and: bool, e: Exp, e2: Exp)
    requires DynBool(sc, e) && DynBool(sc, e2)
    ensures Static(sc, Join(and, e, e2)) == Some(DYN_BOOL) && !Join(and, e, e2).Apply? && !e2.Apply?
  {
  }

  lemma Codes(c: seq<Instr>, and: bool, l: nat, c2: seq<Instr>, lo: nat, mid: nat, hi: nat)
    requires Labelled(c, lo, mid) && Labelled(c2, mid, hi) && lo < l <= mid <= hi
             && (forall i :: 0 <= i < |c| ==> c[i] != Label(l))
    ensures forall i :: 0 <= i < |c2| ==> c2[i] != Label(l)
    ensures Labelled(c + (TestJump(and, l) + c2), lo, hi)
    ensures forall i :: 0 <= i < |c + (TestJump(and, l) + c2)| ==> (c + (TestJump(and, l) + c2))[i] != Label(l)
  {
    TestJumpInstrs(and, l);
    LabelledConcat(TestJump(and, l), mid, mid, c2, mid, hi);
    LabelledConcat(c, lo, mid, TestJump(and, l) + c2, mid, hi);
  }

  lemma End(sc: Scope, and: bool, c: seq<Instr>, e: Exp, s0: Cache, l: nat, lo: nat, hi: nat)
    requires Chain(sc, and, c, e, s0, l, lo, hi)
    ensures Generates(sc, c + [Label(l)], e, s0, Ax, lo, hi)
  {
    Finish(sc, c, e, s0, l, Decider(and));
    hide Computes, Decides, Fragment, Static;
    var c' := c + [Label(l)];
    assert forall i :: 0 <= i < |c| ==> c'[i] == c[i];
  }
}
