/** Argument fragments, their reverse order, and the layout of a call. */
module Calls {
  import opened Words
  import opened Machine
  import opened Source
  import opened Codegen
  import OpCode

  /** The fragments joined last to first. */
  function Backwards(cs: seq<seq<Instr>>): seq<Instr> {
    if cs == [] then [] else cs[|cs| - 1] + Backwards(cs[..|cs| - 1])
  }

  function Reversed(ws: seq<Word>): (r: seq<Word>)
    ensures |r| == |ws|
  {
    if ws == [] then [] else [ws[|ws| - 1]] + Reversed(ws[..|ws| - 1])
  }

  lemma {:induction false} EvalAllSnoc(es: seq<Exp>, e: Exp, st: Store, env: Env)
    ensures EvalAll(es + [e], st, env) ==
            match (EvalAll(es, st, env), Eval(e, st, env))
            case (Some(vs), Some(v)) => Some(vs + [v])
            case _ => None
  {
    var v := Eval(e, st, env);
    if es == [] {
      assert [] + [e] == [e];
      assert [e][1..] == [];
      assert v.Some? ==> [v.value] + [] == [] + [v.value];
    } else {
      assert (es + [e])[1..] == es[1..] + [e];
      EvalAllSnoc(es[1..], e, st, env);
      var v0, vs := Eval(es[0], st, env), EvalAll(es[1..], st, env);
      assert v.Some? && v0.Some? && vs.Some? ==>
          [v0.value] + (vs.value + [v.value]) == ([v0.value] + vs.value) + [v.value];
    }
  }

  lemma ReversedSnoc(ws: seq<Word>, w: Word)
    ensures Reversed(ws + [w]) == [w] + Reversed(ws)
  {
    assert (ws + [w])[..|ws|] == ws;
  }

  lemma EvalNone(st: Store, env: Env)
    ensures EvalAll([], st, env) == Some([])
  {
  }

  /** Each fragment pushes the value of its argument. */
  ghost predicate PushArgs(sc: Scope, cs: seq<seq<Instr>>, es: seq<Exp>) {
    |cs| == |es| && forall i :: 0 <= i < |es| ==> Computes(sc, cs[i], es[i], Undef, Sp)
  }

  lemma BackwardsStep(cs: seq<seq<Instr>>)
    ensures Backwards(cs) == if cs == [] then [] else cs[|cs| - 1] + Backwards(cs[..|cs| - 1])
  {
  }

  lemma NoWords()
    ensures Reversed([]) == []
  {
  }

  lemma NoCode(env: Env, m: State)
    ensures Exec(env, [], m) == Fall(m)
  {
  }

  // Run last to first, the fragments leave argument 1 on top and argument N deepest.
  lemma {:induction false} ArgsRun(sc: Scope, cs: seq<seq<Instr>>, es: seq<Exp>, env: Env, m: State, st: Store)
    requires PushArgs(sc, cs, es) && Models(sc, st, m)
    ensures var o := Exec(env, Backwards(cs), m);
            match EvalAll(es, st, env)
            case None => o.Trap?
            case Some(vs) => o.Fall? && o.m.bp == m.bp && o.m.stack == m.stack + Reversed(vs)
    decreases |cs|
  {
    hide Step, Eval, Computes, Models, EvalAll, Reversed, Exec, Backwards;
    BackwardsStep(cs);
    if cs == [] {
      assert EvalAll([], st, env) == Some([]) by { EvalNone(st, env); }
      assert m.stack + [] == m.stack && Reversed([]) == [] by { NoWords(); }
      assert Exec(env, [], m) == Fall(m) by { NoCode(env, m); }
    } else {
      var n := |cs| - 1;
      assert es == es[..n] + [es[n]];
      EvalAllSnoc(es[..n], es[n], st, env);
      ExecConcat(env, cs[n], Backwards(cs[..n]), m);
      LastArg(sc, cs[n], es[n], env, m, st);
      var v := Eval(es[n], st, env);
      if v.Some? {
        var m1 := Exec(env, cs[n], m).m;
        ArgsRun(sc, cs[..n], es[..n], env, m1, st);
        var rest := EvalAll(es[..n], st, env);
        if rest.Some? {
          var vs := rest.value + [v.value];
          ReversedSnoc(rest.value, v.value);
          assert m.stack + [v.value] + Reversed(rest.value) == m.stack + ([v.value] + Reversed(rest.value));
        }
      }
    }
  }

  lemma LastArg(sc: Scope, c: seq<Instr>, e: Exp, env: Env, m: State, st: Store)
    requires Computes(sc, c, e, Undef, Sp) && Models(sc, st, m)
    ensures Pushes(Exec(env, c, m), Eval(e, st, env), Undef, Sp, m)
    ensures Eval(e, st, env).Some? ==> Models(sc, st, Exec(env, c, m).m)
  {
    hide Exec, Eval;
    assert Pushes(Exec(env, c, m), Eval(e, st, env), Undef, Sp, m);
    if Eval(e, st, env).Some? {
      PushesKeeps(Exec(env, c, m), Eval(e, st, env).value, Undef, Sp, m);
      ModelsKept(sc, st, m, Exec(env, c, m).m);
    }
  }

  // One more argument.
  lemma PushArgsSnoc(sc: Scope, cs: seq<seq<Instr>>, es: seq<Exp>, c: seq<Instr>, e: Exp, lo: nat, mid: nat, hi: nat)
    requires PushArgs(sc, cs, es) && Computes(sc, c, e, Undef, Sp)
    requires Labelled(Backwards(cs), lo, mid) && Labelled(c, mid, hi) && lo <= mid <= hi
    ensures PushArgs(sc, cs + [c], es + [e])
    ensures Labelled(Backwards(cs + [c]), lo, hi)
  {
    hide Computes;
    assert (cs + [c])[..|cs|] == cs;
    assert Backwards(cs + [c]) == c + Backwards(cs);
    LabelledConcat(c, mid, hi, Backwards(cs), lo, mid);
  }

  function CallTail(f: Ident, n: nat): seq<Instr> {
    [MovImm(Rbx, n * 8), Call(f, n), AddRsp(n)]
  }

  lemma {:induction false} ReversedAt(ws: seq<Word>, i: nat)
    requires i < |ws|
    ensures Reversed(ws)[i] == ws[|ws| - 1 - i]
  {
    if i > 0 {
      ReversedAt(ws[..|ws| - 1], i - 1);
    }
  }

  lemma {:induction false} CalleeArgAt(m: State, n: nat, i: nat)
    requires i < n <= |m.stack|
    ensures CalleeArgs(m, n)[i] == m.stack[|m.stack| - 1 - i]
  {
    if i < n - 1 {
      CalleeArgAt(m, n - 1, i);
    } else {
      ParSlot(m, n);
    }
  }

  lemma ParSlot(m: State, i: nat)
    ensures CalleeSlot(m, ParOffset(i)) == |m.stack| - i
  {
  }

  lemma RetSlot(m: State, n: nat, k: nat)
    requires |m.stack| == k + 1 + n
    ensures CalleeSlot(m, RetOffset(n, 0)) == k
  {
  }

  // The frame of a call: k words, the return slot, then the arguments with the first one on top.
  ghost predicate CallFrame(m: State, k: nat, vs: seq<Word>) {
    |m.stack| == k + 1 + |vs| && m.stack[k + 1..] == Reversed(vs)
  }

  // The callee finds argument i at its offset 8 + 8 * i.
  lemma ArgumentAt(m: State, k: nat, vs: seq<Word>, i: nat)
    requires CallFrame(m, k, vs) && i < |vs|
    ensures CalleeArgs(m, |vs|)[i] == vs[i]
  {
    hide CalleeArgs, Reversed;
    var j := |vs| - 1 - i;
    CalleeArgAt(m, |vs|, i);
    ReversedAt(vs, j);
    assert Reversed(vs)[j] == m.stack[k + 1 + j];
  }

  // It finds all of them, and the return slot just above.
  lemma CalleeView(m: State, k: nat, vs: seq<Word>)
    requires CallFrame(m, k, vs)
    ensures CalleeArgs(m, |vs|) == vs
    ensures CalleeSlot(m, RetOffset(|vs|, 0)) == k
  {
    RetSlot(m, |vs|, k);
    hide CallFrame;
    forall i | 0 <= i < |vs|
      ensures CalleeArgs(m, |vs|)[i] == vs[i]
    {
      ArgumentAt(m, k, vs, i);
    }
  }

  lemma CallStepResult(env: Env, f: Ident, k: nat, vs: seq<Word>, m: State)
    requires CallFrame(m, k, vs)
    ensures var r := CallStep(env, f, |vs|, m);
            match env.fn(f, vs)
            case None => r.Fault?
            case Some(w) =>
              && r.Next? && r.m.bp == m.bp && |r.m.stack| == k + 1 + |vs| && r.m.stack[..k + 1] == m.stack[..k] + [w]
              && r.m.rax == env.junk(f, m, 0)
  {
    CalleeView(m, k, vs);
    hide CalleeArgs, CalleeSlot;
  }

  // After the call and the removal of the arguments the result is on top.
  lemma CallTailRuns(env: Env, f: Ident, k: nat, vs: seq<Word>, m: State)
    requires CallFrame(m, k, vs)
    ensures var o := Exec(env, CallTail(f, |vs|), m);
            match env.fn(f, vs)
            case None => o.Trap?
            case Some(w) =>
              o.Fall? && o.m.bp == m.bp && o.m.stack == m.stack[..k] + [w]
                && o.m.rax == env.junk(f, m.(rbx := Wrap(|vs| * 8)), 0)
  {
    var n := |vs|;
    var m1 := m.(rbx := Wrap(n * 8));
    CallStepResult(env, f, k, vs, m1);
    hide CallStep;
    var r := CallStep(env, f, n, m1);
    assert Step(env, MovImm(Rbx, n * 8), m) == Next(m1);
    assert Step(env, Call(f, n), m1) == r;
    if r.Fault? {
      FaultTraps(env, f, n, m, m1);
    } else {
      var m3 := r.m.(stack := m.stack[..k] + [env.fn(f, vs).value], flags := Unset);
      assert Step(env, AddRsp(n), r.m) == Next(m3);
      hide Step, Exec;
      OpCode.Chain3(env, MovImm(Rbx, n * 8), Call(f, n), AddRsp(n), m, m1, r.m, m3);
    }
  }

  // A callee that traps.
  lemma FaultTraps(env: Env, f: Ident, n: nat, m: State, m1: State)
    requires Step(env, MovImm(Rbx, n * 8), m) == Next(m1) && Step(env, Call(f, n), m1).Fault?
    ensures Exec(env, CallTail(f, n), m).Trap?
  {
    hide Step;
    assert CallTail(f, n)[1..] == [Call(f, n), AddRsp(n)];
    assert Exec(env, [Call(f, n), AddRsp(n)], m1).Trap?;
  }

  /** Code c leaves in rax a word that does not depend on what the function returns. */
  ghost predicate Clobbers(sc: Scope, c: seq<Instr>, f: Ident, es: seq<Exp>) {
    forall env: Env, m: State, st: Store :: Models(sc, st, m) ==> IsJunk(Exec(env, c, m), env, f, EvalAll(es, st, env))
  }

  ghost predicate IsJunk(o: Outcome, env: Env, f: Ident, vs: Option<seq<Word>>) {
    vs.Some? && env.fn(f, vs.value).Some? ==> o.Fall? && exists s: State :: o.m.rax == env.junk(f, s, 0)
  }

  /**
   The whole call: rax is saved and a return slot reserved first, then the arguments from the
   last to the first; the value of the call ends up on the machine stack, and not in rax.
   */
  lemma CallComputes(sc: Scope, p: seq<Instr>, cs: seq<seq<Instr>>, f: Ident, es: seq<Exp>, s0: Cache)
    requires (Moves(p, s0, Undef) && !s0.Sp?) || (p == [] && !s0.Ax?)
    requires PushArgs(sc, cs, es)
    ensures Computes(sc, (p + [SubRsp(1)] + Backwards(cs)) + CallTail(f, |es|), Apply(f, es), s0, Sp)
    ensures Clobbers(sc, (p + [SubRsp(1)] + Backwards(cs)) + CallTail(f, |es|), f, es)
  {
    hide Step, PushArgs, CallTail, Models, Exec, Moves;
    forall env: Env, m: State, st: Store | Models(sc, st, m)
      ensures Pushes(Exec(env, (p + [SubRsp(1)] + Backwards(cs)) + CallTail(f, |es|), m), Eval(Apply(f, es), st, env),
              s0, Sp, m)
      ensures IsJunk(Exec(env, (p + [SubRsp(1)] + Backwards(cs)) + CallTail(f, |es|), m), env, f, EvalAll(es, st, env))
    {
      CallRuns(sc, p, cs, f, es, s0, env, m, st);
    }
  }

  lemma CallRuns(sc: Scope, p: seq<Instr>, cs: seq<seq<Instr>>, f: Ident, es: seq<Exp>, s0: Cache, env: Env, m: State,
                 st: Store)
    requires (Moves(p, s0, Undef) && !s0.Sp?) || (p == [] && !s0.Ax?)
    requires PushArgs(sc, cs, es) && Models(sc, st, m)
    ensures Pushes(Exec(env, (p + [SubRsp(1)] + Backwards(cs)) + CallTail(f, |es|), m), Eval(Apply(f, es), st, env), s0,
            Sp, m)
    ensures IsJunk(Exec(env, (p + [SubRsp(1)] + Backwards(cs)) + CallTail(f, |es|), m), env, f, EvalAll(es, st, env))
  {
    hide Step, PushArgs, CallTail, Models, Exec, Moves;
    Prologue(sc, env, p, m, s0, st);
    var a := p + [SubRsp(1)];
    var m1 := Exec(env, a, m).m;
    ExecConcat(env, a + Backwards(cs), CallTail(f, |es|), m);
    ExecConcat(env, a, Backwards(cs), m);
    ArgsRun(sc, cs, es, env, m1, st);
    var vs := EvalAll(es, st, env);
    if vs.Some? {
      var base := StackOf(s0, m);
      var m2 := Exec(env, Backwards(cs), m1).m;
      assert m2.stack[|base| + 1..] == Reversed(vs.value) && m2.stack[..|base|] == base;
      CallTailRuns(env, f, |base|, vs.value, m2);
    }
  }

  lemma Prologue(sc: Scope, env: Env, p: seq<Instr>, m: State, s0: Cache, st: Store)
    requires (Moves(p, s0, Undef) && !s0.Sp?) || (p == [] && !s0.Ax?)
    requires Models(sc, st, m)
    ensures var o := Exec(env, p + [SubRsp(1)], m);
            o.Fall? && o.m.bp == m.bp && |o.m.stack| == |StackOf(s0, m)| + 1
            && o.m.stack == StackOf(s0, m) + [o.m.stack[|StackOf(s0, m)|]] && Models(sc, st, o.m)
  {
    var o1 := Exec(env, p, m);
    assert o1.Fall? && o1.m.bp == m.bp && o1.m.stack == StackOf(s0, m);
    var m1 := o1.m;
    var m2 := m1.(stack := m1.stack + Junk(env, "", m1, 0, 1), flags := Unset);
    assert Step(env, SubRsp(1), m1) == Next(m2);
    hide Step, Exec;
    ExecConcat(env, p, [SubRsp(1)], m);
    OpCode.Chain1(env, SubRsp(1), m1, m2);
    ModelsKept(sc, st, m, m2);
  }
}
