/**
 The one-pass code generator: the parse functions and the emit functions, working on
 a shared stack of code fragments and a one-register stack cache.
 */
module Compiler {
  import opened Words
  import opened Machine
  import opened Source
  import opened Codegen
  import opened Pieces
  import opened Statements
  import OpCode
  import ShortCircuit
  import Calls
  import Flow

  /** A variable created by an assignment has no type until the value of the assignment is known. */
  datatype VarDef = VarDef(offset: int, blockLevel: nat, typed: bool)

  function Offsets(vars: map<Ident, VarDef>): map<Ident, int> {
    map x | x in vars && vars[x].typed :: vars[x].offset
  }

  /** Every variable has a type, and none belongs to an inner block. */
  ghost predicate Scoped(vars: map<Ident, VarDef>, level: nat) {
    forall x :: x in vars ==> vars[x].typed && vars[x].blockLevel <= level
  }

  /** The variables of the enclosing blocks are as before; each new one belongs to this block and took one word. */
  ghost predicate NewVars(vars: map<Ident, VarDef>, d: int, vars': map<Ident, VarDef>, d': int, level: nat) {
    && (forall x :: x in vars ==> x in vars' && vars'[x] == vars[x])
    && (forall x :: x in vars' && x !in vars ==> vars'[x].blockLevel == level)
    && d' - d == |vars'| - |vars| && d' >= d
  }

  lemma ScopedMore(vars: map<Ident, VarDef>, level: nat)
    requires Scoped(vars, level)
    ensures Scoped(vars, level + 1)
  {
  }

  lemma NewVarsNone(vars: map<Ident, VarDef>, d: int, level: nat)
    ensures NewVars(vars, d, vars, d, level)
  {
  }

  lemma NewVarsMore(v0: map<Ident, VarDef>, d0: int, v1: map<Ident, VarDef>, d1: int, v2: map<Ident, VarDef>, d2: int,
                    level: nat)
    requires NewVars(v0, d0, v1, d1, level) && NewVars(v1, d1, v2, d2, level)
    ensures NewVars(v0, d0, v2, d2, level)
  {
  }

  // Without a change of LocalSp there is no new variable.
  lemma NewVarsSame(vars: map<Ident, VarDef>, d: int, vars': map<Ident, VarDef>, d': int, level: nat)
    requires NewVars(vars, d, vars', d', level) && d' == d
    ensures vars' == vars
  {
    if x :| x in vars' && x !in vars {
      assert vars.Keys < vars'.Keys;
      SmallerSet(vars.Keys, vars'.Keys);
    }
  }

  lemma SmallerSet(a: set<Ident>, b: set<Ident>)
    requires a < b
    ensures |a| < |b|
  {
    var x :| x in b && x !in a;
    assert a <= b - {x};
    SubsetSize(a, b - {x});
  }

  lemma {:induction false} SubsetSize(a: set<Ident>, b: set<Ident>)
    requires a <= b
    ensures |a| <= |b|
  {
    if a != {} {
      var x :| x in a;
      SubsetSize(a - {x}, b - {x});
    }
  }

  // A block has the variables around it, and its own.
  lemma OuterVars(vars: map<Ident, VarDef>, vars': map<Ident, VarDef>, fns: map<Ident, seq<Type>>, d: int, d': int,
                  level: nat, n: nat)
    requires NewVars(vars, d, vars', d', level + 1) && Scoped(vars, level)
    ensures d' - d == |vars'| - |vars|
    ensures forall x :: x in vars <==> x in vars' && vars'[x].blockLevel < level + 1
    ensures forall x :: x in vars ==> vars'[x] == vars[x]
    ensures Flow.Extends(Frame(Scope(Offsets(vars), fns), d, n), Frame(Scope(Offsets(vars'), fns), d', n))
  {
  }

  lemma SameVars(vars: map<Ident, VarDef>, vars': map<Ident, VarDef>)
    requires forall x :: x in vars <==> x in vars'
    requires forall x :: x in vars ==> vars'[x] == vars[x]
    ensures vars' == vars
  {
  }

  // The parameters are outside of every block.
  lemma ParScoped(vars: map<Ident, VarDef>)
    requires forall x :: x in vars ==> vars[x].typed && vars[x].blockLevel == 0
    ensures Scoped(vars, 1)
  {
  }

  lemma BodyVars(vars: map<Ident, VarDef>, vars': map<Ident, VarDef>, fns: map<Ident, seq<Type>>, d': int, n: nat)
    requires NewVars(vars, 0, vars', d', 1) && forall x :: x in vars ==> vars[x].blockLevel == 0
    ensures d' == |vars'| - |vars|
    ensures forall x :: x in vars <==> x in vars' && vars'[x].blockLevel < 1
    ensures forall x :: x in vars ==> vars'[x] == vars[x]
    ensures Flow.Extends(Frame(Scope(Offsets(vars), fns), 0, n), Frame(Scope(Offsets(vars'), fns), d', n))
  {
  }

  // A variable without a type is not in scope yet.
  lemma OffsetsKept(x: Ident, vars: map<Ident, VarDef>, vars': map<Ident, VarDef>, level: nat)
    requires vars' == vars || (x !in vars && x in vars' && !vars'[x].typed && vars' == vars[x := vars'[x]])
    requires Scoped(vars, level)
    ensures Offsets(vars') == Offsets(vars)
    ensures x in Offsets(vars) <==> x in vars
    ensures x in vars ==> Offsets(vars)[x] == vars[x].offset && vars[x].typed
  {
  }

  // Where an lvalue that has just been parsed lives.
  lemma LvalueSlot(x: Ident, vars: map<Ident, VarDef>, vars': map<Ident, VarDef>, fr: Frame, level: nat)
    requires vars' == vars || (x !in vars && vars' == vars[x := VarDef(NextOffset(fr.d), level, false)])
    requires x in vars' && Scoped(vars, level) && fr.sc.vars == Offsets(vars)
    ensures Offsets(vars') == Offsets(vars) && (x in fr.sc.vars <==> x in vars)
    ensures vars'[x].offset == SlotOf(fr, x) && (x in vars ==> vars'[x].typed)
  {
    OffsetsKept(x, vars, vars', level);
    hide Offsets, Scoped;
  }

  // LocalSp after an assignment of v: the top of the stack is popped, but not by the two-operand forms.
  function Popped(asg: AssignOp, v: Value, s: Cache, sp: int): int {
    if v.isConst || asg.MulBy? || asg.DivBy? then sp else Depth(s, sp) - 1
  }

  // The words that an assignment of e leaves on the stack: the two-operand forms do not pop the result of a call.
  function LeftOver(asg: AssignOp, e: Exp): int { if e.Apply? && (asg.MulBy? || asg.DivBy?) then 1 else 0 }

  class Generator {
    var toks: Tokens
    var argCode: seq<seq<Instr>>
    var out: seq<Instr>
    var state: Cache
    var localSp: int
    var labelNo: nat
    var vars: map<Ident, VarDef>
    var fns: map<Ident, seq<Type>>
    var blockLevel: nat
    var parCount: nat
    ghost var start: nat   // the length of the file at the beginning of the function

    ghost function Buf(): Code
      reads this`out, this`argCode
    {
      Code(out, argCode)
    }

    /** When the calls written since the beginning of the function are calls of known functions, they still are. */
    twostate predicate KeepsCalls()
      reads this`out, this`argCode, this`fns, this`start
    {
      KnownCalls(old(fns), old(start), old(Buf())) ==> KnownCalls(fns, start, Buf())
    }

    ghost function Sc(): Scope
      reads this`vars, this`fns
    {
      Scope(Offsets(vars), fns)
    }

    // ----- code.go -----

    method NewLabel() returns (l: nat)
      modifies this`labelNo
      ensures l == labelNo == old(labelNo) + 1
    {
      labelNo := labelNo + 1;
      l := labelNo;
    }

    method NewArgCode()
      modifies this`argCode
      ensures KeepsCalls()
      ensures argCode == old(argCode) + [[]]
    {
      argCode := argCode + [[]];
    }

    // The loop that joins the fragments from the last one down to start.
    method JoinBackwards(start: nat) returns (txt: seq<Instr>)
      requires start <= |argCode|
      ensures txt == Calls.Backwards(argCode[start..])
    {
      hide Calls.Backwards;
      txt := [];
      var i := |argCode|;
      ghost var part := argCode[start..];
      NoFragment();
      assert part[..|part|] == part && part[..0] == [];
      assert txt + Calls.Backwards(part) == Calls.Backwards(part);
      while i > start
        invariant start <= i <= |argCode|
        invariant Calls.Backwards(part) == txt + Calls.Backwards(part[..i - start])
      {
        i := i - 1;
        LastFragment(part, i - start);
        Assoc(txt, argCode[i], Calls.Backwards(part[..i - start]));
        txt := txt + argCode[i];
      }
      assert txt + [] == txt;
    }

    // The loop that joins them in order.
    method JoinForwards(start: nat) returns (txt: seq<Instr>)
      requires start <= |argCode|
      ensures txt == Forwards(argCode[start..])
    {
      hide Forwards;
      txt := [];
      var i := start;
      ghost var part := argCode[start..];
      NoFragment();
      assert part[..|part|] == part && part[..0] == [];
      while i < |argCode|
        invariant start <= i <= |argCode|
        invariant txt == Forwards(part[..i - start])
      {
        LastFragment(part, i - start);
        txt := txt + argCode[i];
        i := i + 1;
      }
    }

    /** Joins the last `count` fragments, or all that there are, into one, in order or from the last to the first. */
    method ConsArgCode(count: nat, reverse: bool)
      modifies this`argCode
      ensures KeepsCalls()
      ensures count == 0 || old(argCode) == [] ==> argCode == old(argCode)
      ensures count > 0 && old(argCode) != [] ==>
                var from := if count <= |old(argCode)| then |old(argCode)| - count else 0;
                argCode == old(argCode)[..from] +
                           [if reverse then Calls.Backwards(old(argCode)[from..]) else Forwards(old(argCode)[from..])]
    {
      if count == 0 {
        return;
      }
      hide Forwards, Calls.Backwards;
      var from := if count <= |argCode| then |argCode| - count else 0;
      var txt;
      if reverse {
        txt := JoinBackwards(from);
      } else {
        txt := JoinForwards(from);
      }
      ghost var cs := argCode;
      if |argCode| > from {
        argCode := argCode[from := txt];
        argCode := argCode[..from + 1];
      }
      if KnownCalls(fns, start, Code(out, cs)) {
        JoinKnown(fns, cs[from..]);
      }
    }

    method OutputArgCode()
      requires |argCode| <= 1
      modifies this`argCode, this`out
      ensures KeepsCalls()
      ensures argCode == []
      ensures out == old(out) + (if |old(argCode)| == 0 then [] else old(argCode)[0])
    {
      if |argCode| == 0 {
        assert out + [] == out;
        return;
      }
      if KnownCalls(fns, start, Buf()) {
        OutputKnown(fns, start, Buf());
      }
      out := out + argCode[0];
      argCode := [];
    }

    method Write(i: Instr)
      modifies this`argCode, this`out
      ensures Buf() == Extend(old(Buf()), [i])
      ensures (i.Call? ==> i.f in fns && |fns[i.f]| == i.arity) ==> KeepsCalls()
    {
      hide KnownCalls;
      if (i.Call? ==> i.f in fns && |fns[i.f]| == i.arity) && KnownCalls(fns, start, Buf()) {
        WriteKnown(fns, start, Buf(), i);
      }
      if |argCode| == 0 {
        out := out + [i];
        return;
      }
      var n := |argCode|;
      argCode := argCode[n - 1 := argCode[n - 1] + [i]];
      assert argCode == old(argCode)[..n - 1] + [old(argCode)[n - 1] + [i]];
    }

    // ----- emit_nasm.go -----

    /** Adds instruction i to the code c that has been written since b. */
    method Emit(i: Instr, ghost b: Code, ghost c: seq<Instr>)
      requires Buf() == Extend(b, c)
      modifies this`argCode, this`out, this`localSp
      ensures Buf() == Extend(b, c + [i])
      ensures localSp == old(localSp) + SpChange(i)
      ensures (i.Call? ==> i.f in fns && |fns[i.f]| == i.arity) ==> KeepsCalls()
    {
      hide KnownCalls, Extend;
      if i.Push? {
        localSp := localSp + 1;
      } else if i.Pop? {
        localSp := localSp - 1;
      } else if i.AddRsp? {
        localSp := localSp - i.words;
      } else if i.SubRsp? {
        localSp := localSp + i.words;
      }
      Write(i);
      ExtendTwice(b, c, [i]);
    }

    method EmitFlushRax() returns (ghost p: seq<Instr>)
      modifies this`argCode, this`out, this`localSp, this`state
      ensures KeepsCalls()
      ensures Buf() == Extend(old(Buf()), p)
      ensures p == if old(state).Ax? then [Push(Rax)] else []
      ensures state == if old(state).Ax? then Undef else old(state)
      ensures Depth(state, localSp) == Depth(old(state), old(localSp))
    {
      hide KnownCalls;
      p := [];
      ExtendNothing(Buf());
      if state.Ax? {
        Emit(Push(Rax), Buf(), []);
        p := [Push(Rax)];
        assert [] + [Push(Rax)] == p;
        state := Undef;
      }
    }

    method EmitAssertTosInRax() returns (ghost p: seq<Instr>)
      modifies this`argCode, this`out, this`localSp, this`state
      ensures KeepsCalls()
      ensures Buf() == Extend(old(Buf()), p)
      ensures p == if old(state).Sp? then [Pop(Rax)] else []
      ensures state == if old(state).Sp? then Ax else old(state)
      ensures Depth(state, localSp) == Depth(old(state), old(localSp))
    {
      hide KnownCalls;
      p := [];
      ExtendNothing(Buf());
      if state.Sp? {
        state := Ax;
        Emit(Pop(Rax), Buf(), []);
        p := [Pop(Rax)];
        assert [] + [Pop(Rax)] == p;
      }
    }

    /** Pushes a local variable; rax, when it is the top of the stack, is saved first. */
    method EmitLoad(off: int) returns (ghost c: seq<Instr>)
      modifies this`argCode, this`out, this`localSp, this`state
      ensures KeepsCalls()
      ensures Buf() == Extend(old(Buf()), c)
      ensures c == (if old(state).Ax? then [Push(Rax)] else []) + [Load(Rax, off)]
      ensures state == Ax && localSp == Depth(old(state), old(localSp))
    {
      hide KnownCalls;
      c := EmitFlushRax();
      Emit(Load(Rax, off), old(Buf()), c);
      c := c + [Load(Rax, off)];
      state := Ax;
    }

    method EmitPushConst(n: nat) returns (ghost c: seq<Instr>)
      modifies this`argCode, this`out, this`localSp, this`state
      ensures KeepsCalls()
      ensures Buf() == Extend(old(Buf()), c)
      ensures c == (if old(state).Ax? then [Push(Rax)] else []) + [LoadConst(n)]
      ensures state == Ax && localSp == Depth(old(state), old(localSp))
    {
      hide KnownCalls;
      c := EmitFlushRax();
      state := Ax;
      if n == 0 {
        Emit(Zero(Rax), old(Buf()), c);
      } else {
        Emit(MovImm(Rax, n), old(Buf()), c);
      }
      c := c + [LoadConst(n)];
    }

    method EmitPushTos() returns (ghost p: seq<Instr>)
      requires !state.Undef?
      modifies this`argCode, this`out, this`localSp, this`state
      ensures KeepsCalls()
      ensures Buf() == Extend(old(Buf()), p)
      ensures p == if old(state).Ax? then [Push(Rax)] else []
      ensures state == Sp && localSp == Depth(old(state), old(localSp))
    {
      hide KnownCalls;
      p := [];
      ExtendNothing(Buf());
      if state.Ax? {
        Emit(Push(Rax), Buf(), []);
        p := [Push(Rax)];
        assert [] + [Push(Rax)] == p;
        state := Sp;
      }
    }

    /** Adds or removes stack words. */
    method EmitAddToSp(count: int) returns (ghost c: seq<Instr>)
      modifies this`argCode, this`out, this`localSp
      ensures KeepsCalls()
      ensures Buf() == Extend(old(Buf()), c)
      ensures c == if count > 0 then [SubRsp(count)] else if count < 0 then [AddRsp(-count)] else []
      ensures localSp == old(localSp) + count
    {
      hide KnownCalls;
      c := [];
      ExtendNothing(Buf());
      if count > 0 {
        Emit(SubRsp(count), Buf(), []);
        c := [SubRsp(count)];
        assert [] + c == c;
      } else if count < 0 {
        Emit(AddRsp(-count), Buf(), []);
        c := [AddRsp(-count)];
        assert [] + c == c;
      }
    }

    method EmitNegate() returns (ghost c: seq<Instr>)
      modifies this`argCode, this`out, this`localSp, this`state
      ensures KeepsCalls()
      ensures Buf() == Extend(old(Buf()), c)
      ensures c == (if old(state).Sp? then [Pop(Rax)] else []) + [Instr.Neg(Rax)]
      ensures state == if old(state).Sp? then Ax else old(state)
      ensures Depth(state, localSp) == Depth(old(state), old(localSp))
    {
      hide KnownCalls;
      c := EmitAssertTosInRax();
      Emit(Instr.Neg(Rax), old(Buf()), c);
      c := c + [Instr.Neg(Rax)];
    }

    /** Sets rax to 1 or 0 by the flags of the comparison c0 before it. */
    method EmitJumpCond(op: Op, ghost b: Code, ghost c0: seq<Instr>)
      requires Buf() == Extend(b, c0) && op.IsCompare()
      modifies this`argCode, this`out, this`localSp, this`state, this`labelNo
      ensures KeepsCalls()
      ensures labelNo == old(labelNo) + 1
      ensures Buf() == Extend(b, c0 + OpCode.JumpCond(OpCode.CondOf(op), labelNo))
      ensures state == Ax && localSp == old(localSp)
    {
      hide KnownCalls;
      var lbl := NewLabel();
      Emit(MovImm(Rax, 1), b, c0);
      ghost var c := c0 + [MovImm(Rax, 1)];
      if op.Eq? {
        Emit(Jcc(E, lbl), b, c);
      } else if op.Ne? {
        Emit(Jcc(Cond.Ne, lbl), b, c);
      } else if op.Gt? {
        Emit(Jcc(G, lbl), b, c);
      } else if op.Le? {
        Emit(Jcc(Cond.Le, lbl), b, c);
      } else if op.Ge? {
        Emit(Jcc(Cond.Ge, lbl), b, c);
      } else {
        Emit(Jcc(L, lbl), b, c);
      }
      c := c + [Jcc(OpCode.CondOf(op), lbl)];
      Emit(MovImm(Rax, 0), b, c);
      c := c + [MovImm(Rax, 0)];
      Emit(Label(lbl), b, c);
      c := c + [Label(lbl)];
      assert c == c0 + OpCode.JumpCond(OpCode.CondOf(op), lbl);
      state := Ax;
    }

    method EmitCompareIntegers(op: Op) returns (ghost c: seq<Instr>)
      requires op.IsCompare() && state.Ax?
      modifies this`argCode, this`out, this`localSp, this`state, this`labelNo
      ensures KeepsCalls()
      ensures Buf() == Extend(old(Buf()), c)
      ensures AppliesNosTos(c, op) && Labelled(c, old(labelNo), labelNo) && old(labelNo) <= labelNo
      ensures state == Ax && localSp == old(localSp) - 1
    {
      hide KnownCalls;
      ghost var b := Buf();
      ExtendNothing(b);
      Emit(Pop(Rbx), b, []);
      Emit(Cmp(Rbx, Rax), b, [] + [Pop(Rbx)]);
      ghost var c0 := [Pop(Rbx), Cmp(Rbx, Rax)];
      assert [] + [Pop(Rbx)] + [Cmp(Rbx, Rax)] == c0;
      EmitJumpCond(op, b, c0);
      c := c0 + OpCode.JumpCond(OpCode.CondOf(op), labelNo);
      OpCode.CompareCode(op, labelNo);
      JumpCondLabelled(c0, OpCode.CondOf(op), labelNo);
    }

    method EmitCompareIntConst(op: Op, n: nat) returns (ghost c: seq<Instr>)
      requires op.IsCompare() && n <= MAX_LIT
      modifies this`argCode, this`out, this`localSp, this`state, this`labelNo
      ensures KeepsCalls()
      ensures Buf() == Extend(old(Buf()), c)
      ensures AppliesConst(c, op, n) && Labelled(c, old(labelNo), labelNo) && old(labelNo) <= labelNo
      ensures state == Ax && localSp == old(localSp)
    {
      hide KnownCalls;
      ghost var b := Buf();
      ExtendNothing(b);
      Emit(CmpImm(Rax, n), b, []);
      ghost var c0 := [CmpImm(Rax, n)];
      assert [] + [CmpImm(Rax, n)] == c0;
      EmitJumpCond(op, b, c0);
      c := c0 + OpCode.JumpCond(OpCode.CondOf(op), labelNo);
      OpCode.CompareConstCode(op, n, labelNo);
      JumpCondLabelled(c0, OpCode.CondOf(op), labelNo);
    }

    // The count of a shift goes into cl.
    method EmitShift(op: Op) returns (ghost c: seq<Instr>)
      requires op.Shl? || op.Shr?
      modifies this`argCode, this`out, this`localSp
      ensures KeepsCalls()
      ensures Buf() == Extend(old(Buf()), c)
      ensures AppliesNosTos(c, op) && NoLabels(c)
      ensures localSp == old(localSp) - 1
    {
      hide KnownCalls, Extend, Exec, OpWord, AppliesNosTos;
      ghost var b := Buf();
      ExtendNothing(b);
      Emit(MovReg(Rcx, Rax), b, []);
      Emit(Pop(Rax), b, [] + [MovReg(Rcx, Rax)]);
      Emit(ShiftCl(op.Shr?, Rax), b, [] + [MovReg(Rcx, Rax)] + [Pop(Rax)]);
      c := [MovReg(Rcx, Rax), Pop(Rax), ShiftCl(op.Shr?, Rax)];
      assert [] + [MovReg(Rcx, Rax)] + [Pop(Rax)] + [ShiftCl(op.Shr?, Rax)] == c;
      OpCode.ShiftCode(op.Shr?);
    }

    // Division and remainder: the operands change places first.
    method EmitDivision(op: Op) returns (ghost c: seq<Instr>)
      requires op.Div? || op.Mod?
      modifies this`argCode, this`out, this`localSp
      ensures KeepsCalls()
      ensures Buf() == Extend(old(Buf()), c)
      ensures AppliesNosTos(c, op) && NoLabels(c)
      ensures localSp == old(localSp) - 1
    {
      hide KnownCalls, Extend, Exec, OpWord, AppliesNosTos;
      ghost var b := Buf();
      ExtendNothing(b);
      Emit(Pop(Rcx), b, []);
      Emit(Xchg(Rax, Rcx), b, [] + [Pop(Rcx)]);
      Emit(Cqo, b, [] + [Pop(Rcx)] + [Xchg(Rax, Rcx)]);
      Emit(Idiv(Rcx), b, [] + [Pop(Rcx)] + [Xchg(Rax, Rcx)] + [Cqo]);
      c := [] + [Pop(Rcx)] + [Xchg(Rax, Rcx)] + [Cqo] + [Idiv(Rcx)];
      if op.Mod? {
        Emit(MovReg(Rax, Rdx), b, c);
        c := c + [MovReg(Rax, Rdx)];
      }
      OpCode.DivCode(op.Mod?);
      assert c == [Pop(Rcx), Xchg(Rax, Rcx), Cqo] + OpCode.IdivTail(Rcx, op.Mod?);
    }

    /** The operator on the next stack entry and rax; the entry is popped. */
    method EmitIntegerOp(op: Op) returns (ghost c: seq<Instr>)
      requires state.Ax? && !op.IsCompare() && !op.IsInverse()
      modifies this`argCode, this`out, this`localSp
      ensures KeepsCalls()
      ensures Buf() == Extend(old(Buf()), c)
      ensures AppliesNosTos(c, op) && NoLabels(c)
      ensures localSp == old(localSp) - 1
    {
      hide KnownCalls, Extend, Exec, OpWord, AppliesNosTos;
      ghost var b := Buf();
      ExtendNothing(b);
      if op.Div? || op.Mod? {
        c := EmitDivision(op);
      } else if op.Minus? {
        Emit(Pop(Rcx), b, []);
        Emit(Alu(Sub, Rax, Rcx), b, [] + [Pop(Rcx)]);
        Emit(Instr.Neg(Rax), b, [] + [Pop(Rcx)] + [Alu(Sub, Rax, Rcx)]);
        c := [Pop(Rcx), Alu(Sub, Rax, Rcx), Instr.Neg(Rax)];
        assert [] + [Pop(Rcx)] + [Alu(Sub, Rax, Rcx)] + [Instr.Neg(Rax)] == c;
        OpCode.MinusCode();
      } else if op.AndNot? {
        Emit(Pop(Rcx), b, []);
        Emit(Instr.Not(Rax), b, [] + [Pop(Rcx)]);
        Emit(Alu(And, Rax, Rcx), b, [] + [Pop(Rcx)] + [Instr.Not(Rax)]);
        c := [Pop(Rcx), Instr.Not(Rax), Alu(And, Rax, Rcx)];
        assert [] + [Pop(Rcx)] + [Instr.Not(Rax)] + [Alu(And, Rax, Rcx)] == c;
        OpCode.AndNotCode();
      } else if op.Mult? {
        Emit(Pop(Rcx), b, []);
        Emit(Mul(Rcx), b, [] + [Pop(Rcx)]);
        c := [Pop(Rcx), Mul(Rcx)];
        assert [] + [Pop(Rcx)] + [Mul(Rcx)] == c;
        OpCode.MultCode();
      } else if op.Shl? || op.Shr? {
        c := EmitShift(op);
      } else {
        Emit(Pop(Rcx), b, []);
        Emit(Alu(OpCode.AluFor(op), Rax, Rcx), b, [] + [Pop(Rcx)]);
        c := [Pop(Rcx), Alu(OpCode.AluFor(op), Rax, Rcx)];
        assert [] + [Pop(Rcx)] + [Alu(OpCode.AluFor(op), Rax, Rcx)] == c;
        OpCode.AluCode(op);
      }
    }

    /** The operator on rax and a constant. */
    method EmitOpIntConst(op: Op, n: nat) returns (ghost c: seq<Instr>)
      requires state.Ax? && !op.IsCompare() && n <= MAX_LIT
      modifies this`argCode, this`out, this`localSp
      ensures KeepsCalls()
      ensures Buf() == Extend(old(Buf()), c)
      ensures !op.AndNot? ==> AppliesConst(c, op, n)
      ensures op.AndNot? ==> forall env: Env, m: State :: Exec(env, c, m) == Stuck
      ensures NoLabels(c)
      ensures localSp == old(localSp)
    {
      hide KnownCalls, Extend, Exec, OpWord, AppliesConst;
      ghost var b := Buf();
      ExtendNothing(b);
      if op.Div? {
        Emit(Cqo, b, []);
        Emit(MovImm(Rbx, n), b, [] + [Cqo]);
        Emit(Idiv(Rbx), b, [] + [Cqo] + [MovImm(Rbx, n)]);
        c := [] + [Cqo] + [MovImm(Rbx, n)] + [Idiv(Rbx)];
        OpCode.DivConstCode(false, n);
        assert c == [Cqo, MovImm(Rbx, n)] + OpCode.IdivTail(Rbx, false);
      } else if op.InvDiv? {
        Emit(MovImm(Rbx, n), b, []);
        Emit(Xchg(Rax, Rbx), b, [] + [MovImm(Rbx, n)]);
        Emit(Cqo, b, [] + [MovImm(Rbx, n)] + [Xchg(Rax, Rbx)]);
        Emit(Idiv(Rbx), b, [] + [MovImm(Rbx, n)] + [Xchg(Rax, Rbx)] + [Cqo]);
        c := [] + [MovImm(Rbx, n)] + [Xchg(Rax, Rbx)] + [Cqo] + [Idiv(Rbx)];
        OpCode.DivInverseCode(false, n);
        assert c == [MovImm(Rbx, n), Xchg(Rax, Rbx), Cqo] + OpCode.IdivTail(Rbx, false);
      } else if op.Mod? {
        Emit(MovImm(Rbx, n), b, []);
        Emit(Cqo, b, [] + [MovImm(Rbx, n)]);
        Emit(Idiv(Rbx), b, [] + [MovImm(Rbx, n)] + [Cqo]);
        Emit(MovReg(Rax, Rdx), b, [] + [MovImm(Rbx, n)] + [Cqo] + [Idiv(Rbx)]);
        c := [] + [MovImm(Rbx, n)] + [Cqo] + [Idiv(Rbx)] + [MovReg(Rax, Rdx)];
        OpCode.DivConstCode(true, n);
        assert c == [MovImm(Rbx, n), Cqo] + OpCode.IdivTail(Rbx, true);
      } else if op.InvMod? {
        Emit(MovImm(Rbx, n), b, []);
        Emit(Xchg(Rax, Rbx), b, [] + [MovImm(Rbx, n)]);
        Emit(Cqo, b, [] + [MovImm(Rbx, n)] + [Xchg(Rax, Rbx)]);
        Emit(Idiv(Rbx), b, [] + [MovImm(Rbx, n)] + [Xchg(Rax, Rbx)] + [Cqo]);
        c := [] + [MovImm(Rbx, n)] + [Xchg(Rax, Rbx)] + [Cqo] + [Idiv(Rbx)];
        Emit(MovReg(Rax, Rdx), b, c);
        c := c + [MovReg(Rax, Rdx)];
        OpCode.DivInverseCode(true, n);
        assert c == [MovImm(Rbx, n), Xchg(Rax, Rbx), Cqo] + OpCode.IdivTail(Rbx, true);
      } else {
        c := EmitOpIntConstShort(op, n);
      }
    }

    // The branches of EmitOpIntConst without a division.
    method EmitOpIntConstShort(op: Op, n: nat) returns (ghost c: seq<Instr>)
      requires !op.IsCompare() && n <= MAX_LIT && !op.Div? && !op.InvDiv? && !op.Mod? && !op.InvMod?
      modifies this`argCode, this`out, this`localSp
      ensures KeepsCalls()
      ensures Buf() == Extend(old(Buf()), c)
      ensures !op.AndNot? ==> AppliesConst(c, op, n)
      ensures op.AndNot? ==> forall env: Env, m: State :: Exec(env, c, m) == Stuck
      ensures NoLabels(c)
      ensures localSp == old(localSp)
    {
      hide KnownCalls, Extend, Exec, OpWord, AppliesConst;
      ghost var b := Buf();
      ExtendNothing(b);
      if op.Mult? {
        Emit(ImulImm(Rax, n), b, []);
        c := [ImulImm(Rax, n)];
        assert [] + c == c;
        OpCode.MultConstCode(n);
      } else if op.InvMinus? {
        Emit(AluImm(Sub, Rax, n), b, []);
        Emit(Instr.Neg(Rax), b, [] + [AluImm(Sub, Rax, n)]);
        c := [AluImm(Sub, Rax, n), Instr.Neg(Rax)];
        assert [] + [AluImm(Sub, Rax, n)] + [Instr.Neg(Rax)] == c;
        OpCode.MinusInverseCode(n);
      } else if op.Minus? {
        Emit(AluImm(Sub, Rax, n), b, []);
        c := [AluImm(Sub, Rax, n)];
        assert [] + c == c;
        OpCode.MinusConstCode(n);
      } else if op.InvShl? || op.InvShr? {
        Emit(MovReg(Rcx, Rax), b, []);
        Emit(MovImm(Rax, n), b, [] + [MovReg(Rcx, Rax)]);
        Emit(ShiftCl(op.InvShr?, Rax), b, [] + [MovReg(Rcx, Rax)] + [MovImm(Rax, n)]);
        c := [MovReg(Rcx, Rax), MovImm(Rax, n), ShiftCl(op.InvShr?, Rax)];
        assert [] + [MovReg(Rcx, Rax)] + [MovImm(Rax, n)] + [ShiftCl(op.InvShr?, Rax)] == c;
        OpCode.ShiftInverseCode(op.InvShr?, n);
      } else if op.AndNot? {
        // The mnemonic of the table is not an instruction.
        Emit(Raw("andnot"), b, []);
        c := [Raw("andnot")];
        assert [] + c == c;
        forall env: Env, m: State
          ensures Exec(env, c, m) == Stuck
        {
          OpCode.AndNotConstStuck(env, m);
        }
      } else if op.Shl? || op.Shr? {
        Emit(ShiftImm(op.Shr?, Rax, n), b, []);
        c := [ShiftImm(op.Shr?, Rax, n)];
        assert [] + c == c;
        OpCode.ShiftConstCode(op.Shr?, n);
      } else {
        Emit(AluImm(OpCode.AluFor(op), Rax, n), b, []);
        c := [AluImm(OpCode.AluFor(op), Rax, n)];
        assert [] + c == c;
        OpCode.AluConstCode(op, n);
      }
    }

    // ----- ops.go -----

    /** Two entries of the evaluation stack; the first is the next stack entry, the second is in rax. */
    method GenerateTosOpNos(op: Op, v1: Value, v2: Value) returns (res: Option<Value>, ghost c: seq<Instr>)
      requires state.Ax? && !op.IsInverse() && !v1.isConst && !v2.isConst
      modifies this`argCode, this`out, this`localSp, this`state, this`labelNo
      ensures KeepsCalls()
      ensures res == OpValue(op, v1, v2)
      ensures res.Some? ==>
                && Buf() == Extend(old(Buf()), c)
                && AppliesNosTos(c, op) && Labelled(c, old(labelNo), labelNo) && old(labelNo) <= labelNo
                && state == Ax && localSp == old(localSp) - 1
    {
      hide KnownCalls, Extend, AppliesNosTos, Labelled;
      c := [];
      ghost var p := EmitAssertTosInRax();
      ExtendNothing(old(Buf()));
      if op.IsCompare() {
        if v1.ty.IntT? && v2.ty.IntT? {
          c := EmitCompareIntegers(op);
          return Some(DYN_BOOL), c;
        }
        return None, c;
      }
      if v1.ty.IntT? {
        c := EmitIntegerOp(op);
        NoLabelsLabelled(c, labelNo);
        return Some(DYN_INT), c;
      }
      return None, c;
    }

    /** The value in rax and the constant v2. */
    method GenerateTosOpConst(op: Op, v1: Value, v2: Value) returns (res: Option<Value>, ghost c: seq<Instr>)
      requires state.Ax? && !v1.isConst && v2.isConst && 0 <= v2.n <= MAX_LIT && !op.AndNot?
      modifies this`argCode, this`out, this`localSp, this`state, this`labelNo
      ensures KeepsCalls()
      ensures res == OpValue(op, v1, v2)
      ensures res.Some? ==>
                && Buf() == Extend(old(Buf()), c)
                && AppliesConst(c, op, v2.n) && Labelled(c, old(labelNo), labelNo) && old(labelNo) <= labelNo
                && state == Ax && localSp == old(localSp)
    {
      hide KnownCalls, Extend, AppliesConst, Labelled;
      c := [];
      if op.IsCompare() {
        if v1.ty.IntT? && v2.ty.IntT? {
          c := EmitCompareIntConst(op, v2.n);
          return Some(DYN_BOOL), c;
        } else if v1.ty.BoolT? && v2.ty.BoolT? {
          c := EmitCompareIntConst(op, v2.n);
          return Some(DYN_BOOL), c;
        }
        return None, c;
      }
      if v1.ty.IntT? && v2.ty.IntT? {
        c := EmitOpIntConst(op, v2.n);
        NoLabelsLabelled(c, labelNo);
        return Some(DYN_INT), c;
      }
      return None, c;
    }

    /**
     The code of an operator whose operands l and r have the values v1 and v2 and the code
     c1 and c2: which operand is constant decides the form.
     */
    method GenerateOp(op: Op, v1: Value, v2: Value, ghost l: Exp, ghost r: Exp, ghost c1: seq<Instr>,
                      ghost c2: seq<Instr>, ghost s0: Cache, ghost s1: Cache, ghost lo: nat, ghost mid: nat)
      returns (res: Option<Value>, ghost c3: seq<Instr>)
      requires Fragment(Sc(), Bin(op, l, r)) && Static(Sc(), l) == Some(v1) && Static(Sc(), r) == Some(v2)
      requires Generates(Sc(), c1, l, s0, s1, lo, mid) && Generates(Sc(), c2, r, s1, state, mid, labelNo)
      modifies this`argCode, this`out, this`localSp, this`state, this`labelNo
      ensures KeepsCalls()
      ensures res == Static(Sc(), Bin(op, l, r))
      ensures res.Some? ==>
                && Buf() == Extend(old(Buf()), c3)
                && Generates(Sc(), c1 + c2 + c3, Bin(op, l, r), s0, state, lo, labelNo)
                && Depth(state, localSp) ==
                   Depth(old(state), old(localSp)) - (if v1.isConst || v2.isConst then 0 else 1)
                && old(labelNo) <= labelNo
    {
      hide KnownCalls, Extend, Generates, Fragment, Static, Computes, Labelled, AppliesConst, AppliesNosTos, Eval, Fold,
           Offsets;
      c3 := [];
      ghost var sc, b := Sc(), Buf();
      DynOrConst(sc, op, l, r);
      OperandStates(sc, l, r, c1, c2, s0, s1, state, lo, mid, labelNo);
      if v1.isConst && v2.isConst {
        ExtendNothing(b);
        FoldGenerates(sc, op, l, r, s0, lo);
        return Fold(op, v1.n, v2.n), c3;
      }
      ghost var p := EmitAssertTosInRax();
      ghost var c;
      ghost var mid2 := labelNo;
      if v2.isConst {
        ConstInRange(sc, r);
        res, c := GenerateTosOpConst(op, v1, v2);
        if res.Some? {
          TosConstGenerates(sc, op, l, r, c1, c, s0, s1, lo, mid2, labelNo);
        }
      } else if v1.isConst {
        ConstInRange(sc, l);
        InverseValue(op, v1, v2);
        res, c := GenerateTosOpConst(Inverse(op), v2, v1);
        if res.Some? {
          ConstTosGenerates(sc, op, l, r, c2, c, s0, old(state), lo, mid2, labelNo);
        }
      } else {
        res, c := GenerateTosOpNos(op, v1, v2);
        if res.Some? {
          NosTosGenerates(sc, op, l, r, c1, c2, c, s0, s1, old(state), lo, mid, mid2, labelNo);
        }
      }
      c3 := p + c;
      ExtendTwice(b, p, c);
    }

    // ----- expression.go -----

    /** Since the old state, the last fragment has grown by code c for e, whose value is v. */
    twostate predicate Grown(new e: Exp, new v: Value, new c: seq<Instr>)
      reads this
    {
      && Static(Sc(), e) == Some(v) && old(labelNo) <= labelNo
      && Buf() == Extend(old(Buf()), c)
      && Generates(Sc(), c, e, old(state), state, old(labelNo), labelNo)
      && Depth(state, localSp) == Depth(old(state), old(localSp)) + (if v.isConst then 0 else 1)
    }

    /** The outcome of a parse function on the tokens of e followed by k. */
    twostate predicate Parsed(new e: Exp, new k: Tokens, new r: Option<Value>, new c: seq<Instr>)
      reads this
    {
      && r == Static(Sc(), e)
      && (r.Some? ==> toks == k && Grown(e, r.value, c))
    }

    /** A fragment is open, and it is empty when e begins with a call. */
    ghost predicate Ready(e: Exp)
      reads this`argCode, this`vars, this`fns
    {
      |argCode| >= 1 && Fragment(Sc(), e) && (StartsWithCall(e) ==> argCode[|argCode| - 1] == [])
    }

    // The end of an operator's loop body: its code, and the three fragments joined.
    method ApplyOperator(op: Op, v1: Value, v2: Value, ghost l: Exp, ghost r: Exp, ghost b: Code, ghost c1: seq<Instr>,
                         ghost c2: seq<Instr>, ghost s0: Cache, ghost s1: Cache, ghost lo: nat, ghost mid: nat)
      returns (res: Option<Value>, ghost c: seq<Instr>)
      requires Fragment(Sc(), Bin(op, l, r)) && Static(Sc(), l) == Some(v1) && Static(Sc(), r) == Some(v2)
      requires Generates(Sc(), c1, l, s0, s1, lo, mid) && Generates(Sc(), c2, r, s1, state, mid, labelNo)
      requires |b.frags| >= 1 && out == b.out && argCode == Extend(b, c1).frags + [c2]
      modifies this`argCode, this`out, this`localSp, this`state, this`labelNo
      ensures KeepsCalls()
      ensures res == Static(Sc(), Bin(op, l, r))
      ensures res.Some? ==>
                && Buf() == Extend(b, c)
                && Generates(Sc(), c, Bin(op, l, r), s0, state, lo, labelNo)
                && Depth(state, localSp) ==
                   Depth(old(state), old(localSp)) - (if v1.isConst || v2.isConst then 0 else 1)
                && old(labelNo) <= labelNo
    {
      hide KnownCalls, Generates, Fragment, Static;
      NewArgCode();
      ghost var b3 := Buf();
      ghost var c3;
      res, c3 := GenerateOp(op, v1, v2, l, r, c1, c2, s0, s1, lo, mid);
      c := c1 + c2 + c3;
      if res.None? {
        return;
      }
      assert [] + c3 == c3;
      assert argCode == Extend(b, c1).frags + [c2, c3];
      JoinThree(b, c1, c2, c3, argCode);
      ConsArgCode(3, false);
    }

    method ParseProd(ghost p: Prod, ghost k: Tokens) returns (r: Option<Value>, ghost c: seq<Instr>)
      requires OkProd(p) && toks == TokProd(p, k) && AfterProd(k) && Ready(AbsProd(p))
      modifies this`toks, this`argCode, this`out, this`localSp, this`state, this`labelNo
      ensures KeepsCalls()
      ensures Parsed(AbsProd(p), k, r, c)
      decreases p, 1
    {
      hide KnownCalls, Generates, Fragment, Static, TokUnary, AbsUnary, OkUnary, Extend, TokProdRest, AbsProdRest,
           OkProdRest, AfterUnary, OpValue, Offsets;
      ghost var cur, rest := AbsUnary(p.u), p.rest;
      ProdFacts(Sc(), cur, rest);
      ProdStep(Sc(), cur, rest, k);
      r, c := ParseUnary(p.u, TokProdRest(rest, k));
      if r.None? {
        return;
      }
      while toks.Tok? && toks.head.Infix? && toks.head.op.IsProd()
        invariant KeepsCalls()
        invariant AbsProd(p) == AbsProdRest(cur, rest) && OkProdRest(rest) && toks == TokProdRest(rest, k)
        invariant p decreases to rest
        invariant r.Some? && Grown(cur, r.value, c)
        decreases rest
      {
        ghost var s1, lab, b := state, labelNo, old(Buf());
        ProdStep(Sc(), cur, rest, k);
        var op := toks.head.op;
        toks := toks.tail;
        ghost var u, next := rest.u, rest.rest;
        ProdStep(Sc(), cur, next, k);
        ExtendHeight(b, c);
        NewArgCode();
        assert Buf() == Code(b.out, Extend(b, c).frags + [[]]);
        var v2;
        ghost var c2;
        v2, c2 := ParseUnary(u, TokProdRest(next, k));
        if v2.None? {
          return None, c;
        }
        FreshFragment(b, c, Buf(), c2);
        r, c := ApplyOperator(op, r.value, v2.value, cur, AbsUnary(u), b, c, c2, old(state), s1, old(labelNo), lab);
        if r.None? {
          return;
        }
        DynResult(Sc(), op, cur, AbsUnary(u));
        cur, rest := Bin(op, cur, AbsUnary(u)), next;
      }
      ProdStep(Sc(), cur, rest, k);
    }

    method ParseSumTerm(ghost p: Sum, ghost k: Tokens) returns (r: Option<Value>, ghost c: seq<Instr>)
      requires OkSum(p) && toks == TokSum(p, k) && AfterSum(k) && Ready(AbsSum(p))
      modifies this`toks, this`argCode, this`out, this`localSp, this`state, this`labelNo
      ensures KeepsCalls()
      ensures Parsed(AbsSum(p), k, r, c)
      decreases p, 2
    {
      hide KnownCalls, Generates, Fragment, Static, TokProd, AbsProd, OkProd, Extend, TokSumRest, AbsSumRest, OkSumRest,
           AfterProd, OpValue, Offsets;
      ghost var cur, rest := AbsProd(p.p), p.rest;
      SumFacts(Sc(), cur, rest);
      SumStep(Sc(), cur, rest, k);
      r, c := ParseProd(p.p, TokSumRest(rest, k));
      if r.None? {
        return;
      }
      while toks.Tok? && toks.head.Infix? && toks.head.op.IsSum()
        invariant KeepsCalls()
        invariant AbsSum(p) == AbsSumRest(cur, rest) && OkSumRest(rest) && toks == TokSumRest(rest, k)
        invariant p decreases to rest
        invariant r.Some? && Grown(cur, r.value, c)
        decreases rest
      {
        ghost var s1, lab, b := state, labelNo, old(Buf());
        SumStep(Sc(), cur, rest, k);
        var op := toks.head.op;
        toks := toks.tail;
        ghost var q, next := rest.p, rest.rest;
        SumStep(Sc(), cur, next, k);
        ExtendHeight(b, c);
        NewArgCode();
        assert Buf() == Code(b.out, Extend(b, c).frags + [[]]);
        var v2;
        ghost var c2;
        v2, c2 := ParseProd(q, TokSumRest(next, k));
        if v2.None? {
          return None, c;
        }
        FreshFragment(b, c, Buf(), c2);
        r, c := ApplyOperator(op, r.value, v2.value, cur, AbsProd(q), b, c, c2, old(state), s1, old(labelNo), lab);
        if r.None? {
          return;
        }
        DynResult(Sc(), op, cur, AbsProd(q));
        cur, rest := Bin(op, cur, AbsProd(q)), next;
      }
      SumStep(Sc(), cur, rest, k);
    }

    method ParseCompareTerm(ghost t: Comp, ghost k: Tokens) returns (r: Option<Value>, ghost c: seq<Instr>)
      requires OkComp(t) && toks == TokComp(t, k) && AfterComp(k) && Ready(AbsComp(t))
      modifies this`toks, this`argCode, this`out, this`localSp, this`state, this`labelNo
      ensures KeepsCalls()
      ensures Parsed(AbsComp(t), k, r, c)
      decreases t, 3
    {
      hide KnownCalls, Generates, TokSum, AbsSum, OkSum, Extend, OpValue, Offsets;
      ghost var l := if t.CompOne? then t.s else t.l;
      ghost var k1 := if t.CompOne? then k else Tok(Infix(t.op), TokSum(t.r, k));
      r, c := ParseSumTerm(l, k1);
      if r.None? || !(toks.Tok? && toks.head.Infix? && toks.head.op.IsCompare()) {
        return;
      }
      hide Fragment, Static;
      ghost var s1, lab, b := state, labelNo, old(Buf());
      var op := toks.head.op;
      toks := toks.tail;
      ExtendHeight(b, c);
      NewArgCode();
      assert Buf() == Code(b.out, Extend(b, c).frags + [[]]);
      var v2;
      ghost var c2;
      v2, c2 := ParseSumTerm(t.r, k);
      if v2.None? {
        return None, c;
      }
      FreshFragment(b, c, Buf(), c2);
      r, c := ApplyOperator(op, r.value, v2.value, AbsSum(l), AbsSum(t.r), b, c, c2, old(state), s1, old(labelNo), lab);
      if r.Some? {
        DynResult(Sc(), op, AbsSum(l), AbsSum(t.r));
      }
    }

    /** The operand before && or || must be boolean; the operator is consumed. */
    method LogTerm(v: Value) returns (ok: bool)
      requires toks.Tok? && !v.isConst
      modifies this`toks
      ensures ok <==> v.ty.BoolT?
      ensures ok ==> toks == old(toks).tail
    {
      if !v.ty.BoolT? {
        return false;
      }
      toks := toks.tail;
      return true;
    }

    /** Jumps to lbl when the top of stack in rax is false, and pops it. */
    method EmitJumpFalse(lbl: nat) returns (ghost c: seq<Instr>)
      modifies this`argCode, this`out, this`localSp, this`state
      ensures KeepsCalls()
      ensures Buf() == Extend(old(Buf()), c) && c == ShortCircuit.TestJump(true, lbl)
      ensures state == Undef && localSp == old(localSp)
    {
      hide KnownCalls;
      ExtendNothing(Buf());
      Emit(OrAl, old(Buf()), []);
      Emit(Jcc(E, lbl), old(Buf()), [] + [OrAl]);
      c := [OrAl] + [Jcc(E, lbl)];
      assert [] + [OrAl] + [Jcc(E, lbl)] == c;
      state := Undef;
    }

    method EmitJumpTrue(lbl: nat) returns (ghost c: seq<Instr>)
      modifies this`argCode, this`out, this`localSp, this`state
      ensures KeepsCalls()
      ensures Buf() == Extend(old(Buf()), c) && c == ShortCircuit.TestJump(false, lbl)
      ensures state == Undef && localSp == old(localSp)
    {
      hide KnownCalls;
      ExtendNothing(Buf());
      Emit(OrAl, old(Buf()), []);
      Emit(Jcc(Cond.Ne, lbl), old(Buf()), [] + [OrAl]);
      c := [OrAl] + [Jcc(Cond.Ne, lbl)];
      assert [] + [OrAl] + [Jcc(Cond.Ne, lbl)] == c;
      state := Undef;
    }

    method EmitLabel(lbl: nat)
      modifies this`argCode, this`out
      ensures KeepsCalls()
      ensures Buf() == Extend(old(Buf()), [Label(lbl)])
      ensures old(argCode) == [] ==> argCode == [] && out == old(out) + [Label(lbl)]
    {
      hide KnownCalls;
      Write(Label(lbl));
    }

    /** A chain of && or || under construction, with its end label l. */
    twostate predicate Chained(and: bool, new e: Exp, new c: seq<Instr>, l: nat)
      reads this
    {
      && Buf() == Extend(old(Buf()), c) && state == Ax && old(labelNo) <= labelNo
      && ShortCircuit.Chain(Sc(), and, c, e, old(state), l, old(labelNo), labelNo)
      && Depth(state, localSp) == Depth(old(state), old(localSp)) + 1
    }

    method ParseLogAnd(ghost t: Conj, ghost k: Tokens) returns (r: Option<Value>, ghost c: seq<Instr>)
      requires OkConj(t) && toks == TokConj(t, k) && AfterConj(k) && Ready(AbsConj(t))
      modifies this`toks, this`argCode, this`out, this`localSp, this`state, this`labelNo
      ensures KeepsCalls()
      ensures Parsed(AbsConj(t), k, r, c)
      decreases t, 4
    {
      hide KnownCalls, Generates, Fragment, Static, TokComp, AbsComp, OkComp, Extend, TokConjRest, AbsConjRest,
           OkConjRest, AfterComp, ShortCircuit.Chain, Offsets;
      ghost var cur, rest, b := AbsComp(t.c), t.rest, Buf();
      ConjFacts(Sc(), cur, rest);
      ConjStep(Sc(), cur, rest, k);
      r, c := ParseCompareTerm(t.c, TokConjRest(rest, k));
      if r.None? {
        return;
      }
      var endLabel := 0;
      while toks.Tok? && toks.head.LogAnd?
        invariant KeepsCalls()
        invariant AbsConj(t) == AbsConjRest(cur, rest) && OkConjRest(rest) && toks == TokConjRest(rest, k)
        invariant t decreases to rest
        invariant r.Some? && r == Static(Sc(), cur)
        invariant if endLabel == 0 then Grown(cur, r.value, c) else Chained(true, cur, c, endLabel) && !r.value.isConst
        decreases rest
      {
        ConjStep(Sc(), cur, rest, k);
        ghost var d, next := rest.c, rest.rest;
        ghost var e2 := AbsComp(d);
        JoinFacts(Sc(), Both(cur, e2), cur, e2);
        ConjStep(Sc(), Both(cur, e2), next, k);
        ghost var first, mid := endLabel == 0, labelNo;
        if endLabel == 0 {
          endLabel := NewLabel();
        }
        var ok := LogTerm(r.value);
        if !ok {
          return None, c;
        }
        if first {
          ShortCircuit.Begin(Sc(), true, c, cur, old(state), state, old(labelNo), mid);
        }
        ok, c := ParseAndOperand(d, TokConjRest(next, k), cur, c, b, old(state), endLabel, old(labelNo));
        if !ok {
          return None, c;
        }
        cur, rest := Both(cur, e2), next;
      }
      ConjStep(Sc(), cur, rest, k);
      if endLabel != 0 {
        EmitLabel(endLabel);
        ShortCircuit.End(Sc(), true, c, cur, old(state), endLabel, old(labelNo), labelNo);
        ExtendTwice(b, c, [Label(endLabel)]);
        c := c + [Label(endLabel)];
      }
    }

    // The loop body of ParseLogAnd after the operator: the jump and one more operand.
    method ParseAndOperand(ghost d: Comp, ghost k: Tokens, ghost e: Exp, ghost c: seq<Instr>, ghost b: Code,
                           ghost s0: Cache, endLabel: nat, ghost lo: nat)
      returns (ok: bool, ghost c': seq<Instr>)
      requires OkComp(d) && toks == TokComp(d, k) && AfterComp(k)
      requires |b.frags| >= 1 && Buf() == Extend(b, c) && state == Ax && lo <= labelNo
      requires ShortCircuit.Chain(Sc(), true, c, e, s0, endLabel, lo, labelNo)
      requires Fragment(Sc(), Both(e, AbsComp(d)))
      modifies this`toks, this`argCode, this`out, this`localSp, this`state, this`labelNo
      ensures KeepsCalls()
      ensures ok <==> Static(Sc(), Both(e, AbsComp(d))).Some?
      ensures ok ==>
                && toks == k && Buf() == Extend(b, c') && state == Ax && old(labelNo) <= labelNo
                && ShortCircuit.Chain(Sc(), true, c', Both(e, AbsComp(d)), s0, endLabel, lo, labelNo)
                && Depth(state, localSp) == Depth(old(state), old(localSp))
      decreases d, 4
    {
      hide KnownCalls;
      c' := c;
      ghost var e2, mid := AbsComp(d), labelNo;
      JoinFacts(Sc(), Both(e, e2), e, e2);
      assert ShortCircuit.DynBool(Sc(), e);
      hide Generates, Fragment, Static, TokComp, AbsComp, OkComp, Extend, ShortCircuit.Chain;
      ExtendHeight(b, c);
      ghost var j := EmitJumpFalse(endLabel);
      ExtendHeight(Extend(b, c), j);
      var v2;
      ghost var c2;
      v2, c2 := ParseCompareTerm(d, k);
      if v2.None? || !v2.value.ty.BoolT? {
        return false, c';
      }
      ShortCircuit.More(Sc(), true, c, c2, e, e2, s0, state, endLabel, lo, mid, labelNo);
      ExtendTwice(Extend(b, c), j, c2);
      ExtendTwice(b, c, j + c2);
      Assoc(c, j, c2);
      return true, c + (j + c2);
    }

    method ParseExpression(ghost t: Expr, ghost k: Tokens) returns (r: Option<Value>, ghost c: seq<Instr>)
      requires OkExpr(t) && toks == TokExpr(t, k) && AfterExpr(k) && Ready(AbsExpr(t))
      modifies this`toks, this`argCode, this`out, this`localSp, this`state, this`labelNo
      ensures KeepsCalls()
      ensures Parsed(AbsExpr(t), k, r, c)
      decreases t, 5
    {
      hide KnownCalls, Generates, Fragment, Static, TokConj, AbsConj, OkConj, Extend, TokDisjRest, AbsDisjRest,
           OkDisjRest, AfterConj, ShortCircuit.Chain, Offsets;
      ghost var cur, rest, b := AbsConj(t.c), t.rest, Buf();
      DisjFacts(Sc(), cur, rest);
      DisjStep(Sc(), cur, rest, k);
      r, c := ParseLogAnd(t.c, TokDisjRest(rest, k));
      if r.None? {
        return;
      }
      var endLabel := 0;
      while toks.Tok? && toks.head.LogOr?
        invariant KeepsCalls()
        invariant AbsExpr(t) == AbsDisjRest(cur, rest) && OkDisjRest(rest) && toks == TokDisjRest(rest, k)
        invariant t decreases to rest
        invariant r.Some? && r == Static(Sc(), cur)
        invariant if endLabel == 0 then Grown(cur, r.value, c) else Chained(false, cur, c, endLabel) && !r.value.isConst
        decreases rest
      {
        DisjStep(Sc(), cur, rest, k);
        ghost var d, next := rest.c, rest.rest;
        ghost var e2 := AbsConj(d);
        JoinFacts(Sc(), Either(cur, e2), cur, e2);
        DisjStep(Sc(), Either(cur, e2), next, k);
        ghost var first, mid := endLabel == 0, labelNo;
        if endLabel == 0 {
          endLabel := NewLabel();
        }
        var ok := LogTerm(r.value);
        if !ok {
          return None, c;
        }
        if first {
          ShortCircuit.Begin(Sc(), false, c, cur, old(state), state, old(labelNo), mid);
        }
        ok, c := ParseOrOperand(d, TokDisjRest(next, k), cur, c, b, old(state), endLabel, old(labelNo));
        if !ok {
          return None, c;
        }
        cur, rest := Either(cur, e2), next;
      }
      DisjStep(Sc(), cur, rest, k);
      if endLabel != 0 {
        EmitLabel(endLabel);
        ShortCircuit.End(Sc(), false, c, cur, old(state), endLabel, old(labelNo), labelNo);
        ExtendTwice(b, c, [Label(endLabel)]);
        c := c + [Label(endLabel)];
      }
    }

    // The loop body of ParseExpression after the operator: the jump and one more operand.
    method ParseOrOperand(ghost d: Conj, ghost k: Tokens, ghost e: Exp, ghost c: seq<Instr>, ghost b: Code,
                          ghost s0: Cache, endLabel: nat, ghost lo: nat)
      returns (ok: bool, ghost c': seq<Instr>)
      requires OkConj(d) && toks == TokConj(d, k) && AfterConj(k)
      requires |b.frags| >= 1 && Buf() == Extend(b, c) && state == Ax && lo <= labelNo
      requires ShortCircuit.Chain(Sc(), false, c, e, s0, endLabel, lo, labelNo)
      requires Fragment(Sc(), Either(e, AbsConj(d)))
      modifies this`toks, this`argCode, this`out, this`localSp, this`state, this`labelNo
      ensures KeepsCalls()
      ensures ok <==> Static(Sc(), Either(e, AbsConj(d))).Some?
      ensures ok ==>
                && toks == k && Buf() == Extend(b, c') && state == Ax && old(labelNo) <= labelNo
                && ShortCircuit.Chain(Sc(), false, c', Either(e, AbsConj(d)), s0, endLabel, lo, labelNo)
                && Depth(state, localSp) == Depth(old(state), old(localSp))
      decreases d, 5
    {
      hide KnownCalls;
      c' := c;
      ghost var e2, mid := AbsConj(d), labelNo;
      JoinFacts(Sc(), Either(e, e2), e, e2);
      assert ShortCircuit.DynBool(Sc(), e);
      hide Generates, Fragment, Static, TokConj, AbsConj, OkConj, Extend, ShortCircuit.Chain;
      ExtendHeight(b, c);
      ghost var j := EmitJumpTrue(endLabel);
      ExtendHeight(Extend(b, c), j);
      var v2;
      ghost var c2;
      v2, c2 := ParseLogAnd(d, k);
      if v2.None? || !v2.value.ty.BoolT? {
        return false, c';
      }
      ShortCircuit.More(Sc(), false, c, c2, e, e2, s0, state, endLabel, lo, mid, labelNo);
      ExtendTwice(Extend(b, c), j, c2);
      ExtendTwice(b, c, j + c2);
      Assoc(c, j, c2);
      return true, c + (j + c2);
    }

    /** Consumes token t, or reports an error. */
    method Found(t: Token) returns (ok: bool)
      modifies this`toks
      ensures ok <==> old(toks).Tok? && old(toks).head == t
      ensures toks == if ok then old(toks).tail else old(toks)
    {
      ok := toks.Tok? && toks.head == t;
      if ok {
        toks := toks.tail;
      }
    }

    method ParseUnary(ghost u: Unary, ghost k: Tokens) returns (r: Option<Value>, ghost c: seq<Instr>)
      requires OkUnary(u) && toks == TokUnary(u, k) && AfterUnary(k) && Ready(AbsUnary(u))
      modifies this`toks, this`argCode, this`out, this`localSp, this`state, this`labelNo
      ensures KeepsCalls()
      ensures Parsed(AbsUnary(u), k, r, c)
      decreases u, 2
    {
      hide KnownCalls, TokExpr, AbsExpr, OkExpr, Extend, Eval, Computes, Labelled, TokArgRest, AbsArgRest, OkArgRest,
           Offsets;
      c := [];
      var head := toks.head;
      toks := toks.tail;
      if head.Id? {
        var isCall := Found(Lpar);
        if isCall {
          hide Generates, Fragment, Static;
          r, c := ParseFuncCall(head.name, u, k);
        } else {
          r, c := ParseVariable(head.name);
        }
      } else if head.Lpar? {
        r, c := ParseExpression(u.e, Tok(Rpar, k));
        if r.Some? {
          var ok := Found(Rpar);
        }
      } else if head.Num? {
        r := Some(Value(IntT, true, head.n));
        ExtendNothing(Buf());
      } else {
        r, c := ParseNegation(u, k);
      }
    }

    // After a minus sign.
    method ParseNegation(ghost u: Unary, ghost k: Tokens) returns (r: Option<Value>, ghost c: seq<Instr>)
      requires u.UNeg? && OkUnary(u) && Tok(Infix(Minus), toks) == TokUnary(u, k) && AfterUnary(k) && Ready(AbsUnary(u))
      modifies this`toks, this`argCode, this`out, this`localSp, this`state, this`labelNo
      ensures KeepsCalls()
      ensures Parsed(AbsUnary(u), k, r, c)
      decreases u, 1
    {
      hide KnownCalls, TokExpr, AbsExpr, OkExpr, Extend, Eval, Computes, Labelled, TokArgRest, AbsArgRest, OkArgRest,
           Offsets;
      r, c := ParseUnary(u.u, k);
      if r.Some? {
        ghost var s1, mid := state, labelNo;
        ghost var c2 := EmitNegate();
        NegateGenerates(Sc(), c, AbsUnary(u.u), old(state), s1, old(labelNo), mid);
        ExtendTwice(old(Buf()), c, c2);
        c := c + c2;
      }
    }

    /** A simple variable of type I64. */
    method ParseVariable(x: Ident) returns (r: Option<Value>, ghost c: seq<Instr>)
      modifies this`argCode, this`out, this`localSp, this`state
      ensures KeepsCalls()
      ensures r == Static(Sc(), Ref(x))
      ensures r.Some? ==> Grown(Ref(x), r.value, c)
    {
      hide KnownCalls, Extend, Eval, Computes;
      c := [];
      if x !in vars || !vars[x].typed {
        return None, c;
      }
      c := EmitLoad(vars[x].offset);
      LoadGenerates(Sc(), x, old(state), labelNo);
      return Some(DYN_INT), c;
    }

    // One argument: the code of its expression, starting from an unknown cache state, and a push.
    method ParseActualArg(ghost e: Expr, ghost k: Tokens) returns (r: Option<Value>, ghost c: seq<Instr>)
      requires OkExpr(e) && toks == TokExpr(e, k) && AfterExpr(k)
      requires |argCode| >= 1 && argCode[|argCode| - 1] == [] && Fragment(Sc(), AbsExpr(e))
      modifies this`toks, this`argCode, this`out, this`localSp, this`state, this`labelNo
      ensures KeepsCalls()
      ensures r == Static(Sc(), AbsExpr(e))
      ensures r.Some? ==>
                && toks == k && Buf() == Extend(old(Buf()), c) && state == Sp && localSp == old(localSp) + 1
                && Computes(Sc(), c, AbsExpr(e), Undef, Sp)
                && Labelled(c, old(labelNo), labelNo) && old(labelNo) <= labelNo
      decreases e, 6
    {
      hide KnownCalls, Fragment, Static, TokExpr, AbsExpr, OkExpr, Extend, AfterExpr, Computes, Labelled, LoadConst;
      state := Undef;
      r, c := ParseExpression(e, k);
      if r.None? {
        return;
      }
      ghost var mid, p := labelNo, [];
      if r.value.isConst {
        ConstInRange(Sc(), AbsExpr(e));
        if r.value.ty.IntT? {
          c := EmitPushConst(r.value.n);
        } else if r.value.n == 0 {
          c := EmitPushConst(0);
        } else {
          c := EmitPushConst(1);
        }
        assert [] + [LoadConst(r.value.n)] == [LoadConst(r.value.n)];
        ConstArg(Sc(), AbsExpr(e));
        ExtendNothing(old(Buf()));
        ConstArgLabelled(r.value.n, labelNo);
        p := EmitPushTos();
      } else {
        DynArg(Sc(), c, AbsExpr(e), state);
        p := EmitPushTos();
        DynArgLabelled(c, p, old(labelNo), mid);
      }
      ExtendTwice(old(Buf()), c, p);
      c := c + p;
    }

    // One more argument, in a fragment of its own.
    method ParseNextArg(parNo: nat, vs: seq<Value>, ghost e: Expr, ghost k: Tokens, ghost base: seq<seq<Instr>>,
                        ghost cs: seq<seq<Instr>>, ghost done: seq<Exp>, ghost lo: nat)
      returns (v: Option<Value>, ghost c: seq<Instr>)
      requires OkExpr(e) && toks == TokExpr(e, k) && AfterExpr(k) && Fragment(Sc(), AbsExpr(e))
      requires |cs| == |vs| == |done| == parNo && argCode == base + if parNo == 0 then [[]] else cs
      requires Calls.PushArgs(Sc(), cs, done) && Labelled(Calls.Backwards(cs), lo, labelNo) && lo <= labelNo
      requires TypesOf(Sc(), done) == ValueTypes(vs)
      modifies this`toks, this`argCode, this`out, this`localSp, this`state, this`labelNo
      ensures KeepsCalls()
      ensures v == Static(Sc(), AbsExpr(e))
      ensures v.Some? ==>
                && toks == k && out == old(out) && argCode == base + (cs + [c]) && state == Sp
                && localSp == old(localSp) + 1
                && Calls.PushArgs(Sc(), cs + [c], done + [AbsExpr(e)])
                && Labelled(Calls.Backwards(cs + [c]), lo, labelNo) && lo <= labelNo
                && TypesOf(Sc(), done + [AbsExpr(e)]) == ValueTypes(vs + [v.value])
      decreases e, 7
    {
      hide KnownCalls, Fragment, Static, TokExpr, AbsExpr, OkExpr, Extend, AfterExpr, Computes, Labelled,
           Calls.Backwards, TypesOf, ValueTypes, Calls.PushArgs, Offsets;
      if parNo > 0 {
        NewArgCode();
      }
      ghost var b, mid := Buf(), labelNo;
      assert argCode == base + cs + [[]];
      v, c := ParseActualArg(e, k);
      if v.Some? {
        OpenFragment(b, base + cs, c);
        Calls.PushArgsSnoc(Sc(), cs, done, c, AbsExpr(e), lo, mid, labelNo);
        TypesSnoc(Sc(), done, vs, AbsExpr(e), v.value);
      }
    }

    /** One fragment for each argument; the first one is the fragment that was open. */
    method ParseActualArgList(ghost u: Unary, ghost k: Tokens)
      returns (values: Option<seq<Value>>, ghost cs: seq<seq<Instr>>)
      requires u.UCall? && OkUnary(u) && toks == TokExpr(u.arg, TokArgRest(u.more, k))
      requires |argCode| >= 1 && argCode[|argCode| - 1] == [] && AllFragment(Sc(), AbsUnary(u).args)
      modifies this`toks, this`argCode, this`out, this`localSp, this`state, this`labelNo
      ensures KeepsCalls()
      ensures values.Some? <==> AllTyped(Sc(), AbsUnary(u).args)
      ensures values.Some? ==>
                && |values.value| == |AbsUnary(u).args| && toks == k && out == old(out)
                && ValueTypes(values.value) == TypesOf(Sc(), AbsUnary(u).args)
                && argCode == old(argCode)[..|old(argCode)| - 1] + cs
                && Calls.PushArgs(Sc(), cs, AbsUnary(u).args)
                && Labelled(Calls.Backwards(cs), old(labelNo), labelNo) && old(labelNo) <= labelNo
                && state == Sp && localSp == old(localSp) + |AbsUnary(u).args|
      decreases u, 0
    {
      hide KnownCalls, Fragment, Static, TokExpr, AbsExpr, OkExpr, Extend, AfterExpr, Computes, Labelled,
           Calls.Backwards, TokArgRest, AbsArgRest, OkArgRest, AllFragment, AllTyped, TypesOf, ValueTypes,
           Calls.PushArgs, Offsets, LoadConst;
      cs := [];
      var parNo, vs: seq<Value> := 0, [];
      ghost var done: seq<Exp>, pending, base := [], ArgMore(u.arg, u.more), old(argCode)[..|old(argCode)| - 1];
      ArgListStarts(Sc(), u, k, labelNo);
      while true
        invariant KeepsCalls()
        invariant parNo >= 0 && out == old(out) && old(labelNo) <= labelNo && (parNo > 0 ==> state == Sp)
        invariant TypesOf(Sc(), done) == ValueTypes(vs)
        invariant |cs| == |vs| == |done| == parNo && argCode == base + if parNo == 0 then [[]] else cs
        invariant AbsUnary(u).args == done + AbsArgRest(pending) && OkArgRest(pending)
                  && AllFragment(Sc(), AbsArgRest(pending))
        invariant AllTyped(Sc(), AbsUnary(u).args) <==> AllTyped(Sc(), AbsArgRest(pending))
        invariant TokArgRest(pending, k) == Tok(Comma, toks)
        invariant pending.ArgMore? ==> (u decreases to pending.e) && (u decreases to pending.rest)
        invariant Calls.PushArgs(Sc(), cs, done) && Labelled(Calls.Backwards(cs), old(labelNo), labelNo)
        invariant localSp == old(localSp) + parNo
        decreases pending
      {
        ArgsLeft(Sc(), pending, k);
        if toks.Tok? && toks.head.Rpar? {
          break;
        }
        ghost var e, rest := pending.e, pending.rest;
        ArgStep(Sc(), pending, k);
        ArgSnoc(done, pending);
        ArgsLeft(Sc(), rest, k);
        var v;
        ghost var c;
        v, c := ParseNextArg(parNo, vs, e, TokArgRest(rest, k), base, cs, done, old(labelNo));
        if v.None? {
          return None, cs;
        }
        cs, done, vs, parNo := cs + [c], done + [AbsExpr(e)], vs + [v.value], parNo + 1;
        pending := rest;
        if !(toks.Tok? && toks.head.Comma?) {
          break;
        }
        toks := toks.tail;
      }
      assert done + [] == done;
      var ok := Found(Rpar);
      return Some(vs), cs;
    }

    method ParseFuncCall(f: Ident, ghost u: Unary, ghost k: Tokens) returns (r: Option<Value>, ghost c: seq<Instr>)
      requires u.UCall? && u.f == f && OkUnary(u) && Tok(Id(f), Tok(Lpar, toks)) == TokUnary(u, k) && AfterUnary(k)
               && Ready(AbsUnary(u))
      modifies this`toks, this`argCode, this`out, this`localSp, this`state, this`labelNo
      ensures KeepsCalls()
      ensures Parsed(AbsUnary(u), k, r, c)
      decreases u, 1
    {
      hide KnownCalls;
      CallFacts(Sc(), u, k, toks);
      hide Generates, Fragment, Static, TokExpr, AbsExpr, OkExpr, Extend, Computes, Labelled, Calls.Backwards,
           TokArgRest, AbsArgRest, OkArgRest, AllFragment, AllTyped, TypesOf, ValueTypes, Accepts, Calls.PushArgs,
           Moves, Calls.CallTail;
      c := [];
      var hadAx := state.Ax?;
      if f !in fns {
        return None, c;
      }
      var values;
      ghost var cs, b, base := [], Buf(), argCode[..|argCode| - 1];
      values, cs := ParseActualArgList(u, k);
      if values.None? {
        return None, c;
      }
      var found := FindFuncDef(f, values.value);
      if !found {
        return None, c;
      }
      c := CallFunction(f, |values.value|, hadAx, b, base, cs, AbsUnary(u).args, old(state), old(labelNo));
      return Some(DYN_INT), c;
    }

    /** The one definition of f takes values of these types. */
    method FindFuncDef(f: Ident, values: seq<Value>) returns (found: bool)
      requires f in fns
      ensures found <==> Accepts(fns[f], ValueTypes(values))
    {
      if |fns[f]| != |values| {
        return false;
      }
      for i := 0 to |values|
        invariant forall j :: 0 <= j < i ==> CanAssign(fns[f][j], ValueTypes(values)[j])
      {
        TypeAt(values, i);
        if !CanAssign(fns[f][i], values[i].ty) {
          return false;
        }
      }
      found := true;
    }

    // The part of ParseFuncCall that follows the arguments.
    method CallFunction(f: Ident, n: nat, hadAx: bool, ghost b: Code, ghost base: seq<seq<Instr>>,
                        ghost cs: seq<seq<Instr>>, ghost es: seq<Exp>, ghost s0: Cache, ghost lo: nat)
      returns (ghost c: seq<Instr>)
      requires b == Code(out, base + [[]]) && argCode == base + cs && |cs| == |es| == n >= 1
      requires state == Sp && hadAx == s0.Ax? && Static(Sc(), Apply(f, es)) == Some(DYN_INT)
      requires Calls.PushArgs(Sc(), cs, es) && Labelled(Calls.Backwards(cs), lo, labelNo) && lo <= labelNo
      modifies this`argCode, this`out, this`localSp, this`state
      ensures KeepsCalls()
      ensures Buf() == Extend(b, c) && state == Sp && localSp == old(localSp) + 1 - n + (if hadAx then 1 else 0)
      ensures Generates(Sc(), c, Apply(f, es), s0, Sp, lo, labelNo)
    {
      hide KnownCalls, Generates, Static, Extend, Labelled, Calls.Backwards, Calls.PushArgs, Calls.CallTail;
      ArityKnown(Sc(), f, es);
      // Space for the return value goes into a fragment of its own, which the reversal puts first.
      if hadAx {
        state := Ax;
      }
      NewArgCode();
      ghost var b2 := Buf();
      ghost var p := EmitFlushRax();
      ghost var q := EmitAddToSp(1);
      ExtendTwice(b2, p, q);
      OpenFragment(b2, base + cs, p + q);
      ConsArgCode(n + 1, true);
      CallFragments(base, cs, p + q);
      ghost var c0 := p + q + Calls.Backwards(cs);
      OpenFragment(b, base, c0);
      EmitCall(f, n, b, c0);
      ghost var d := EmitAddToSp(0 - n);
      c := c0 + Calls.CallTail(f, n);
      CallCode(b, c0, f, n, d);
      state := Sp;
      CallGenerates(Sc(), p, cs, f, es, s0, lo, labelNo);
    }

    /** The number of argument bytes goes into rbx. */
    method EmitCall(f: Ident, n: nat, ghost b: Code, ghost c: seq<Instr>)
      requires Buf() == Extend(b, c)
      modifies this`argCode, this`out, this`localSp
      ensures Buf() == Extend(b, c + [MovImm(Rbx, n * 8), Instr.Call(f, n)]) && localSp == old(localSp)
      ensures f in fns && |fns[f]| == n ==> KeepsCalls()
    {
      hide KnownCalls, Extend;
      Emit(MovImm(Rbx, n * 8), b, c);
      Emit(Instr.Call(f, n), b, c + [MovImm(Rbx, n * 8)]);
      assert c + [MovImm(Rbx, n * 8)] + [Instr.Call(f, n)] == c + [MovImm(Rbx, n * 8), Instr.Call(f, n)];
    }

    // ----- variables.go -----

    ghost function Fr(): Frame
      reads this`vars, this`fns, this`localSp, this`parCount
    {
      Frame(Sc(), localSp, parCount)
    }

    /** A local variable gets the next word below rbp; a name that is in use keeps its definition. */
    method AddLocalVar(x: Ident, typed: bool)
      modifies this`vars
      ensures vars == if x in old(vars) then old(vars)
              else old(vars)[x := VarDef(NextOffset(localSp), blockLevel, typed)]
    {
      if x !in vars {
        vars := vars[x := VarDef(-localSp * 8 - 8, blockLevel, typed)];
      }
    }

    /** Removes the variables of the given block level and above, and their words. */
    method FreeBlockVars(level: nat) returns (ghost p: seq<Instr>)
      requires argCode == []
      modifies this`vars, this`argCode, this`out, this`localSp
      ensures KeepsCalls()
      ensures forall x :: x in vars <==> x in old(vars) && old(vars)[x].blockLevel < level
      ensures forall x :: x in vars ==> vars[x] == old(vars)[x]
      ensures localSp == old(localSp) - (|old(vars)| - |vars|) && |vars| <= |old(vars)|
      ensures argCode == [] && out == old(out) + p && p == Flow.DropCode(|old(vars)| - |vars|)
    {
      hide KnownCalls;
      var n, todo := 0, vars.Keys;
      while todo != {}
        invariant todo <= vars.Keys && n == |old(vars)| - |vars| >= 0
        invariant forall x :: x in vars <==> x in old(vars) && (x in todo || old(vars)[x].blockLevel < level)
        invariant forall x :: x in vars ==> vars[x] == old(vars)[x]
        modifies this`vars
        decreases todo
      {
        var x :| x in todo;
        todo := todo - {x};
        if vars[x].blockLevel >= level {
          vars := vars - {x};
          n := n + 1;
        }
      }
      if n > 0 {
        p := EmitAddToSp(0 - n);
      } else {
        p := [];
        assert out + [] == out;
      }
    }

    // ----- statements -----

    /** The compiler is at a statement boundary. */
    ghost predicate Placed()
      reads this
    {
      argCode == [] && Layout(Fr()) && Scoped(vars, blockLevel)
    }

    twostate predicate Grew()
      reads this
    {
      blockLevel == old(blockLevel) && fns == old(fns) && parCount == old(parCount)
        && NewVars(old(vars), old(localSp), vars, localSp, blockLevel)
    }

    /** The outcome of a parse function on the tokens of c followed by k: the code p has been written. */
    twostate predicate Compiled(new c: Cmd, new k: Tokens, ok: bool, new p: seq<Instr>)
      reads this
    {
      && (ok <==> Place(old(Fr()), c).Some?)
      && (ok ==>
            && toks == k && out == old(out) + p && Placed() && !state.Ax? && Grew() && old(labelNo) <= labelNo
            && Place(old(Fr()), c) == Some(Fr())
            && Flow.Finished(old(Fr()), p, c, Fr(), old(labelNo), labelNo))
    }

    /** Two instructions: a zeroed word for a new local variable. */
    method EmitAllocLocalVar() returns (ghost p: seq<Instr>)
      requires argCode == []
      modifies this`argCode, this`out, this`localSp
      ensures KeepsCalls()
      ensures argCode == [] && out == old(out) + p && p == Flow.AllocCode() && localSp == old(localSp) + 1
    {
      hide KnownCalls;
      ExtendNothing(Buf());
      Emit(Zero(Rax), old(Buf()), []);
      Emit(Push(Rax), old(Buf()), [] + [Zero(Rax)]);
      p := [Zero(Rax), Push(Rax)];
      assert [] + [Zero(Rax)] + [Push(Rax)] == p;
    }

    // A new variable in the frame.
    twostate lemma Added(x: Ident)
      requires old(Placed()) && x !in old(vars)
      requires vars == old(vars)[x := VarDef(NextOffset(old(localSp)), blockLevel, true)]
      requires localSp == old(localSp) + 1 && fns == old(fns) && parCount == old(parCount)
               && blockLevel == old(blockLevel) && argCode == []
      ensures Fr() == Grow(old(Fr()), x) && Placed() && Grew()
    {
      assert Offsets(vars) == Offsets(old(vars))[x := NextOffset(old(localSp))];
      GrowLayout(old(Fr()), x);
      assert x !in old(vars).Keys && vars.Keys == old(vars).Keys + {x};
      assert |vars| == |vars.Keys| && |old(vars)| == |old(vars).Keys|;
    }

    // After an assignment to x.
    twostate lemma Assigned(x: Ident)
      requires old(Placed()) && fns == old(fns) && parCount == old(parCount) && blockLevel == old(blockLevel)
               && argCode == []
      requires if x in old(vars) then vars == old(vars) && localSp == old(localSp)
               else
                 && vars == old(vars)[x := VarDef(NextOffset(old(localSp)), blockLevel, true)]
                 && localSp == old(localSp) + 1
      ensures Fr() == (if x in old(vars) then old(Fr()) else Grow(old(Fr()), x)) && Placed() && Grew()
    {
      if x !in old(vars) {
        Added(x);
      } else {
        NewVarsNone(vars, localSp, blockLevel);
      }
    }

    lemma NewVarFacts(fr: Frame, x: Ident)
      requires InFragment(fr, NewVar(x))
      ensures x !in fr.sc.vars && Place(fr, NewVar(x)) == Some(Grow(fr, x))
    {
    }

    /** Declares a variable of type I64. */
    method ParseVar(ghost x: Ident, ghost k: Tokens) returns (ok: bool, ghost p: seq<Instr>)
      requires toks == Tok(Id(x), Tok(TypeI64, k)) && Placed() && !state.Ax? && InFragment(Fr(), NewVar(x))
      modifies this`toks, this`vars, this`argCode, this`out, this`localSp
      ensures KeepsCalls()
      ensures Compiled(NewVar(x), k, ok, p)
    {
      hide KnownCalls, Layout, Flow.AllocCode, Flow.Finished, Grow;
      NewVarFacts(Fr(), x);
      var id := toks.head.name;
      toks := toks.tail;
      toks := toks.tail;
      AddLocalVar(id, true);
      p := EmitAllocLocalVar();
      Added(x);
      Flow.NewVarFinished(old(Fr()), x, labelNo);
      ok := true;
    }

    /** Assigns a constant to the variable at off. */
    method EmitAssignVariableConstInt(asg: AssignOp, off: int, n: nat) returns (ghost c: seq<Instr>)
      requires n <= MAX_LIT
      modifies this`argCode, this`out, this`localSp
      ensures KeepsCalls()
      ensures Buf() == Extend(old(Buf()), c) && localSp == old(localSp)
      ensures Flow.StoresConst(c, asg, off, n) && NoLabels(c)
    {
      hide KnownCalls, Extend, Flow.StoresConst;
      ghost var b := Buf();
      ExtendNothing(b);
      if asg.DivBy? {
        Emit(MovImm(Rcx, n), b, []);
        Emit(Load(Rax, off), b, [] + [MovImm(Rcx, n)]);
        Emit(Cqo, b, [] + [MovImm(Rcx, n)] + [Load(Rax, off)]);
        c := [] + [MovImm(Rcx, n)] + [Load(Rax, off)] + [Cqo];
        Emit(Idiv(Rcx), b, c);
        Emit(Store(off, Rax), b, c + [Idiv(Rcx)]);
        c := c + [Idiv(Rcx)] + [Store(off, Rax)];
      } else if asg.MulBy? {
        Emit(MovImm(Rbx, n), b, []);
        Emit(Load(Rax, off), b, [] + [MovImm(Rbx, n)]);
        Emit(Imul(Rbx), b, [] + [MovImm(Rbx, n)] + [Load(Rax, off)]);
        c := [] + [MovImm(Rbx, n)] + [Load(Rax, off)] + [Imul(Rbx)];
        Emit(Store(off, Rax), b, c);
        c := c + [Store(off, Rax)];
      } else if asg.SetTo? {
        Emit(StoreImm(off, n), b, []);
        c := [] + [StoreImm(off, n)];
      } else {
        Emit(AluMemImm(Flow.AluOfAssign(asg), off, n), b, []);
        c := [] + [AluMemImm(Flow.AluOfAssign(asg), off, n)];
      }
      assert c == Flow.StoreConstCode(asg, off, n);
      Flow.StoreConstStores(asg, off, n);
    }

    /**
     Assigns the top of the stack to the variable at off, and pops it. The two-operand forms take rax, wherever the top
     of the stack is, and pop nothing.
     */
    method EmitAssignVariableExpressionInt(asg: AssignOp, off: int) returns (ghost c: seq<Instr>)
      requires !state.Undef?
      modifies this`argCode, this`out, this`localSp, this`state
      ensures KeepsCalls()
      ensures Buf() == Extend(old(Buf()), c) && NoLabels(c)
      ensures asg.DivBy? ==> Flow.DividesInto(c, off) && localSp == old(localSp)
      ensures asg.MulBy? ==> Flow.Stores(c, asg, off) && localSp == old(localSp)
      ensures !asg.DivBy? && !asg.MulBy? ==>
                Flow.StoresTop(c, asg, off, old(state)) && localSp == Depth(old(state), old(localSp)) - 1
    {
      hide KnownCalls, Extend, Flow.Stores, Flow.StoresTop, Flow.DividesInto;
      ghost var b := Buf();
      ExtendNothing(b);
      if asg.MulBy? {
        Emit(ImulMem(Rax, off), b, []);
        Emit(Store(off, Rax), b, [] + [ImulMem(Rax, off)]);
        c := [ImulMem(Rax, off), Store(off, Rax)];
        assert [] + [ImulMem(Rax, off)] + [Store(off, Rax)] == c;
        Flow.StoreCodeStores(asg, off);
      } else if asg.DivBy? {
        Emit(Load(Rcx, off), b, []);
        Emit(Cqo, b, [] + [Load(Rcx, off)]);
        Emit(Idiv(Rcx), b, [] + [Load(Rcx, off)] + [Cqo]);
        Emit(Store(off, Rax), b, [] + [Load(Rcx, off)] + [Cqo] + [Idiv(Rcx)]);
        c := [Load(Rcx, off), Cqo, Idiv(Rcx), Store(off, Rax)];
        assert [] + [Load(Rcx, off)] + [Cqo] + [Idiv(Rcx)] + [Store(off, Rax)] == c;
        Flow.DivCodeDivides(off);
      } else {
        c := EmitAssertTosInRax();
        ghost var p := Flow.StoreCode(asg, off);
        if asg.SetTo? {
          Emit(Store(off, Rax), b, c);
        } else {
          Emit(AluMem(Flow.AluOfAssign(asg), off, Rax), b, c);
        }
        Flow.StoreCodeStores(asg, off);
        Flow.StoresInRax(p, asg, off);
        Flow.PopThenStores(p, asg, off);
        assert [] + p == p;
        c := c + p;
        state := Sp;
      }
    }

    /** Assigns a value to a variable of type I64; a variable without a type gets the type of the value. */
    method GenerateAssignment(asg: AssignOp, x: Ident, v: Value) returns (ok: bool, ghost c: seq<Instr>)
      requires x in vars && (v.isConst ==> 0 <= v.n <= MAX_LIT) && (!v.isConst ==> !state.Undef?)
               && (!vars[x].typed ==> v.ty.IntT?)
      modifies this`vars, this`argCode, this`out, this`localSp, this`state
      ensures KeepsCalls()
      ensures ok <==> Flow.Assignable(v)
      ensures vars == old(vars)[x := old(vars)[x].(typed := true)]
      ensures ok ==>
                && Buf() == Extend(old(Buf()), c)
                && Flow.AssignsValue(c, asg, vars[x].offset, v, old(state))
                && localSp == Popped(asg, v, old(state), old(localSp))
                && state == if v.isConst then old(state) else Sp
    {
      hide KnownCalls, Extend, Flow.Stores, Flow.StoresTop, Flow.DividesInto, Flow.StoresConst;
      c := [];
      vars := vars[x := vars[x].(typed := true)];
      if v.isConst {
        if v.ty.BoolT? {
          return false, c;
        }
        c := EmitAssignVariableConstInt(asg, vars[x].offset, v.n);
        return true, c;
      }
      c := EmitAssignVariableExpressionInt(asg, vars[x].offset);
      state := Sp;
      return true, c;
    }

    /** The variable to assign to, created if the name is new. */
    method ParseLvalue(x: Ident) returns (ghost a: seq<Instr>)
      requires argCode == [] && !state.Ax?
      modifies this`vars, this`argCode, this`out, this`localSp, this`state
      ensures KeepsCalls()
      ensures argCode == [] && out == old(out) + a && state == old(state) && x in vars
      ensures x in old(vars) ==> a == [] && vars == old(vars) && localSp == old(localSp)
      ensures x !in old(vars) ==>
                && a == Flow.AllocCode() && localSp == old(localSp) + 1
                && vars == old(vars)[x := VarDef(NextOffset(old(localSp)), blockLevel, false)]
    {
      hide KnownCalls, Flow.AllocCode;
      a := [];
      assert out + [] == out;
      if x !in vars {
        AddLocalVar(x, false);
        a := EmitAllocLocalVar();
      }
      ghost var p := EmitFlushRax();
      assert out + [] == out;
    }

    // x++ and x--.
    method ParseStep(x: Ident, asg: AssignOp, ghost fr: Frame) returns (ghost p: seq<Instr>)
      requires argCode == [] && !state.Ax? && x in vars && vars[x].typed
      requires Layout(fr) && x in fr.sc.vars && fr.sc.vars[x] == vars[x].offset
      modifies this`vars, this`argCode, this`out, this`localSp, this`state
      ensures KeepsCalls()
      ensures argCode == [] && out == old(out) + p && !state.Ax? && localSp == old(localSp) && vars == old(vars)
      ensures Flow.Finished(fr, p, Update(x, asg, Lit(1)), fr, labelNo, labelNo)
    {
      hide KnownCalls, Layout, Flow.StoresConst, Flow.Finished;
      var ok;
      ok, p := GenerateAssignment(asg, x, Value(IntT, true, 1));
      assert vars == old(vars);
      Flow.UpdateConstFinished(fr, p, x, asg, Lit(1), 1, labelNo);
    }

    /** The right-hand side, in one fragment. */
    method ParseExpressions(ghost e: Expr, ghost k: Tokens) returns (r: Option<Value>, ghost c: seq<Instr>)
      requires argCode == [] && OkExpr(e) && toks == TokExpr(e, k) && AfterExpr(k) && Fragment(Sc(), AbsExpr(e))
      modifies this`toks, this`argCode, this`out, this`localSp, this`state, this`labelNo
      ensures KeepsCalls()
      ensures r == Static(Sc(), AbsExpr(e))
      ensures r.Some? ==>
                && toks == k && out == old(out) && argCode == [c] && old(labelNo) <= labelNo
                && Generates(Sc(), c, AbsExpr(e), Undef, state, old(labelNo), labelNo)
                && Depth(state, localSp) == old(localSp) + (if r.value.isConst then 0 else 1)
    {
      hide KnownCalls, Generates, Fragment, Static, TokExpr, AbsExpr, OkExpr, AfterExpr, Offsets, Extend, Forwards;
      NewArgCode();
      state := Undef;
      assert argCode == [[]];
      r, c := ParseExpression(e, k);
      if r.Some? {
        FirstFragment(old(out), c);
        JoinOne(c);
      }
    }

    // Joining a single fragment.
    method JoinOne(ghost c: seq<Instr>)
      requires argCode == [c]
      modifies this`argCode
      ensures argCode == [c] && KeepsCalls()
    {
      hide KnownCalls, Forwards;
      ConsArgCode(1, false);
      OneFragment(c);
    }

    // The last part of ParseAssign: the assignment itself, and all its code to the file.
    method AssignValue(asg: AssignOp, x: Ident, v: Value, ghost c: seq<Instr>) returns (ok: bool, ghost c2: seq<Instr>)
      requires argCode == [c] && x in vars && (v.isConst ==> 0 <= v.n <= MAX_LIT) && (!v.isConst ==> !state.Undef?)
      requires !vars[x].typed ==> v.ty.IntT?
      modifies this`vars, this`argCode, this`out, this`localSp, this`state
      ensures KeepsCalls()
      ensures ok <==> Flow.Assignable(v)
      ensures vars == old(vars)[x := old(vars)[x].(typed := true)]
      ensures ok ==>
                && argCode == [] && out == old(out) + (c + c2)
                && Flow.AssignsValue(c2, asg, vars[x].offset, v, old(state))
                && localSp == Popped(asg, v, old(state), old(localSp))
                && state == if v.isConst then old(state) else Sp
    {
      hide KnownCalls, Extend, Flow.AssignsValue, Popped;
      ok, c2 := GenerateAssignment(asg, x, v);
      if ok {
        OpenFragments(out, c, c2);
        OpenFragments(old(out), c, c2);
        ConsArgCode(|argCode|, false);
        OneFragment(c + c2);
        OutputArgCode();
      }
    }

    // The assignment operator has been consumed; code a has created the variable, if it is new.
    method ParseAssignValue(x: Ident, asg: AssignOp, ghost e: Expr, ghost k: Tokens, ghost fr: Frame,
                            ghost a: seq<Instr>)
      returns (ok: bool, ghost p: seq<Instr>)
      requires argCode == [] && !state.Ax? && OkExpr(e) && toks == TokExpr(e, k) && AfterExpr(k)
      requires Layout(fr) && fr.sc == Sc() && AssignOk(fr.sc, x, AbsExpr(e)) && x in vars
      requires vars[x].offset == SlotOf(fr, x) && (x in fr.sc.vars ==> vars[x].typed)
      requires a == (if x in fr.sc.vars then [] else Flow.AllocCode())
      modifies this`toks, this`vars, this`argCode, this`out, this`localSp, this`state, this`labelNo
      ensures KeepsCalls()
      ensures ok <==> Place(fr, Update(x, asg, AbsExpr(e))).Some?
      ensures ok ==>
                && toks == k && argCode == [] && out == old(out) + p && !state.Ax?
                && old(labelNo) <= labelNo
                && vars == old(vars)[x := old(vars)[x].(typed := true)]
                && localSp == old(localSp) + LeftOver(asg, AbsExpr(e))
      ensures ok && InFragment(fr, Update(x, asg, AbsExpr(e))) ==>
                && LeftOver(asg, AbsExpr(e)) == 0
                && Flow.Finished(fr, a + p, Update(x, asg, AbsExpr(e)), if x in fr.sc.vars then fr else Grow(fr, x),
                     old(labelNo), labelNo)
    {
      hide KnownCalls, Generates, Fragment, Static, TokExpr, AbsExpr, OkExpr, AfterExpr, Offsets, Layout,
           Flow.AllocCode, Flow.AssignsValue, Flow.Finished, Grow, Extend, SlotOf, Place, InFragment;
      ghost var e0 := AbsExpr(e);
      Flow.AssignFacts(fr, x, asg, e0);
      ghost var sc := Sc();
      p := [];
      var v;
      ghost var c, c2;
      v, c := ParseExpressions(e, k);
      if v.None? {
        return false, p;
      }
      ghost var s1 := state;
      Flow.ValueState(sc, c, e0, s1, old(labelNo), labelNo);
      ok, c2 := AssignValue(asg, x, v.value, c);
      if !ok {
        return;
      }
      p := c + c2;
      if InFragment(fr, Update(x, asg, e0)) {
        Flow.UpdateFacts(fr, x, asg, e0);
        Flow.AssignFinished(fr, a, c, c2, x, asg, e0, s1, old(labelNo), labelNo);
      }
    }

    // The operator of an assignment statement and what follows.
    method ParseAssignOp(x: Ident, ghost s: Stmt, ghost k: Tokens, ghost fr: Frame, ghost a: seq<Instr>)
      returns (ok: bool, ghost p: seq<Instr>)
      requires (s.SAssign? || s.SIncr? || s.SDecr?) && OkStmt(s) && AfterStmt(s, k) && TokStmt(s, k) == Tok(Id(x), toks)
      requires argCode == [] && !state.Ax? && Layout(fr) && fr.sc == Sc() && InFragment(fr, AbsStmt(s)) && x in vars
      requires vars[x].offset == SlotOf(fr, x) && (x in fr.sc.vars ==> vars[x].typed)
      requires a == (if x in fr.sc.vars then [] else Flow.AllocCode())
      modifies this`toks, this`vars, this`argCode, this`out, this`localSp, this`state, this`labelNo
      ensures KeepsCalls()
      ensures ok <==> Place(fr, AbsStmt(s)).Some?
      ensures ok ==>
                && toks == k && argCode == [] && out == old(out) + p && !state.Ax? && localSp == old(localSp)
                && old(labelNo) <= labelNo
                && vars == old(vars)[x := old(vars)[x].(typed := true)]
                && Flow.Finished(fr, a + p, AbsStmt(s), if x in fr.sc.vars then fr else Grow(fr, x), old(labelNo),
                     labelNo)
    {
      hide KnownCalls, TokStmt, OkStmt, TokExpr, AbsExpr, OkExpr, AfterExpr, Layout, Offsets, Flow.AllocCode,
           Flow.Finished, InFragment, Grow, AfterStmt, AbsStmt;
      Flow.AssignTokens(fr, s, k, x, toks);
      var t := toks.head;
      toks := toks.tail;
      if t.PlusPlus? {
        p := ParseStep(x, AddTo, fr);
        assert a + p == p;
        ok := true;
      } else if t.MinusMinus? {
        p := ParseStep(x, SubFrom, fr);
        assert a + p == p;
        ok := true;
      } else {
        Flow.UpdateFacts(fr, x, t.asg, AbsExpr(s.e));
        ok, p := ParseAssignValue(x, t.asg, s.e, k, fr, a);
      }
    }

    /** An assignment, x++ or x--; the name has been consumed. */
    method ParseAssign(x: Ident, ghost s: Stmt, ghost k: Tokens) returns (ok: bool, ghost p: seq<Instr>)
      requires (s.SAssign? || s.SIncr? || s.SDecr?) && OkStmt(s) && AfterStmt(s, k) && TokStmt(s, k) == Tok(Id(x), toks)
      requires Placed() && !state.Ax? && InFragment(Fr(), AbsStmt(s))
      modifies this`toks, this`vars, this`argCode, this`out, this`localSp, this`state, this`labelNo
      ensures KeepsCalls()
      ensures Compiled(AbsStmt(s), k, ok, p)
    {
      hide KnownCalls, TokStmt, OkStmt, Offsets, Flow.AllocCode, Flow.Finished, InFragment, Grow, AbsStmt, AfterStmt,
           Place, Layout, Scoped, NewVars, SlotOf, NextOffset, TokExpr, AbsExpr, OkExpr, AfterExpr;
      Flow.AssignTokens(Fr(), s, k, x, toks);
      ghost var fr := Fr();
      ghost var a := ParseLvalue(x);
      LvalueSlot(x, old(vars), vars, fr, blockLevel);
      ok, p := ParseAssignOp(x, s, k, fr, a);
      Assoc(old(out), a, p);
      p := a + p;
      if ok {
        Assigned(x);
      }
    }

    /** The statements up to a right brace, or up to the return at the end of a function. */
    method ParseStatements(ghost ts: Stmts, ghost k: Tokens) returns (ok: bool, ghost p: seq<Instr>)
      requires OkStmts(ts) && toks == TokStmts(ts, k) && EndsStmts(k)
      requires Placed() && !state.Ax? && InFragment(Fr(), AbsStmts(ts))
      modifies this`toks, this`vars, this`argCode, this`out, this`localSp, this`state, this`labelNo, this`blockLevel
      ensures KeepsCalls()
      ensures Compiled(AbsStmts(ts), k, ok, p)
      decreases ts, 0
    {
      hide KnownCalls, OkStmts, OkStmt, TokStmts, AbsStmts, AbsStmt, InFragment, Place, Layout, Offsets, Scoped,
           NewVars, Flow.Finished, Flow.Same;
      p := [];
      assert out + [] == out;
      ghost var done, rest := Skip, ts;
      NewVarsNone(vars, localSp, blockLevel);
      Flow.SkipFinished(Fr(), labelNo);
      Flow.SameStart(AbsStmts(ts));
      StmtsStep(Fr(), ts, k);
      while !(EndsStmts(toks) || (toks.Tok? && toks.head.Colon?))
        invariant KeepsCalls()
        invariant OkStmts(rest) && toks == TokStmts(rest, k) && (ts nonincreases to rest)
        invariant Placed() && !state.Ax? && Grew() && InFragment(Fr(), AbsStmts(rest))
        invariant Place(old(Fr()), AbsStmts(ts)) == Place(Fr(), AbsStmts(rest))
        invariant Flow.Same(Seq(done, AbsStmts(rest)), AbsStmts(ts))
        invariant out == old(out) + p && old(labelNo) <= labelNo
        invariant Flow.Finished(old(Fr()), p, done, Fr(), old(labelNo), labelNo)
        decreases rest
      {
        StmtsStep(Fr(), rest, k);
        ghost var fr, s, next, mid, vars1, sp1 := Fr(), AbsStmt(rest.s), AbsStmts(rest.rest), labelNo, vars, localSp;
        SeqFragment(fr, s, next);
        Flow.SameStep(AbsStmts(ts), done, s, next);
        ghost var q;
        ok, q := ParseLine(rest, k);
        if !ok {
          return;
        }
        NewVarsMore(old(vars), old(localSp), vars1, sp1, vars, localSp, blockLevel);
        Flow.SeqFinished(old(Fr()), p, done, fr, q, s, Fr(), old(labelNo), mid, labelNo);
        Assoc(old(out), p, q);
        p, done, rest := p + q, Seq(done, s), rest.rest;
        StmtsStep(Fr(), rest, k);
      }
      StmtsStep(Fr(), rest, k);
      StmtsEnd(Fr(), rest, k);
      Flow.SameEnd(done, AbsStmts(ts));
      Flow.FinishedSame(old(Fr()), p, done, AbsStmts(ts), Fr(), old(labelNo), labelNo);
      ok := true;
    }

    // One statement and the semicolon that may follow.
    method ParseLine(ghost ts: Stmts, ghost k: Tokens) returns (ok: bool, ghost p: seq<Instr>)
      requires ts.Cons? && OkStmts(ts) && toks == TokStmts(ts, k) && EndsStmts(k)
      requires Placed() && !state.Ax? && InFragment(Fr(), AbsStmts(ts))
      modifies this`toks, this`vars, this`argCode, this`out, this`localSp, this`state, this`labelNo, this`blockLevel
      ensures KeepsCalls()
      ensures Compiled(AbsStmt(ts.s), TokStmts(ts.rest, k), ok, p)
      decreases ts.s, 3
    {
      hide KnownCalls, OkStmts, OkStmt, TokStmts, AbsStmts, AbsStmt, InFragment, Place, Layout, Offsets, Scoped,
           NewVars, Flow.Finished;
      StmtsStep(Fr(), ts, k);
      ok, p := ParseStatement(ts.s, if ts.semi then Tok(Semi, TokStmts(ts.rest, k)) else TokStmts(ts.rest, k));
      if !ok {
        return;
      }
      if toks.Tok? && toks.head.Semi? {
        toks := toks.tail;
      }
      state := Undef;
    }

    method ParseStatement(ghost s: Stmt, ghost k: Tokens) returns (ok: bool, ghost p: seq<Instr>)
      requires OkStmt(s) && AfterStmt(s, k) && toks == TokStmt(s, k)
      requires Placed() && !state.Ax? && InFragment(Fr(), AbsStmt(s))
      modifies this`toks, this`vars, this`argCode, this`out, this`localSp, this`state, this`labelNo, this`blockLevel
      ensures KeepsCalls()
      ensures Compiled(AbsStmt(s), k, ok, p)
      decreases s, 2
    {
      hide KnownCalls, TokExpr, AbsExpr, OkExpr, Layout, Offsets, InFragment, Flow.Finished, OkStmts, OkElse, TokBlock,
           TokElse, TokCond, AbsStmts, AbsElse, AbsCond;
      var t := toks.head;
      if t.Id? {
        toks := toks.tail;
        ok, p := ParseAssign(t.name, s, k);
      } else if t.If? {
        ok, p := ParseIf(s, k);
      } else if t.Semi? {
        toks := toks.tail;
        p := [];
        assert out + [] == out;
        Flow.SkipFinished(Fr(), labelNo);
        ok := true;
      } else {
        toks := toks.tail;
        ok, p := ParseVar(s.x, k);
      }
    }

    /** The condition of an if: its code goes to the file, its value stays in rax. */
    method ParseCondition(ghost e: Expr, ghost k: Tokens) returns (r: Option<Value>, ghost c: seq<Instr>)
      requires argCode == [] && !state.Ax? && OkExpr(e) && toks == TokExpr(e, k) && AfterExpr(k)
      requires Fragment(Sc(), AbsExpr(e)) && IsDyn(Sc(), AbsExpr(e))
      modifies this`toks, this`argCode, this`out, this`localSp, this`state, this`labelNo
      ensures KeepsCalls()
      ensures r == Static(Sc(), AbsExpr(e))
      ensures r.Some? && r.value.ty.BoolT? ==>
                && toks == k && argCode == [] && out == old(out) + c && state == Ax && localSp == old(localSp)
                && Generates(Sc(), c, AbsExpr(e), old(state), Ax, old(labelNo), labelNo) && old(labelNo) <= labelNo
    {
      hide KnownCalls, Fragment, Static, TokExpr, AbsExpr, OkExpr, AfterExpr, Offsets, Generates, IsDyn;
      NewArgCode();
      r, c := ParseExpression(e, k);
      if r.None? {
        return;
      }
      assert [] + c == c;
      OutputArgCode();
      Flow.CondState(Sc(), c, AbsExpr(e), old(state), state, old(labelNo), labelNo);
    }

    method EmitJump(lbl: nat)
      modifies this`argCode, this`out
      ensures KeepsCalls()
      ensures Buf() == Extend(old(Buf()), [Jmp(lbl)])
      ensures old(argCode) == [] ==> argCode == [] && out == old(out) + [Jmp(lbl)]
    {
      hide KnownCalls;
      Write(Jmp(lbl));
    }

    method ParseIf(ghost s: Stmt, ghost k: Tokens) returns (ok: bool, ghost p: seq<Instr>)
      requires (s.SIf? || s.SCond?) && OkStmt(s) && AfterStmt(s, k) && toks == TokStmt(s, k)
      requires Placed() && !state.Ax? && InFragment(Fr(), AbsStmt(s))
      modifies this`toks, this`vars, this`argCode, this`out, this`localSp, this`state, this`labelNo, this`blockLevel
      ensures KeepsCalls()
      ensures Compiled(AbsStmt(s), k, ok, p)
      decreases s, 1
    {
      hide KnownCalls, OkStmt, TokStmt, AbsStmt, AfterStmt, InFragment, Place, Layout, Offsets, Scoped, NewVars,
           Flow.Finished, Generates, Fragment, Static;
      p := [];
      Flow.IfTokens(Fr(), s, k);
      toks := toks.tail;
      var v;
      ghost var cc, q;
      v, cc := ParseCondition(s.e, Flow.AfterCondition(s, k));
      if v.None? || !v.value.ty.BoolT? {
        return false, p;
      }
      if toks.Tok? && (toks.head.Colon? || toks.head.Qmark?) {
        toks := toks.tail;
        ok, q := ParseColonQmark(s, k, Fr(), cc, old(state), old(labelNo));
      } else {
        ok, q := ParseIfElse(s, k, Fr(), cc, old(state), old(labelNo));
      }
      Assoc(old(out), cc, q);
      p := cc + q;
      NewVarsNone(vars, localSp, blockLevel);
    }

    // Test, jump to lbl and the block after a condition in rax.
    method ParseBranch(lbl: nat, ghost ts: Stmts, ghost k: Tokens)
      returns (ok: bool, ghost p: seq<Instr>, ghost b: seq<Instr>)
      requires OkStmts(ts) && toks == TokStmts(ts, Tok(Rbrace, k))
      requires Placed() && state == Ax && InFragment(Fr(), AbsStmts(ts))
      modifies this`toks, this`vars, this`argCode, this`out, this`localSp, this`state, this`labelNo, this`blockLevel
      ensures KeepsCalls()
      ensures ok <==> Place(old(Fr()), Block(AbsStmts(ts))).Some?
      ensures ok ==>
                && toks == k && out == old(out) + p && Placed() && !state.Ax? && old(labelNo) <= labelNo
                && vars == old(vars) && localSp == old(localSp) && blockLevel == old(blockLevel)
                && p == ShortCircuit.TestJump(true, lbl) + b
                && Flow.Finished(old(Fr()), b, Block(AbsStmts(ts)), old(Fr()), old(labelNo), labelNo)
      decreases ts, 2
    {
      hide KnownCalls, OkStmts, TokStmts, AbsStmts, InFragment, Layout, Offsets, Scoped, NewVars, Flow.Finished, Place,
           ShortCircuit.TestJump;
      p, b := [], [];
      ghost var none := EmitAssertTosInRax();
      assert out + [] == out;
      ghost var t := EmitJumpFalse(lbl);
      ok, b := ParseBlock(ts, k);
      if ok {
        BlockPlace(old(Fr()), AbsStmts(ts));
        var closed := Found(Rbrace);
        Assoc(old(out), t, b);
        p := t + b;
      }
    }

    /** The code after the condition of `if`, up to the end of the chain. */
    method ParseIfElse(ghost s: Stmt, ghost k: Tokens, ghost fr: Frame, ghost cc: seq<Instr>, ghost s0: Cache,
                       ghost lo: nat)
      returns (ok: bool, ghost p: seq<Instr>)
      requires s.SIf? && OkStmt(s) && AfterStmt(s, k) && toks == TokBlock(s.body, TokElse(s.tail, k))
      requires Placed() && state == Ax && !s0.Ax? && Fr() == fr && InFragment(fr, AbsStmt(s))
               && CondOk(fr.sc, AbsExpr(s.e))
      requires Generates(fr.sc, cc, AbsExpr(s.e), s0, Ax, lo, labelNo)
      modifies this`toks, this`vars, this`argCode, this`out, this`localSp, this`state, this`labelNo, this`blockLevel
      ensures KeepsCalls()
      ensures ok <==> Place(fr, AbsStmt(s)).Some?
      ensures ok ==>
                && toks == k && out == old(out) + p && argCode == [] && !state.Ax? && old(labelNo) <= labelNo
                && vars == old(vars) && localSp == old(localSp) && blockLevel == old(blockLevel)
                && Place(fr, AbsStmt(s)) == Some(fr) && Flow.Finished(fr, cc + p, AbsStmt(s), fr, lo, labelNo)
      decreases s, 0
    {
      hide KnownCalls, OkStmts, OkStmt, OkElse, TokStmts, TokElse, AbsStmts, AbsStmt, AbsElse, AfterStmt, InFragment,
           Layout, Offsets, Scoped, NewVars, Flow.Finished, Place, Generates, CondOk, Flow.Unfinished, AbsExpr,
           AfterElse, ShortCircuit.TestJump, ShortCircuit.DynBool, Fragment, Static, IsDyn;
      Flow.IfParts(fr, s, k);
      Flow.BranchFacts(fr, true, AbsExpr(s.e), Block(AbsStmts(s.body)), AbsElse(s.tail));
      Flow.BlockFragment(fr, AbsStmts(s.body));
      toks := toks.tail;
      var L1 := NewLabel();
      ghost var q, b, r;
      ok, q, b := ParseBranch(L1, s.body, TokElse(s.tail, k));
      p := q;
      if !ok {
        return;
      }
      Flow.IfOpens(fr, cc, AbsExpr(s.e), s0, b, true, Block(AbsStmts(s.body)), AbsElse(s.tail), lo, L1, labelNo);
      ok, r := ParseElseChain(L1, s.tail, k, fr, cc + q, AbsStmt(s), lo);
      Assoc(old(out), q, r);
      Assoc(cc, q, r);
      p := q + r;
    }

    // The branch before jumps to a new label, and the last test, which has failed, goes on here.
    method LeaveBranch(L1: nat) returns (L2: nat)
      requires argCode == []
      modifies this`out, this`labelNo, this`argCode
      ensures KeepsCalls()
      ensures L2 == labelNo == old(labelNo) + 1 && argCode == []
      ensures out == old(out) + [Jmp(L2)] + [Label(L1)]
    {
      hide KnownCalls;
      L2 := NewLabel();
      EmitJump(L2);
      EmitLabel(L1);
    }

    // One turn of the loop over the else branches, with a condition: jump j leaves the chain, l is the label of the
    // last test.
    method ElseIfTurn(j: nat, ghost l: nat, ghost t: ElseTail, ghost k: Tokens, ghost fr: Frame, ghost out0: seq<Instr>,
                      ghost p0: seq<Instr>, ghost p: seq<Instr>, ghost c: Cmd, ghost lo: nat)
      returns (ok: bool, L1: nat, ghost p': seq<Instr>)
      requires t.ElseIf? && OkElse(t) && Tok(Token.Else, toks) == TokElse(t, k)
      requires Placed() && !state.Ax? && Fr() == fr && InFragment(fr, AbsElse(t))
      requires j == labelNo >= 1 && out == out0 + p + [Jmp(j)] + [Label(l)]
               && Flow.Unfinished(fr, p0 + p, l, c, AbsElse(t), lo, j - 1)
      modifies this`toks, this`vars, this`argCode, this`out, this`localSp, this`state, this`labelNo, this`blockLevel
      ensures KeepsCalls()
      ensures ok ==> (Place(fr, AbsElse(t)).Some? <==> Place(fr, AbsElse(t.tail)).Some?)
      ensures !ok ==> Place(fr, AbsElse(t)).None?
      ensures ok ==>
                && toks == TokElse(t.tail, k) && OkElse(t.tail) && InFragment(fr, AbsElse(t.tail))
                && Placed() && !state.Ax? && old(labelNo) <= labelNo
                && vars == old(vars) && localSp == old(localSp) && blockLevel == old(blockLevel)
                && out == out0 + p' && L1 != 0 && Flow.Unfinished(fr, p0 + p', L1, c, AbsElse(t.tail), lo, labelNo)
      decreases t, 3
    {
      hide KnownCalls, OkElse, TokElse, AbsElse, InFragment, Layout, Offsets, Scoped, Place, Flow.Unfinished,
           Flow.Detour, Extend;
      ghost var q;
      ok, L1, q := ParseElseIf(j, t, k);
      p' := p + Flow.Detour(j, l, q, [Jmp(j)]);
      if ok {
        Flow.ElseIfStep(fr, out0, p0, p, l, c, AbsElse(t), q, L1, AbsElse(t.tail), lo, j, labelNo);
      }
    }

    // The last turn.
    method ElseBlockTurn(j: nat, ghost l: nat, ghost t: ElseTail, ghost k: Tokens, ghost fr: Frame,
                         ghost out0: seq<Instr>, ghost p0: seq<Instr>, ghost p: seq<Instr>, ghost c: Cmd, ghost lo: nat)
      returns (ok: bool, ghost p': seq<Instr>)
      requires t.Else? && OkElse(t) && Tok(Token.Else, toks) == TokElse(t, k)
      requires Placed() && !state.Ax? && Fr() == fr && InFragment(fr, AbsElse(t))
      requires j == labelNo >= 1 && out == out0 + p + [Jmp(j)] + [Label(l)]
               && Flow.Unfinished(fr, p0 + p, l, c, AbsElse(t), lo, j - 1)
      modifies this`toks, this`vars, this`argCode, this`out, this`localSp, this`state, this`labelNo, this`blockLevel
      ensures KeepsCalls()
      ensures ok <==> Place(fr, AbsElse(t)).Some?
      ensures ok ==>
                && toks == k && Placed() && !state.Ax? && old(labelNo) <= labelNo
                && vars == old(vars) && localSp == old(localSp) && blockLevel == old(blockLevel)
                && out == out0 + p' && Flow.Finished(fr, p0 + p' + [Label(j)], c, fr, lo, labelNo)
      decreases t, 3
    {
      hide KnownCalls, OkElse, TokElse, AbsElse, InFragment, Layout, Offsets, Scoped, Place, Flow.Unfinished,
           Flow.Finished, Flow.Detour, Extend;
      ghost var q;
      ok, q := ParseElseBlock(t, k);
      p' := p + ([Jmp(j)] + ([Label(l)] + q));
      if ok {
        Flow.ElseBlockStep(fr, out0, p0, p, l, c, AbsElse(t), q, lo, j, labelNo);
      }
    }

    // The loop over the else branches; l is the label of the last test, not placed yet.
    method ParseElseChain(l: nat, ghost tail: ElseTail, ghost k: Tokens, ghost fr: Frame, ghost p0: seq<Instr>,
                          ghost c: Cmd, ghost lo: nat)
      returns (ok: bool, ghost p: seq<Instr>)
      requires l > 0 && OkElse(tail) && AfterElse(k) && toks == TokElse(tail, k)
      requires Placed() && !state.Ax? && Fr() == fr && InFragment(fr, AbsElse(tail))
      requires Flow.Unfinished(fr, p0, l, c, AbsElse(tail), lo, labelNo)
      modifies this`toks, this`vars, this`argCode, this`out, this`localSp, this`state, this`labelNo, this`blockLevel
      ensures KeepsCalls()
      ensures ok <==> Place(fr, AbsElse(tail)).Some?
      ensures ok ==>
                && toks == k && out == old(out) + p && argCode == [] && !state.Ax? && old(labelNo) <= labelNo
                && vars == old(vars) && localSp == old(localSp) && blockLevel == old(blockLevel)
                && Flow.Finished(fr, p0 + p, c, fr, lo, labelNo)
      decreases tail, 4
    {
      hide KnownCalls, OkElse, TokElse, AbsElse, AfterElse, InFragment, Layout, Offsets, Scoped, Flow.Finished, Place,
           Flow.Unfinished, Flow.Detour, Extend;
      var L1, L2 := l, 0;
      ghost var rest := tail;
      p := [];
      assert out + [] == out && p0 + [] == p0;
      while toks.Tok? && toks.head.Else?
        invariant KeepsCalls()
        invariant Placed() && !state.Ax? && old(labelNo) <= labelNo
        invariant vars == old(vars) && localSp == old(localSp) && blockLevel == old(blockLevel)
        invariant OkElse(rest) && toks == TokElse(rest, k) && InFragment(fr, AbsElse(rest))
                  && (rest.NoElse? || (tail nonincreases to rest))
        invariant Place(fr, AbsElse(tail)).Some? <==> Place(fr, AbsElse(rest)).Some?
        invariant out == old(out) + p
        invariant if L1 != 0 then L2 == 0 && Flow.Unfinished(fr, p0 + p, L1, c, AbsElse(rest), lo, labelNo)
                  else L2 != 0 && rest.NoElse? && Flow.Finished(fr, p0 + p + [Label(L2)], c, fr, lo, labelNo)
        decreases Flow.Branches(rest)
      {
        Flow.ElseStep(fr, rest, k);
        ghost var l1 := L1;
        toks := toks.tail;
        L2 := LeaveBranch(L1);
        L1 := 0;
        if toks.Tok? && toks.head.If? {
          ok, L1, p := ElseIfTurn(L2, l1, rest, k, fr, old(out), p0, p, c, lo);
          if !ok {
            return;
          }
          rest := rest.tail;
          L2 := 0;
        } else {
          ok, p := ElseBlockTurn(L2, l1, rest, k, fr, old(out), p0, p, c, lo);
          if !ok {
            return;
          }
          rest := NoElse;
          Flow.NoElseFacts(fr, k);
        }
      }
      Flow.ElseEnds(fr, rest, k);
      Flow.LabelJoined(old(out), p0, p, L1 + L2);
      if L1 != 0 {
        Flow.IfEnds(fr, p0 + p, L1, c, lo, labelNo);
        EmitLabel(L1);
      }
      if L2 != 0 {
        EmitLabel(L2);
      }
      p := p + [Label(L1 + L2)];
      ok := true;
    }

    // After `else`: a condition and its block, whose end jumps to lbl and meets it.
    method ParseElseIf(lbl: nat, ghost t: ElseTail, ghost k: Tokens) returns (ok: bool, L1: nat, ghost p: seq<Instr>)
      requires t.ElseIf? && OkElse(t) && Tok(Token.Else, toks) == TokElse(t, k)
      requires Placed() && !state.Ax? && InFragment(Fr(), AbsElse(t))
      modifies this`toks, this`vars, this`argCode, this`out, this`localSp, this`state, this`labelNo, this`blockLevel
      ensures KeepsCalls()
      ensures ok ==> (Place(old(Fr()), AbsElse(t)).Some? <==> Place(old(Fr()), AbsElse(t.tail)).Some?)
      ensures !ok ==> Place(old(Fr()), AbsElse(t)).None?
      ensures ok ==>
                && toks == TokElse(t.tail, k) && Placed() && !state.Ax? && old(labelNo) <= labelNo
                && out == old(out) + (p + ([Jmp(lbl)] + [Label(lbl)]))
                && vars == old(vars) && localSp == old(localSp) && blockLevel == old(blockLevel)
                && Flow.Unfinished(old(Fr()), p, L1, AbsElse(t), AbsElse(t.tail), old(labelNo), labelNo)
                && OkElse(t.tail) && InFragment(old(Fr()), AbsElse(t.tail))
      decreases t, 0
    {
      hide KnownCalls, OkElse, TokElse, AbsElse, OkStmts, TokStmts, AbsStmts, InFragment, Layout, Offsets, Scoped,
           Flow.Finished, Flow.Unfinished, Place, Generates, Static, Fragment, IsDyn, CondOk, ShortCircuit.TestJump,
           AbsExpr, OkExpr, TokExpr, Extend, AfterExpr, ShortCircuit.DynBool;
      ghost var fr, s0 := Fr(), state;
      Flow.ElseIfParts(fr, t, k);
      L1, p := 0, [];
      toks := toks.tail;
      var v;
      ghost var cc, q, b;
      v, cc := ParseCondition(t.e, TokBlock(t.body, TokElse(t.tail, k)));
      if v.None? {
        return false, L1, p;
      }
      // The type of this condition is not checked.
      L1 := NewLabel();
      var open := Found(Lbrace);
      ok, q, b := ParseBranch(L1, t.body, TokElse(t.tail, k));
      if !ok {
        return;
      }
      Flow.IfOpens(fr, cc, AbsExpr(t.e), s0, b, false, Block(AbsStmts(t.body)), AbsElse(t.tail), old(labelNo), L1,
        labelNo);
      MeetHere(lbl);
      Flow.BranchJoined(old(out), cc, q, lbl);
      p := cc + q;
    }

    // A jump to the label that follows.
    method MeetHere(lbl: nat)
      requires argCode == []
      modifies this`argCode, this`out
      ensures argCode == [] && out == old(out) + [Jmp(lbl)] + [Label(lbl)] && KeepsCalls()
    {
      hide KnownCalls;
      EmitJump(lbl);
      EmitLabel(lbl);
    }

    method ParseElseBlock(ghost t: ElseTail, ghost k: Tokens) returns (ok: bool, ghost p: seq<Instr>)
      requires t.Else? && OkElse(t) && Tok(Token.Else, toks) == TokElse(t, k)
      requires Placed() && !state.Ax? && InFragment(Fr(), AbsElse(t))
      modifies this`toks, this`vars, this`argCode, this`out, this`localSp, this`state, this`labelNo, this`blockLevel
      ensures KeepsCalls()
      ensures ok <==> Place(old(Fr()), AbsElse(t)).Some?
      ensures ok ==>
                && toks == k && Placed() && !state.Ax? && old(labelNo) <= labelNo && out == old(out) + p
                && vars == old(vars) && localSp == old(localSp) && blockLevel == old(blockLevel)
                && Flow.Finished(old(Fr()), p, AbsElse(t), old(Fr()), old(labelNo), labelNo)
      decreases t, 0
    {
      hide KnownCalls, OkElse, TokElse, AbsElse, OkStmts, TokStmts, AbsStmts, InFragment, Layout, Offsets, Scoped,
           NewVars, Flow.Finished, Place;
      Flow.ElseParts(Fr(), t, k);
      BlockPlace(Fr(), AbsStmts(t.body));
      var open := Found(Lbrace);
      ok, p := ParseBlock(t.body, k);
      if ok {
        var closed := Found(Rbrace);
      }
    }

    /** The code after the condition of `if c ? a : b`. */
    method ParseColonQmark(ghost s: Stmt, ghost k: Tokens, ghost fr: Frame, ghost cc: seq<Instr>, ghost s0: Cache,
                           ghost lo: nat)
      returns (ok: bool, ghost p: seq<Instr>)
      requires s.SCond? && OkStmt(s) && AfterStmt(s, k) && toks == TokStmt(s.a, TokCond(s.more, k))
      requires Placed() && state == Ax && !s0.Ax? && Fr() == fr && InFragment(fr, AbsStmt(s))
               && CondOk(fr.sc, AbsExpr(s.e))
      requires Generates(fr.sc, cc, AbsExpr(s.e), s0, Ax, lo, labelNo)
      modifies this`toks, this`vars, this`argCode, this`out, this`localSp, this`state, this`labelNo, this`blockLevel
      ensures KeepsCalls()
      ensures ok <==> Place(fr, AbsStmt(s)).Some?
      ensures ok ==>
                && toks == k && out == old(out) + p && argCode == [] && !state.Ax? && old(labelNo) <= labelNo
                && vars == old(vars) && localSp == old(localSp) && blockLevel == old(blockLevel)
                && Place(fr, AbsStmt(s)) == Some(fr) && Flow.Finished(fr, cc + p, AbsStmt(s), fr, lo, labelNo)
      decreases s, 0
    {
      hide KnownCalls, OkStmt, TokStmt, TokCond, AbsStmt, AbsCond, AfterStmt, InFragment, Layout, Offsets, Scoped,
           NewVars, Flow.Finished, Flow.Unfinished, Flow.Detour, Place, Generates, CondOk, AbsExpr,
           ShortCircuit.TestJump, ShortCircuit.DynBool, Fragment, Static, IsDyn, Extend, OkCond;
      Flow.CondParts(fr, s, k);
      p := [];
      var L1 := NewLabel();
      ghost var none := EmitAssertTosInRax();
      ExtendNothing(Code(old(out), []));
      ghost var t := EmitJumpFalse(L1);
      ExtendFile(old(out), t);
      ghost var a;
      ok, a := ParseStatement(s.a, TokCond(s.more, k));
      if !ok {
        return;
      }
      NewVarsSame(old(vars), old(localSp), vars, localSp, blockLevel);
      Flow.IfOpens(fr, cc, AbsExpr(s.e), s0, a, true, AbsStmt(s.a), AbsCond(s.more), lo, L1, labelNo);
      Flow.TestJoined(old(out), cc, t, a);
      p := t + a;
      ghost var q;
      ok, q := ParseCondTail(L1, s.more, k, fr, cc + p, AbsStmt(s), lo);
      Assoc(old(out), p, q);
      Assoc(cc, p, q);
      p := p + q;
    }

    // What follows the first statement: a colon and the second statement, or nothing.
    method ParseCondTail(l: nat, ghost more: CondTail, ghost k: Tokens, ghost fr: Frame, ghost p0: seq<Instr>,
                         ghost c: Cmd, ghost lo: nat)
      returns (ok: bool, ghost p: seq<Instr>)
      requires OkCond(more) && AfterCond(more, k) && toks == TokCond(more, k)
      requires Placed() && !state.Ax? && Fr() == fr && InFragment(fr, AbsCond(more))
      requires Place(fr, AbsCond(more)).Some? ==> Place(fr, AbsCond(more)) == Some(fr)
      requires Flow.Unfinished(fr, p0, l, c, AbsCond(more), lo, labelNo)
      modifies this`toks, this`vars, this`argCode, this`out, this`localSp, this`state, this`labelNo, this`blockLevel
      ensures KeepsCalls()
      ensures ok <==> Place(fr, AbsCond(more)).Some?
      ensures ok ==>
                && toks == k && out == old(out) + p && argCode == [] && !state.Ax? && old(labelNo) <= labelNo
                && vars == old(vars) && localSp == old(localSp) && blockLevel == old(blockLevel)
                && Flow.Finished(fr, p0 + p, c, fr, lo, labelNo)
      decreases more, 4
    {
      hide KnownCalls, OkStmt, TokStmt, AbsStmt, AfterStmt, InFragment, Layout, Offsets, Scoped, NewVars, Flow.Finished,
           Flow.Unfinished, Flow.Detour, Place, Extend;
      p := [];
      var colon := Found(Colon);
      if colon {
        var L2 := LeaveBranch(l);
        ghost var q;
        ok, q := ParseStatement(more.b, k);
        if !ok {
          return;
        }
        NewVarsSame(old(vars), old(localSp), vars, localSp, blockLevel);
        EmitLabel(L2);
        Flow.CondElseStep(fr, old(out), p0, l, c, AbsCond(more), q, lo, L2, labelNo);
        p := [Jmp(L2)] + ([Label(l)] + q) + [Label(L2)];
      } else {
        Flow.SkipPlace(fr);
        Flow.IfEnds(fr, p0, l, c, lo, labelNo);
        EmitLabel(l);
        p := [Label(l)];
        ok := true;
      }
    }

    /** The statements of a block and its right brace; its variables end with it. */
    method ParseBlock(ghost ts: Stmts, ghost k: Tokens) returns (ok: bool, ghost p: seq<Instr>)
      requires OkStmts(ts) && toks == TokStmts(ts, Tok(Rbrace, k))
      requires Placed() && !state.Ax? && InFragment(Fr(), AbsStmts(ts))
      modifies this`toks, this`vars, this`argCode, this`out, this`localSp, this`state, this`labelNo, this`blockLevel
      ensures KeepsCalls()
      ensures Compiled(Block(AbsStmts(ts)), Tok(Rbrace, k), ok, p)
      ensures ok ==> vars == old(vars)
      decreases ts, 1
    {
      hide KnownCalls;
      BlockPlace(Fr(), AbsStmts(ts));
      hide OkStmts, TokStmts, AbsStmts, InFragment, Flow.Finished, Flow.Extends, Layout, Offsets, Place, Scoped,
           NewVars;
      ScopedMore(vars, blockLevel);
      blockLevel := blockLevel + 1;
      ok, p := ParseStatements(ts, Tok(Rbrace, k));
      if !ok {
        return;
      }
      ghost var fr1 := Fr();
      OuterVars(old(vars), vars, fns, old(localSp), localSp, old(blockLevel), parCount);
      ghost var q := FreeBlockVars(blockLevel);
      SameVars(old(vars), vars);
      blockLevel := blockLevel - 1;
      NewVarsNone(vars, localSp, blockLevel);
      assert Fr() == old(Fr());
      Flow.BlockFinished(old(Fr()), p, AbsStmts(ts), fr1, old(labelNo), labelNo);
      Assoc(old(out), p, q);
      p := p + q;
      assert Placed();
      assert Grew();
    }

    // ----- function bodies -----

    method AddLocalPar(x: Ident)
      modifies this`vars, this`parCount
      ensures parCount == old(parCount) + 1
      ensures vars == old(vars)[x := VarDef(ParOffset(parCount), 0, true)]
    {
      parCount := parCount + 1;
      vars := vars[x := VarDef(8 + parCount * 8, 0, true)];
    }

    /** The formal parameters, by name. */
    method ParseFormalArgList(pars: seq<Ident>)
      modifies this`vars, this`parCount
      ensures Offsets(vars) == Flow.ParOffsets(pars) && parCount == |pars|
      ensures forall x :: x in vars ==> vars[x].typed && vars[x].blockLevel == 0
    {
      parCount := 0;
      vars := map[];
      assert pars[..0] == [];
      for i := 0 to |pars|
        invariant parCount == i && Offsets(vars) == Flow.ParOffsets(pars[..i])
        invariant forall x :: x in vars ==> vars[x].typed && vars[x].blockLevel == 0
      {
        ghost var before := vars;
        AddLocalPar(pars[i]);
        assert Offsets(vars) == Offsets(before)[pars[i] := ParOffset(i + 1)];
        assert pars[..i + 1][..i] == pars[..i];
      }
      assert pars[..|pars|] == pars;
    }

    // The start of a function: its parameters, and the label that returns go to.
    method BeginFunction(pars: seq<Ident>) returns (returnLbl: nat)
      requires argCode == []
      modifies this`vars, this`parCount, this`blockLevel, this`localSp, this`state, this`labelNo, this`start
      ensures start == |out| && KnownCalls(fns, start, Buf())
      ensures Placed() && state == Undef && Fr() == Frame(Scope(Flow.ParOffsets(pars), fns), 0, |pars|)
              && blockLevel == 1
      ensures forall x :: x in vars ==> vars[x].blockLevel == 0
      ensures returnLbl == labelNo == old(labelNo) + 1
    {
      hide Layout, Offsets, Flow.ParOffsets, Scoped;
      start := |out|;
      blockLevel := 1;
      localSp := 0;
      ParseFormalArgList(pars);
      Flow.StartLayout(pars, fns);
      state := Undef;
      returnLbl := NewLabel();
      ParScoped(vars);
    }

    /**
     The body of a function: at its end no local variable is left and LocalSp is 0 again, so that the
     compiler does not report a stack error.
     */
    method ParseFuncBody(pars: seq<Ident>, ghost ts: Stmts, ghost k: Tokens) returns (ok: bool, ghost p: seq<Instr>)
      requires OkStmts(ts) && toks == TokStmts(ts, Tok(Rbrace, k)) && argCode == []
      requires InFragment(Frame(Scope(Flow.ParOffsets(pars), fns), 0, |pars|), AbsStmts(ts))
      modifies this
      ensures var fr := Frame(Scope(Flow.ParOffsets(pars), old(fns)), 0, |pars|);
              && (ok <==> Place(fr, AbsStmts(ts)).Some?)
              && (ok ==>
                    && toks == k && out == old(out) + p && argCode == [] && Fr() == fr
                    && Flow.Finished(fr, p, Block(AbsStmts(ts)), fr, old(labelNo), labelNo)
                    && CallsIn(old(fns), p))
    {
      hide KnownCalls, CallsIn, OkStmts, TokStmts, AbsStmts, InFragment, Place, Flow.Finished, Layout, Offsets,
           Flow.ParOffsets, Flow.Extends, Flow.DropCode, Scoped, NewVars, Extend;
      p := [];
      var returnLbl := BeginFunction(pars);
      ghost var fr, vars0 := Fr(), vars;
      ok, p := ParseStatements(ts, Tok(Rbrace, k));
      if !ok {
        return;
      }
      var closed := Found(Rbrace);
      ghost var q;
      ok, q := EndFuncBody(returnLbl, fr, vars0, p, AbsStmts(ts));
      Assoc(old(out), p, q);
      p := p + q;
      KnownSuffix(fns, old(out), p);
    }

    // The return statement at the end of a function with one result of type I64; the keyword has been consumed.
    method ParseReturn(returnLbl: nat, ghost e: Expr, ghost k: Tokens) returns (ok: bool, ghost p: seq<Instr>)
      requires argCode == [] && !state.Ax? && OkExpr(e) && toks == TokExpr(e, k) && AfterExpr(k)
               && Fragment(Sc(), AbsExpr(e))
      modifies this`toks, this`argCode, this`out, this`localSp, this`state, this`labelNo
      ensures KeepsCalls()
      ensures ok <==> Static(Sc(), AbsExpr(e)).Some?
      ensures ok ==>
                && toks == k && argCode == [] && out == old(out) + p && old(labelNo) <= labelNo
                && localSp == old(localSp) + (if AbsExpr(e).Apply? then 1 else 0)
                && (!AbsExpr(e).Apply? ==>
                      Labelled(p, old(labelNo), labelNo) && Flow.Returns(old(Fr()), p, AbsExpr(e), returnLbl))
    {
      hide KnownCalls, Fragment, Static, TokExpr, AbsExpr, OkExpr, AfterExpr, Offsets, Generates, Extend, Forwards,
           Labelled, Flow.Returns, LoadConst;
      p := [];
      NewArgCode();
      assert argCode == [[]];
      var r;
      ghost var c;
      r, c := ParseExpression(e, k);
      if r.None? {
        return false, p;
      }
      FirstFragment(old(out), c);
      ReturnState(Sc(), AbsExpr(e), c, old(state), state, old(labelNo), labelNo);
      ghost var s1, q := state, [];
      assert c + [] == c;
      if r.value.isConst {
        ConstInRange(Sc(), AbsExpr(e));
        if r.value.ty.IntT? {
          q := EmitPushConst(r.value.n);
        } else {
          q := EmitPushConst(if r.value.n != 0 then 1 else 0);
        }
        OpenFragments(old(out), c, q);
        assert [] + [LoadConst(r.value.n)] == [LoadConst(r.value.n)];
      }
      StoreReturn(returnLbl, c + q);
      p := (c + q) + Flow.ReturnCode(parCount, returnLbl);
      if !AbsExpr(e).Apply? {
        Flow.ReturnFinished(old(Fr()), c, q, AbsExpr(e), old(state), s1, returnLbl, old(labelNo), labelNo);
      }
      ok := true;
    }

    // The returned value is in rax: it goes to the return slot, and all the code to the file.
    method StoreReturn(returnLbl: nat, ghost d: seq<Instr>)
      requires argCode == [d]
      modifies this`argCode, this`out, this`localSp, this`state
      ensures KeepsCalls()
      ensures argCode == [] && out == old(out) + (d + Flow.ReturnCode(parCount, returnLbl)) && state == Sp
              && localSp == old(localSp)
    {
      hide KnownCalls, Extend, Forwards, Flow.ReturnCode;
      FirstFragment(out, d);
      ghost var d1 := d + [Store(RetOffset(parCount, 0), Rax)];
      Emit(Store(RetOffset(parCount, 0), Rax), Code(out, [[]]), d);
      state := Sp;
      FirstFragment(out, d1);
      FirstFragment(old(out), d1);
      JoinOne(d1);
      OutputArgCode();
      EmitJump(returnLbl);
      Flow.ReturnJoined(old(out), d, parCount, returnLbl);
    }

    lemma ReturnTokens(e: Expr, semi: bool, k: Tokens)
      ensures EndsStmts(TokReturn(e, semi, k)) && TokReturn(e, semi, k) == Tok(Return, TokExpr(e, AfterReturn(semi, k)))
      ensures AfterExpr(AfterReturn(semi, k))
    {
    }

    /**
     The body of a function with one result of type I64, which ends with `return e`: whoever calls it gets the value of
     e after the statements, for the arguments of the call. When e is a bare call its result is left on the stack, which
     is reported.
     */
    method ParseValueBody(pars: seq<Ident>, ghost ts: Stmts, ghost e: Expr, ghost semi: bool, ghost k: Tokens)
      returns (ok: bool, ghost p: seq<Instr>)
      requires OkStmts(ts) && OkExpr(e) && toks == TokStmts(ts, TokReturn(e, semi, k)) && argCode == []
      requires var fr := Frame(Scope(Flow.ParOffsets(pars), fns), 0, |pars|);
               InFragment(fr, AbsStmts(ts)) && (Place(fr, AbsStmts(ts)).Some? ==>
                 Fragment(Place(fr, AbsStmts(ts)).value.sc, AbsExpr(e)))
      modifies this
      ensures var fr := Frame(Scope(Flow.ParOffsets(pars), old(fns)), 0, |pars|);
              && (ok <==> ReturnAccepted(fr, AbsStmts(ts), AbsExpr(e)))
              && (ok ==>
                    && toks == k && out == old(out) + p && argCode == [] && Fr() == fr
                    && Flow.FuncFinished(fr, p, AbsStmts(ts), AbsExpr(e), old(labelNo), labelNo)
                    && CallsIn(old(fns), p) && Flow.AnswersCalls(pars, p, AbsStmts(ts), AbsExpr(e)))
    {
      hide KnownCalls, CallsIn, OkStmts, TokStmts, AbsStmts, InFragment, Place, Flow.Finished, Flow.FuncFinished,
           Flow.AnswersCalls, Flow.Returns, Layout, Offsets, Flow.ParOffsets, Flow.Extends, Flow.DropCode, Scoped,
           NewVars, Extend, OkExpr, AbsExpr, TokExpr, AfterExpr, Fragment, Static, Labelled;
      p := [];
      var returnLbl := BeginFunction(pars);
      ghost var fr, vars0 := Fr(), vars;
      ReturnTokens(e, semi, k);
      ok, p := ParseStatements(ts, TokReturn(e, semi, k));
      if !ok {
        return;
      }
      toks := toks.tail;
      ghost var q;
      ok, q := ParseValueEnd(returnLbl, fr, vars0, p, AbsStmts(ts), e, semi, k);
      Assoc(old(out), p, q);
      p := p + q;
      if ok {
        KnownSuffix(fns, old(out), p);
        Flow.FuncAnswers(pars, fns, p, AbsStmts(ts), AbsExpr(e), returnLbl - 1, labelNo);
      }
    }

    // The return of a body, and its end.
    method ParseValueEnd(returnLbl: nat, ghost fr: Frame, ghost vars0: map<Ident, VarDef>, ghost p: seq<Instr>,
                         ghost c: Cmd, ghost e: Expr, ghost semi: bool, ghost k: Tokens)
      returns (ok: bool, ghost q: seq<Instr>)
      requires returnLbl >= 1 && argCode == [] && !state.Ax? && Flow.Finished(fr, p, c, Fr(), returnLbl, labelNo)
      requires fr == Frame(Scope(Offsets(vars0), fns), 0, parCount) && NewVars(vars0, 0, vars, localSp, 1)
      requires forall x :: x in vars0 ==> vars0[x].blockLevel == 0
      requires OkExpr(e) && toks == TokExpr(e, AfterReturn(semi, k)) && AfterExpr(AfterReturn(semi, k))
               && Fragment(Sc(), AbsExpr(e))
      modifies this`toks, this`argCode, this`out, this`localSp, this`state, this`labelNo, this`vars
      ensures KeepsCalls()
      ensures ok <==> Static(old(Sc()), AbsExpr(e)).Some? && !AbsExpr(e).Apply?
      ensures ok ==>
                && toks == k && argCode == [] && out == old(out) + q && vars == vars0 && localSp == 0
                && Flow.FuncFinished(fr, p + q, c, AbsExpr(e), returnLbl - 1, labelNo)
    {
      hide KnownCalls, Flow.Finished, Flow.FuncFinished, Flow.Returns, Offsets, Flow.Extends, Flow.DropCode, NewVars,
           Extend, OkExpr, AbsExpr, TokExpr, AfterExpr, Fragment, Static, Labelled;
      q := [];
      ghost var r, fr1, mid := [], Fr(), labelNo;
      BodyVars(vars0, vars, fns, localSp, parCount);
      ok, r := ParseReturn(returnLbl, e, AfterReturn(semi, k));
      if !ok {
        return;
      }
      var semicolon := Found(Semi);
      var closed := Found(Rbrace);
      ok, q := EndFunction(returnLbl);
      SameVars(vars0, vars);
      if ok {
        Flow.FuncBodyFinished(fr, p, c, fr1, r, AbsExpr(e), returnLbl, mid, labelNo);
      }
      Assoc(old(out), r, q);
      q := r + q;
    }

    // The end of a function: the return label, the end of the local variables, and the check of the stack.
    method EndFunction(returnLbl: nat) returns (ok: bool, ghost q: seq<Instr>)
      requires argCode == []
      modifies this`argCode, this`out, this`localSp, this`vars
      ensures KeepsCalls()
      ensures forall x :: x in vars <==> x in old(vars) && old(vars)[x].blockLevel < 1
      ensures forall x :: x in vars ==> vars[x] == old(vars)[x]
      ensures argCode == [] && out == old(out) + q && q == [Label(returnLbl)] + Flow.DropCode(|old(vars)| - |vars|)
      ensures localSp == old(localSp) - (|old(vars)| - |vars|) && |vars| <= |old(vars)|
      ensures ok <==> localSp == 0
    {
      hide KnownCalls, Flow.DropCode, Extend;
      EmitLabel(returnLbl);
      q := FreeBlockVars(1);
      Assoc(old(out), [Label(returnLbl)], q);
      q := [Label(returnLbl)] + q;
      ok := localSp == 0;
    }

    // A complete body.
    method EndFuncBody(returnLbl: nat, ghost fr: Frame, ghost vars0: map<Ident, VarDef>, ghost p: seq<Instr>,
                       ghost c: Cmd)
      returns (ok: bool, ghost q: seq<Instr>)
      requires returnLbl >= 1 && argCode == [] && Layout(fr) && Flow.Finished(fr, p, c, Fr(), returnLbl, labelNo)
      requires fr == Frame(Scope(Offsets(vars0), fns), 0, parCount) && NewVars(vars0, 0, vars, localSp, 1)
      requires forall x :: x in vars0 ==> vars0[x].blockLevel == 0
      modifies this`argCode, this`out, this`localSp, this`vars
      ensures KeepsCalls()
      ensures ok && argCode == [] && out == old(out) + q && vars == vars0 && localSp == 0
      ensures Flow.Finished(fr, p + q, Block(c), fr, returnLbl - 1, labelNo)
    {
      hide KnownCalls, Flow.Finished, Layout, Offsets, Flow.Extends, Flow.DropCode, NewVars, Extend;
      BodyVars(vars0, vars, fns, localSp, parCount);
      Flow.BodyFinished(fr, p, c, Fr(), returnLbl, labelNo);
      ok, q := EndFunction(returnLbl);
      SameVars(vars0, vars);
    }

    // A body that is just `x *= f(...)`: the word that is left on the stack is reported as an error.
    method MulByCallBody(x: Ident, ghost e: Expr, ghost k: Tokens) returns (ok: bool)
      requires toks == TokExpr(e, k) && OkExpr(e) && AfterExpr(k) && AbsExpr(e).Apply? && Fragment(Sc(), AbsExpr(e))
      requires argCode == [] && !state.Ax? && Layout(Fr()) && localSp == 0
      requires x in vars && forall y :: y in vars ==> vars[y].typed && vars[y].blockLevel == 0
      modifies this`toks, this`vars, this`argCode, this`out, this`localSp, this`state, this`labelNo
      ensures KeepsCalls()
      ensures !ok
    {
      hide KnownCalls, TokExpr, OkExpr, AfterExpr, AbsExpr, Fragment, Layout, Place, InFragment, Flow.Finished,
           Flow.DropCode;
      ghost var p;
      ok, p := ParseAssignValue(x, MulBy, e, k, Fr(), []);
      if ok {
        var returnLbl := NewLabel();
        ghost var q;
        ok, q := EndFunction(returnLbl);
        SameVars(old(vars), vars);
      }
    }
  }
}
