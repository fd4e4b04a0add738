/** The code of statements: local variables, assignments, blocks and branches. */
module Flow {
  import opened Words
  import opened Machine
  import opened Source
  import opened Codegen
  import opened Statements
  import Calls
  import OpCode
  import Pieces
  import ShortCircuit

  // ----- the surroundings of a frame -----

  // They do not depend on the words above rbp's, which are the local variables and the evaluation stack.
  lemma AroundKept(n: nat, m: State, m': State)
    requires m'.bp == m.bp <= |m.stack| && m.bp <= |m'.stack| && m'.stack[..m.bp] == m.stack[..m.bp]
    ensures Around(n, m') == Around(n, m)
  {
    if n + 2 <= m.bp {
      assert m.stack[..m.bp - 2 - n] == m.stack[..m.bp][..m.bp - 2 - n];
      assert m.stack[m.bp - 2..m.bp] == m.stack[..m.bp][m.bp - 2..];
      assert m'.stack[..m.bp - 2 - n] == m'.stack[..m.bp][..m.bp - 2 - n];
      assert m'.stack[m.bp - 2..m.bp] == m'.stack[..m.bp][m.bp - 2..];
    }
  }

  lemma AroundSame(n: nat, m: State, m': State)
    requires m'.bp == m.bp && m'.stack == m.stack
    ensures Around(n, m') == Around(n, m)
  {
  }

  // A variable has its word inside of the frame.
  lemma AroundWritten(fr: Frame, x: Ident, m: State, w: Word, m': State)
    requires Layout(fr) && x in fr.sc.vars && ValidSlot(m, fr.sc.vars[x])
    requires m'.bp == m.bp && m'.stack == WriteSlot(m, fr.sc.vars[x], w).stack
    ensures Around(fr.pars, m') == Around(fr.pars, m)
  {
    hide Layout, Around, SlotIndex, ParOffset;
    SlotInside(fr, x, m.bp);
    WordInside(fr.pars, m, SlotIndex(m.bp, fr.sc.vars[x]), w, m');
  }

  // A local variable or a parameter.
  lemma SlotInside(fr: Frame, x: Ident, bp: nat)
    requires Layout(fr) && x in fr.sc.vars
    ensures var k := SlotIndex(bp, fr.sc.vars[x]); k >= bp || bp - 2 - fr.pars <= k < bp - 2
  {
    var off := fr.sc.vars[x];
    assert off % 8 == 0 && (off < 0 || ParOffset(1) <= off <= ParOffset(fr.pars));
    hide Layout;
  }

  lemma WordInside(n: nat, m: State, k: int, w: Word, m': State)
    requires 0 <= k < |m.stack| && (k >= m.bp || m.bp - 2 - n <= k < m.bp - 2)
    requires m'.bp == m.bp && m'.stack == m.stack[k := w]
    ensures Around(n, m') == Around(n, m)
  {
    if n + 2 <= m.bp <= |m.stack| {
      assert m'.stack[..m.bp - 2 - n] == m.stack[..m.bp - 2 - n];
      assert m'.stack[m.bp - 2..m.bp] == m.stack[m.bp - 2..m.bp];
    }
  }

  // ----- local variables -----

  /** A new local variable starts at zero. */
  function AllocCode(): seq<Instr> { [Zero(Rax), Push(Rax)] }

  lemma AllocRuns(env: Env, m: State)
    ensures var o := Exec(env, AllocCode(), m);
            o.Fall? && o.m.bp == m.bp && o.m.stack == m.stack + [0]
  {
    var m1 := m.(rax := 0, flags := Unset);
    var m2 := m1.(stack := m.stack + [0]);
    OpCode.Chain2(env, Zero(Rax), Push(Rax), m, m1, m2);
  }

  lemma Grown(fr: Frame, x: Ident, st: Store, m: State, m': State)
    requires Layout(fr) && x !in fr.sc.vars && AtBoundary(fr, st, m)
    requires m'.bp == m.bp && m'.stack == m.stack + [0]
    ensures AtBoundary(Grow(fr, x), st[x := 0], m')
    ensures Models(fr.sc, st, m')
    ensures Around(fr.pars, m') == Around(fr.pars, m)
  {
    assert m'.stack[..m.bp] == m.stack[..m.bp];
    AroundKept(fr.pars, m, m');
    hide Around;
    var sc := Grow(fr, x).sc;
    assert SlotIndex(m.bp, NextOffset(fr.d)) == |m.stack|;
    assert Models(sc, st[x := 0], m');
  }

  lemma NewVarPerforms(fr: Frame, x: Ident)
    requires Layout(fr) && x !in fr.sc.vars
    ensures Performs(fr, AllocCode(), NewVar(x), Grow(fr, x))
  {
    GrowSlot(fr, x);
    hide Exec, AllocCode, Grow, Around;
    forall env: Env, m: State, st: Store | AtBoundary(fr, st, m)
      ensures Ends(Exec(env, AllocCode(), m), Run(NewVar(x), st, env), Grow(fr, x), Around(fr.pars, m))
    {
      AllocRuns(env, m);
      Grown(fr, x, st, m, Exec(env, AllocCode(), m).m);
    }
  }

  // Writing the slot of one variable changes no other.
  lemma SlotWritten(fr: Frame, x: Ident, st: Store, m: State, w: Word, m': State)
    requires Layout(fr) && x in fr.sc.vars && AtBoundary(fr, st, m)
    requires m'.bp == m.bp && m'.stack == WriteSlot(m, fr.sc.vars[x], w).stack
    ensures AtBoundary(fr, st[x := w], m')
    ensures Around(fr.pars, m') == Around(fr.pars, m)
  {
    AroundWritten(fr, x, m, w, m');
    hide Around;
    forall y | y in fr.sc.vars
      ensures ValidSlot(m', fr.sc.vars[y]) && ReadSlot(m', fr.sc.vars[y]) == st[x := w][y]
    {
      if y != x {
        DistinctSlots(m.bp, fr.sc.vars[x], fr.sc.vars[y]);
      }
    }
  }

  lemma DistinctSlots(bp: nat, a: int, b: int)
    requires a % 8 == 0 && b % 8 == 0 && a != b
    ensures SlotIndex(bp, a) != SlotIndex(bp, b)
  {
  }

  // ----- assignments -----

  ghost predicate SetsSlot(o: Outcome, r: Option<Word>, off: int, m: State)
    requires ValidSlot(m, off)
  {
    match r
    case None => o.Trap?
    case Some(w) => o.Fall? && o.m.bp == m.bp && o.m.stack == WriteSlot(m, off, w).stack
  }

  /** Code p assigns rax to the slot at off. */
  ghost predicate Stores(p: seq<Instr>, asg: AssignOp, off: int) {
    forall env: Env, m: State :: ValidSlot(m, off) ==>
      SetsSlot(Exec(env, p, m), AssignWord(asg, ReadSlot(m, off), m.rax), off, m)
  }

  ghost predicate StoresConst(p: seq<Instr>, asg: AssignOp, off: int, n: nat) {
    forall env: Env, m: State :: ValidSlot(m, off) ==>
      SetsSlot(Exec(env, p, m), AssignWord(asg, ReadSlot(m, off), Wrap(n)), off, m)
  }

  /** Code p divides rax by the slot at off, and stores the quotient there. */
  ghost predicate DividesInto(p: seq<Instr>, off: int) {
    forall env: Env, m: State :: ValidSlot(m, off) ==>
      SetsSlot(Exec(env, p, m), DivWord(m.rax, ReadSlot(m, off)), off, m)
  }

  predicate Held(s: Cache, m: State) { s.Ax? || (s.Sp? && |m.stack| > 0) }

  // The top of the evaluation stack, and the machine without it.
  function Top(s: Cache, m: State): Word
    requires Held(s, m)
  {
    if s.Ax? then m.rax else m.stack[|m.stack| - 1]
  }

  function Below(s: Cache, m: State): State
    requires Held(s, m)
  {
    if s.Ax? then m else m.(stack := m.stack[..|m.stack| - 1])
  }

  /** Code p takes the top of the evaluation stack, held as s says, and assigns it to the slot at off. */
  ghost predicate StoresTop(p: seq<Instr>, asg: AssignOp, off: int, s: Cache) {
    forall env: Env, m: State :: Held(s, m) && ValidSlot(Below(s, m), off) ==>
      SetsSlot(Exec(env, p, m), AssignWord(asg, ReadSlot(Below(s, m), off), Top(s, m)), off, Below(s, m))
  }

  /** What GenerateAssignment emits for a value v. The two-operand forms take rax, wherever the value is. */
  ghost predicate AssignsValue(p: seq<Instr>, asg: AssignOp, off: int, v: Value, s: Cache) {
    && Pieces.NoLabels(p)
    && if v.isConst then v.n >= 0 ==> StoresConst(p, asg, off, v.n)
       else if asg.DivBy? then DividesInto(p, off)
       else if asg.MulBy? then Stores(p, asg, off)
       else StoresTop(p, asg, off, s)
  }

  lemma StoresInRax(p: seq<Instr>, asg: AssignOp, off: int)
    requires Stores(p, asg, off)
    ensures StoresTop(p, asg, off, Ax)
  {
    hide Exec, AssignWord;
  }

  lemma PopThenStores(p: seq<Instr>, asg: AssignOp, off: int)
    requires Stores(p, asg, off)
    ensures StoresTop([Pop(Rax)] + p, asg, off, Sp)
  {
    hide Exec, AssignWord;
    forall env: Env, m: State | Held(Sp, m) && ValidSlot(Below(Sp, m), off)
      ensures SetsSlot(Exec(env, [Pop(Rax)] + p, m), AssignWord(asg, ReadSlot(Below(Sp, m), off), Top(Sp, m)), off,
              Below(Sp, m))
    {
      var m1 := OpCode.Popped(m, Rax);
      OpCode.First(env, Pop(Rax), p, m, m1);
      assert SetsSlot(Exec(env, p, m1), AssignWord(asg, ReadSlot(m1, off), m1.rax), off, m1);
    }
  }

  lemma HeldTop(s: Cache, base: seq<Word>, w: Word, m: State)
    requires !s.Undef? && StackOf(s, m) == base + [w]
    ensures Held(s, m) && Top(s, m) == w && Below(s, m).stack == base && Below(s, m).bp == m.bp
  {
    if s.Ax? {
      OneOnTop(base, w, m);
    }
  }

  function AluOfAssign(asg: AssignOp): AluOp { if asg.AddTo? then Add else Sub }

  function StoreCode(asg: AssignOp, off: int): seq<Instr> {
    if asg.SetTo? then [Store(off, Rax)]
    else if asg.MulBy? then [ImulMem(Rax, off), Store(off, Rax)]
    else [AluMem(AluOfAssign(asg), off, Rax)]
  }

  lemma StoreCodeStores(asg: AssignOp, off: int)
    requires !asg.DivBy?
    ensures Stores(StoreCode(asg, off), asg, off)
  {
    hide Exec, Word64;
    forall env: Env, m: State | ValidSlot(m, off)
      ensures SetsSlot(Exec(env, StoreCode(asg, off), m), AssignWord(asg, ReadSlot(m, off), m.rax), off, m)
    {
      var was := ReadSlot(m, off);
      if asg.SetTo? {
        OpCode.Chain1(env, Store(off, Rax), m, WriteSlot(m, off, m.rax));
      } else if asg.MulBy? {
        OpCode.MulCommutes(was, m.rax);
        var m1 := OpCode.Computed(m, MulLow(m.rax, was));
        OpCode.Chain2(env, ImulMem(Rax, off), Store(off, Rax), m, m1, WriteSlot(m1, off, m1.rax));
      } else {
        OpCode.Chain1(env, AluMem(AluOfAssign(asg), off, Rax), m,
                      WriteSlot(m, off, AluOf(AluOfAssign(asg), was, m.rax)).(flags := Unset));
      }
    }
  }

  function StoreConstCode(asg: AssignOp, off: int, n: nat): seq<Instr> {
    if asg.SetTo? then [StoreImm(off, n)]
    else if asg.DivBy? then [MovImm(Rcx, n), Load(Rax, off)] + ([Cqo, Idiv(Rcx)] + [Store(off, Rax)])
    else if asg.MulBy? then [MovImm(Rbx, n), Load(Rax, off)] + ([Imul(Rbx)] + [Store(off, Rax)])
    else [AluMemImm(AluOfAssign(asg), off, n)]
  }

  lemma StoreConstStores(asg: AssignOp, off: int, n: nat)
    ensures StoresConst(StoreConstCode(asg, off, n), asg, off, n)
  {
    hide Exec, Word64;
    forall env: Env, m: State | ValidSlot(m, off)
      ensures SetsSlot(Exec(env, StoreConstCode(asg, off, n), m), AssignWord(asg, ReadSlot(m, off), Wrap(n)), off, m)
    {
      if asg.SetTo? {
        OpCode.Chain1(env, StoreImm(off, n), m, WriteSlot(m, off, Wrap(n)));
      } else if asg.DivBy? {
        DivByRuns(env, off, n, m);
      } else if asg.MulBy? {
        MulByRuns(env, off, n, m);
      } else {
        OpCode.Chain1(env, AluMemImm(AluOfAssign(asg), off, n), m,
                      WriteSlot(m, off, AluOf(AluOfAssign(asg), ReadSlot(m, off), Wrap(n))).(flags := Unset));
      }
    }
  }

  // The constant in a register, the variable in rax.
  function Loaded(m: State, r: Reg, off: int, n: nat): State
    requires ValidSlot(m, off)
  {
    m.Set(r, Wrap(n)).(rax := ReadSlot(m, off))
  }

  lemma LoadedRuns(env: Env, m: State, r: Reg, off: int, n: nat)
    requires ValidSlot(m, off) && !r.Rax?
    ensures Exec(env, [MovImm(r, n), Load(Rax, off)], m) == Fall(Loaded(m, r, off, n))
  {
    hide Exec;
    OpCode.Chain2(env, MovImm(r, n), Load(Rax, off), m, m.Set(r, Wrap(n)), Loaded(m, r, off, n));
  }

  lemma MulByRuns(env: Env, off: int, n: nat, m: State)
    requires ValidSlot(m, off)
    ensures SetsSlot(Exec(env, StoreConstCode(MulBy, off, n), m), Some(MulLow(ReadSlot(m, off), Wrap(n))), off, m)
  {
    hide Exec;
    var m1 := Loaded(m, Rbx, off, n);
    var a, b := m1.rax, m1.rbx;
    var m2 := m1.(rax := MulLow(a, b), rdx := ImulHigh(a, b), flags := Unset);
    LoadedRuns(env, m, Rbx, off, n);
    ExecConcat(env, [MovImm(Rbx, n), Load(Rax, off)], [Imul(Rbx)] + [Store(off, Rax)], m);
    assert [Imul(Rbx)] + [Store(off, Rax)] == [Imul(Rbx), Store(off, Rax)];
    OpCode.Chain2(env, Imul(Rbx), Store(off, Rax), m1, m2, WriteSlot(m2, off, m2.rax));
  }

  lemma DivByRuns(env: Env, off: int, n: nat, m: State)
    requires ValidSlot(m, off)
    ensures SetsSlot(Exec(env, StoreConstCode(DivBy, off, n), m), DivWord(ReadSlot(m, off), Wrap(n)), off, m)
  {
    var m1 := Loaded(m, Rcx, off, n);
    LoadedRuns(env, m, Rcx, off, n);
    DivideRuns(env, m1);
    hide Exec, DivWord;
    ExecConcat(env, [MovImm(Rcx, n), Load(Rax, off)], [Cqo, Idiv(Rcx)] + [Store(off, Rax)], m);
    ExecConcat(env, [Cqo, Idiv(Rcx)], [Store(off, Rax)], m1);
    var o := Exec(env, [Cqo, Idiv(Rcx)], m1);
    if o.Fall? {
      OpCode.Chain1(env, Store(off, Rax), o.m, WriteSlot(o.m, off, o.m.rax));
    }
  }

  lemma DivideRuns(env: Env, m: State)
    ensures match DivWord(m.rax, m.rcx)
            case None => Exec(env, [Cqo, Idiv(Rcx)], m) == Trap
            case Some(q) =>
              var o := Exec(env, [Cqo, Idiv(Rcx)], m);
              o.Fall? && o.m.rax == q && o.m.stack == m.stack && o.m.bp == m.bp
  {
    hide Exec, DivWord;
    var m1 := m.(rdx := SignWord(m.rax));
    OpCode.First(env, Cqo, [Idiv(Rcx)], m, m1);
    assert [Cqo, Idiv(Rcx)] == [Cqo] + [Idiv(Rcx)];
    OpCode.IdivAfterCqo(m1, m.rcx);
    OpCode.Last(env, Idiv(Rcx), m1, IdivStep(m1, Signed(m.rcx)));
  }

  // The value of e is computed and assigned to a variable.
  lemma UpdatePerforms(fr: Frame, c: seq<Instr>, p: seq<Instr>, x: Ident, asg: AssignOp, e: Exp, s: Cache)
    requires Layout(fr) && x in fr.sc.vars && !s.Undef?
    requires Computes(fr.sc, c, e, Undef, s) && StoresTop(p, asg, fr.sc.vars[x], s)
    ensures Performs(fr, c + p, Update(x, asg, e), fr)
  {
    hide Exec, Eval, AssignWord, RunUpdate, StoresTop, Layout, Around;
    forall env: Env, m: State, st: Store | AtBoundary(fr, st, m)
      ensures Ends(Exec(env, c + p, m), Run(Update(x, asg, e), st, env), fr, Around(fr.pars, m))
    {
      assert Pushes(Exec(env, c, m), Eval(e, st, env), Undef, s, m);
      InitialRuns(fr, c, p, x, asg, Eval(e, st, env), st, env, m, s);
      NoValue(x, asg, st);
    }
  }

  lemma StoredAs(fr: Frame, x: Ident, asg: AssignOp, st: Store, env: Env, p: seq<Instr>, m: State, s: Cache)
    requires Layout(fr) && x in fr.sc.vars && Held(s, m) && AtBoundary(fr, st, Below(s, m))
             && StoresTop(p, asg, fr.sc.vars[x], s)
    ensures Ends(Exec(env, p, m), RunUpdate(x, asg, Some(Top(s, m)), st), fr, Around(fr.pars, Below(s, m)))
  {
    hide Exec, AssignWord, Around, Layout;
    var m0 := Below(s, m);
    var r := AssignWord(asg, st[x], Top(s, m));
    assert SetsSlot(Exec(env, p, m), r, fr.sc.vars[x], m0);
    if r.Some? {
      SlotWritten(fr, x, st, m0, r.value, Exec(env, p, m).m);
    }
  }

  // The variable is created by its first assignment.
  lemma CreatePerforms(fr: Frame, c: seq<Instr>, p: seq<Instr>, x: Ident, asg: AssignOp, e: Exp, s: Cache)
    requires Layout(fr) && x !in fr.sc.vars && !s.Undef?
    requires Computes(fr.sc, c, e, Undef, s) && StoresTop(p, asg, NextOffset(fr.d), s)
    ensures Performs(fr, AllocCode() + (c + p), Update(x, asg, e), Grow(fr, x))
  {
    GrowSlot(fr, x);
    hide Computes, StoresTop, Layout, AtBoundary, AllocCode, Grow, Ends, Run, Around;
    forall env: Env, m: State, st: Store | AtBoundary(fr, st, m)
      ensures Ends(Exec(env, AllocCode() + (c + p), m), Run(Update(x, asg, e), st, env), Grow(fr, x),
              Around(fr.pars, m))
    {
      CreateRuns(fr, c, p, x, asg, e, env, m, st, s);
    }
  }

  lemma CreateRuns(fr: Frame, c: seq<Instr>, p: seq<Instr>, x: Ident, asg: AssignOp, e: Exp, env: Env, m: State,
                   st: Store, s: Cache)
    requires Layout(fr) && x !in fr.sc.vars && AtBoundary(fr, st, m) && !s.Undef?
    requires Computes(fr.sc, c, e, Undef, s) && StoresTop(p, asg, NextOffset(fr.d), s)
    ensures Ends(Exec(env, AllocCode() + (c + p), m), Run(Update(x, asg, e), st, env), Grow(fr, x), Around(fr.pars, m))
  {
    hide Exec, Eval, AssignWord, AllocCode, Layout, Grow, RunUpdate, StoresTop, Models, Around;
    GrowLayout(fr, x);
    GrowSlot(fr, x);
    ExecConcat(env, AllocCode(), c + p, m);
    AllocRuns(env, m);
    var m1, v := Exec(env, AllocCode(), m).m, Eval(e, st, env);
    Grown(fr, x, st, m, m1);
    assert x !in st;
    assert Pushes(Exec(env, c, m1), v, Undef, s, m1);
    hide Computes, AtBoundary, Ends, Pushes;
    InitialRuns(Grow(fr, x), c, p, x, asg, v, st[x := 0], env, m1, s);
    if v.Some? {
      CreatedAs(x, asg, v.value, st);
    } else {
      NoValue(x, asg, st);
    }
  }

  lemma NoValue(x: Ident, asg: AssignOp, st: Store)
    ensures RunUpdate(x, asg, None, st) == None
  {
  }

  lemma GrowSlot(fr: Frame, x: Ident)
    ensures x in Grow(fr, x).sc.vars && Grow(fr, x).sc.vars[x] == NextOffset(fr.d) && Grow(fr, x).pars == fr.pars
  {
  }

  lemma InitialRuns(fr: Frame, c: seq<Instr>, p: seq<Instr>, x: Ident, asg: AssignOp, v: Option<Word>, st: Store,
                    env: Env, m: State, s: Cache)
    requires Layout(fr) && x in fr.sc.vars && AtBoundary(fr, st, m) && StoresTop(p, asg, fr.sc.vars[x], s)
    requires !s.Undef? && Pushes(Exec(env, c, m), v, Undef, s, m)
    ensures Ends(Exec(env, c + p, m), if v.None? then None else RunUpdate(x, asg, v, st), fr, Around(fr.pars, m))
  {
    hide Exec, AssignWord, RunUpdate, StoresTop, Layout, Around;
    ExecConcat(env, c, p, m);
    if v.Some? {
      var o := Exec(env, c, m);
      HeldTop(s, m.stack, v.value, o.m);
      AroundSame(fr.pars, m, Below(s, o.m));
      StoredAs(fr, x, asg, st, env, p, o.m, s);
    }
  }

  lemma CreatedAs(x: Ident, asg: AssignOp, v: Word, st: Store)
    requires x !in st
    ensures RunUpdate(x, asg, Some(v), st[x := 0]) == RunUpdate(x, asg, Some(v), st)
  {
    hide AssignWord;
    var r := AssignWord(asg, 0, v);
    if r.Some? {
      assert st[x := 0][x := r.value] == st[x := r.value];
    }
  }

  lemma UpdateConstPerforms(fr: Frame, p: seq<Instr>, x: Ident, asg: AssignOp, e: Exp, n: nat)
    requires Layout(fr) && x in fr.sc.vars && StoresConst(p, asg, fr.sc.vars[x], n)
    requires forall st, env :: Eval(e, st, env) == Some(Wrap(n))
    ensures Performs(fr, p, Update(x, asg, e), fr)
  {
    hide Exec, Eval, AssignWord, Layout, Around;
    forall env: Env, m: State, st: Store | AtBoundary(fr, st, m)
      ensures Ends(Exec(env, p, m), Run(Update(x, asg, e), st, env), fr, Around(fr.pars, m))
    {
      assert Eval(e, st, env) == Some(Wrap(n));
      var r := AssignWord(asg, st[x], Wrap(n));
      assert SetsSlot(Exec(env, p, m), r, fr.sc.vars[x], m);
      if r.Some? {
        SlotWritten(fr, x, st, m, r.value, Exec(env, p, m).m);
      }
    }
  }

  // ----- two assignments that the generator gets wrong -----

  // The two quotients of words, one the other way round, agree exactly when the operands have the same magnitude.
  lemma SameQuotients(a: Word, b: Word)
    ensures DivWord(a, b) == DivWord(b, a) <==> Abs(Signed(a)) == Abs(Signed(b))
  {
    var x, y := Signed(a), Signed(b);
    if Abs(x) == Abs(y) {
      assert x == y || x == -y;
      if x == -y && x != 0 {
        Opposites(x, y);
      }
    } else if Abs(x) < Abs(y) {
      Smaller(a, b);
    } else {
      Smaller(b, a);
    }
  }

  lemma Opposites(x: int, y: int)
    requires x == -y && x != 0
    ensures TruncDiv(x, y) == -1 && TruncDiv(y, x) == -1
  {
    DivModUnique(Abs(x), Abs(x), 1, 0);
  }

  lemma Smaller(a: Word, b: Word)
    requires Abs(Signed(a)) < Abs(Signed(b))
    ensures DivWord(a, b) == Some(0) && DivWord(b, a) != Some(0)
  {
    var x, y := Signed(a), Signed(b);
    DivModUnique(Abs(x), Abs(y), 0, Abs(x));
    if x != 0 {
      AtLeastOne(Abs(y), Abs(x));
    }
    var q := TruncDiv(x, y);
    assert q == 0;
  }

  lemma AtLeastOne(n: nat, d: nat)
    requires 1 <= d < n <= HALF
    ensures 1 <= n / d <= HALF
  {
    DivBounds(n, d);
  }

  // `x /= e` divides the value of e by x: it is right exactly when both have the same magnitude.
  lemma DivByExpression(p: seq<Instr>, env: Env, off: int, m: State)
    requires DividesInto(p, off) && ValidSlot(m, off)
    ensures SetsSlot(Exec(env, p, m), AssignWord(DivBy, ReadSlot(m, off), m.rax), off, m) <==>
            Abs(Signed(m.rax)) == Abs(Signed(ReadSlot(m, off)))
  {
    hide Exec, DivWord;
    SameQuotients(m.rax, ReadSlot(m, off));
    var o := Exec(env, p, m);
    assert SetsSlot(o, DivWord(m.rax, ReadSlot(m, off)), off, m);
    if o.Fall? {
      var k, q := SlotIndex(m.bp, off), DivWord(m.rax, ReadSlot(m, off)).value;
      assert WriteSlot(m, off, q).stack[k] == q;
    }
  }

  // With x = 10, `x /= 3` for a computed 3 stores 0.
  lemma DivTenByThree(p: seq<Instr>, env: Env, off: int, m: State)
    requires DividesInto(p, off) && ValidSlot(m, off) && ReadSlot(m, off) == 10 && m.rax == 3
    ensures SetsSlot(Exec(env, p, m), Some(0), off, m) && AssignWord(DivBy, 10, 3) == Some(3)
  {
    hide Exec;
    assert DivWord(3, 10) == Some(0);
  }

  lemma DivCodeDivides(off: int)
    ensures DividesInto([Load(Rcx, off), Cqo, Idiv(Rcx), Store(off, Rax)], off)
  {
    hide Exec, DivWord;
    forall env: Env, m: State | ValidSlot(m, off)
      ensures SetsSlot(Exec(env, [Load(Rcx, off), Cqo, Idiv(Rcx), Store(off, Rax)], m),
              DivWord(m.rax, ReadSlot(m, off)), off, m)
    {
      var c, m1 := [Cqo, Idiv(Rcx)] + [Store(off, Rax)], m.(rcx := ReadSlot(m, off));
      OpCode.First(env, Load(Rcx, off), c, m, m1);
      assert [Load(Rcx, off)] + c == [Load(Rcx, off), Cqo, Idiv(Rcx), Store(off, Rax)];
      DivideRuns(env, m1);
      ExecConcat(env, [Cqo, Idiv(Rcx)], [Store(off, Rax)], m1);
      var o := Exec(env, [Cqo, Idiv(Rcx)], m1);
      if o.Fall? {
        OpCode.Chain1(env, Store(off, Rax), o.m, WriteSlot(o.m, off, o.m.rax));
      }
    }
  }

  // `x *= f(y)` multiplies x by a word that is not the result of f, and leaves the result on the stack, so that no
  // statement boundary follows.
  lemma MulByCall(fr: Frame, c: seq<Instr>, p: seq<Instr>, x: Ident, f: Ident, es: seq<Exp>, env: Env, m: State,
                  st: Store)
    returns (s: State)
    requires Layout(fr) && x in fr.sc.vars && AtBoundary(fr, st, m)
    requires Computes(fr.sc, c, Apply(f, es), Undef, Sp) && Calls.Clobbers(fr.sc, c, f, es)
             && EvalAll(es, st, env).Some?
    requires env.fn(f, EvalAll(es, st, env).value).Some? && Stores(p, MulBy, fr.sc.vars[x])
    ensures var o := Exec(env, c + p, m);
            && o.Fall? && |o.m.stack| == |m.stack| + 1 && (forall st' :: !AtBoundary(fr, st', o.m))
            && ValidSlot(o.m, fr.sc.vars[x])
            && ReadSlot(o.m, fr.sc.vars[x]) == MulLow(st[x], env.junk(f, s, 0))
  {
    hide Exec, Eval, EvalAll, Layout;
    var off, vs := fr.sc.vars[x], EvalAll(es, st, env).value;
    assert Eval(Apply(f, es), st, env) == env.fn(f, vs) by { CallEval(f, es, st, env); }
    assert Pushes(Exec(env, c, m), Eval(Apply(f, es), st, env), Undef, Sp, m);
    assert Calls.IsJunk(Exec(env, c, m), env, f, Some(vs));
    ExecConcat(env, c, p, m);
    var m1 := Exec(env, c, m).m;
    s :| m1.rax == env.junk(f, s, 0);
    PushesKeeps(Exec(env, c, m), env.fn(f, vs).value, Undef, Sp, m);
    ModelsKept(fr.sc, st, m, m1);
    assert SetsSlot(Exec(env, p, m1), AssignWord(MulBy, ReadSlot(m1, off), m1.rax), off, m1);
    assert WriteSlot(m1, off, MulLow(st[x], m1.rax)).stack[SlotIndex(m1.bp, off)] == MulLow(st[x], m1.rax);
  }

  lemma CallEval(f: Ident, es: seq<Exp>, st: Store, env: Env)
    requires EvalAll(es, st, env).Some?
    ensures Eval(Apply(f, es), st, env) == env.fn(f, EvalAll(es, st, env).value)
  {
  }

  lemma TimesZeroOne(w: Word)
    ensures MulLow(w, 0) == 0 && MulLow(w, 1) == w
  {
  }

  // Where a function that returns 1 leaves 0 in rax, `x *= f(y)` sets x to 0 instead of keeping it.
  lemma MulByOne(fr: Frame, c: seq<Instr>, p: seq<Instr>, x: Ident, f: Ident, es: seq<Exp>, env: Env, m: State,
                 st: Store)
    requires Layout(fr) && x in fr.sc.vars && AtBoundary(fr, st, m)
    requires Computes(fr.sc, c, Apply(f, es), Undef, Sp) && Calls.Clobbers(fr.sc, c, f, es)
             && EvalAll(es, st, env).Some?
    requires Stores(p, MulBy, fr.sc.vars[x])
    requires env.fn(f, EvalAll(es, st, env).value) == Some(1) && forall s: State :: env.junk(f, s, 0) == 0
    ensures Run(Update(x, MulBy, Apply(f, es)), st, env) == Some(st[x := st[x]])
    ensures var o := Exec(env, c + p, m);
            o.Fall? && ValidSlot(o.m, fr.sc.vars[x]) && ReadSlot(o.m, fr.sc.vars[x]) == 0
  {
    hide Exec, Eval, EvalAll, Layout, Stores, Computes, Calls.Clobbers;
    CallEval(f, es, st, env);
    var s := MulByCall(fr, c, p, x, f, es, env, m, st);
    TimesZeroOne(st[x]);
    hide MulLow, ReadSlot, ValidSlot, Models;
  }

  // ----- sequences and blocks -----

  lemma SkipPerforms(fr: Frame)
    ensures Performs(fr, [], Skip, fr)
  {
  }

  lemma SeqPerforms(fr: Frame, p: seq<Instr>, a: Cmd, fr1: Frame, q: seq<Instr>, b: Cmd, fr2: Frame)
    requires Performs(fr, p, a, fr1) && Performs(fr1, q, b, fr2)
    ensures Performs(fr, p + q, Seq(a, b), fr2)
  {
    hide Exec, AtBoundary, Around;
    forall env: Env, m: State, st: Store | AtBoundary(fr, st, m)
      ensures Ends(Exec(env, p + q, m), Run(Seq(a, b), st, env), fr2, Around(fr.pars, m))
    {
      ExecConcat(env, p, q, m);
      assert Ends(Exec(env, p, m), Run(a, st, env), fr1, Around(fr.pars, m));
    }
  }

  /** The code that drops n block variables. */
  function DropCode(n: int): seq<Instr> { if n > 0 then [AddRsp(n)] else [] }

  lemma DropRuns(env: Env, n: nat, m: State)
    requires n <= |m.stack|
    ensures var o := Exec(env, DropCode(n), m);
            o.Fall? && o.m.bp == m.bp && o.m.stack == m.stack[..|m.stack| - n]
  {
    if n > 0 {
      OpCode.Chain1(env, AddRsp(n), m, m.(stack := m.stack[..|m.stack| - n], flags := Unset));
    } else {
      assert m.stack[..|m.stack| - 0] == m.stack;
    }
  }

  /** Frame fr1 has further variables on top of those of fr. */
  ghost predicate Extends(fr: Frame, fr1: Frame) {
    && fr.d <= fr1.d && fr1.pars == fr.pars
    && forall x :: x in fr.sc.vars ==> x in fr1.sc.vars && fr1.sc.vars[x] == fr.sc.vars[x]
  }

  lemma BlockPerforms(fr: Frame, p: seq<Instr>, a: Cmd, fr1: Frame)
    requires Layout(fr) && Extends(fr, fr1) && Performs(fr, p, a, fr1)
    ensures Performs(fr, p + DropCode(fr1.d - fr.d), Block(a), fr)
  {
    hide Exec, DropCode, Around, Restrict, Layout, Extends, Models;
    var n := fr1.d - fr.d;
    forall env: Env, m: State, st: Store | AtBoundary(fr, st, m)
      ensures Ends(Exec(env, p + DropCode(n), m), Run(Block(a), st, env), fr, Around(fr.pars, m))
    {
      ExecConcat(env, p, DropCode(n), m);
      var o, r := Exec(env, p, m), Run(a, st, env);
      assert Ends(o, r, fr1, Around(fr.pars, m));
      if r.Some? {
        BlockEnds(fr, fr1, st, r.value, env, o.m);
      }
    }
  }

  lemma BlockEnds(fr: Frame, fr1: Frame, st: Store, st1: Store, env: Env, m: State)
    requires Layout(fr) && Extends(fr, fr1) && AtBoundary(fr1, st1, m) && st.Keys == fr.sc.vars.Keys
    ensures var o := Exec(env, DropCode(fr1.d - fr.d), m);
            o.Fall? && AtBoundary(fr, Restrict(st, st1), o.m) && Around(fr.pars, o.m) == Around(fr.pars, m)
    ensures fr1.d >= fr.d && fr1.pars == fr.pars
  {
    hide Exec, DropCode, Around, Restrict, Models;
    DropRuns(env, fr1.d - fr.d, m);
    Dropped(fr, fr1, st, st1, m, Exec(env, DropCode(fr1.d - fr.d), m).m);
  }

  // A variable of a frame lies below the words on top of the frame.
  lemma VarBelow(fr: Frame, x: Ident, bp: nat)
    requires Layout(fr) && x in fr.sc.vars
    ensures SlotIndex(bp, fr.sc.vars[x]) < bp + fr.d
  {
    var off := fr.sc.vars[x];
    assert off % 8 == 0 && off >= -8 * fr.d;
    hide Layout;
  }

  lemma Dropped(fr: Frame, fr1: Frame, st: Store, st1: Store, m: State, m': State)
    requires Layout(fr) && Extends(fr, fr1) && AtBoundary(fr1, st1, m) && st.Keys == fr.sc.vars.Keys
    requires m'.bp == m.bp && m'.stack == m.stack[..|m.stack| - (fr1.d - fr.d)]
    ensures AtBoundary(fr, Restrict(st, st1), m')
    ensures Around(fr.pars, m') == Around(fr.pars, m)
  {
    assert fr.d >= 0;
    assert m'.stack[..m.bp] == m.stack[..m.bp];
    AroundKept(fr.pars, m, m');
    hide Around, Layout;
    var st2 := Restrict(st, st1);
    forall x | x in fr.sc.vars
      ensures x in st2 && ValidSlot(m', fr.sc.vars[x]) && ReadSlot(m', fr.sc.vars[x]) == st2[x]
    {
      assert x in fr1.sc.vars;
      VarBelow(fr, x, m.bp);
    }
    assert st2.Keys == st.Keys;
  }

  // ----- branches -----

  // The condition, the test, and the code of the branch taken when the condition holds.
  lemma BranchOpens(fr: Frame, cc: seq<Instr>, e: Exp, s0: Cache, l: nat, p: seq<Instr>, checked: bool, a: Cmd, b: Cmd)
    requires Computes(fr.sc, cc, e, s0, Ax) && !s0.Ax? && Performs(fr, p, a, fr)
    requires Fragment(fr.sc, e) && ShortCircuit.DynBool(fr.sc, e)
    requires Lacks(p, l)
    ensures Opens(fr, cc + (ShortCircuit.TestJump(true, l) + p), l, Branch(checked, e, a, b), b)
  {
    hide Exec, Eval, Fragment, Static, Around;
    var t := ShortCircuit.TestJump(true, l);
    forall env: Env, m: State, st: Store | AtBoundary(fr, st, m)
      ensures OpensTo(Exec(env, cc + (t + p), m), Run(Branch(checked, e, a, b), st, env), Run(b, st, env), fr, st,
              Around(fr.pars, m), l)
    {
      ExecConcat(env, cc, t + p, m);
      var v, o := Eval(e, st, env), Exec(env, cc, m);
      assert Pushes(o, v, s0, Ax, m);
      if v.Some? {
        TruthValue(fr.sc, e, st, env);
        OneOnTop(m.stack, v.value, o.m);
        AroundSame(fr.pars, m, o.m);
        BranchRuns(env, l, p, fr, st, a, o.m, v.value);
      }
    }
  }

  lemma BranchRuns(env: Env, l: nat, p: seq<Instr>, fr: Frame, st: Store, a: Cmd, m: State, v: Word)
    requires AtBoundary(fr, st, m) && m.rax == v && v in {0, 1} && Performs(fr, p, a, fr)
    requires Lacks(p, l)
    ensures var o := Exec(env, ShortCircuit.TestJump(true, l) + p, m);
            if v != 0 then Ends(o, Run(a, st, env), fr, Around(fr.pars, m))
            else o.Escape? && o.lbl == l && Around(fr.pars, o.m) == Around(fr.pars, m) && AtBoundary(fr, st, o.m)
  {
    hide Exec, Run, ShortCircuit.TestJump, Around;
    var t := ShortCircuit.TestJump(true, l);
    ExecConcat(env, t, p, m);
    ShortCircuit.TestJumpRuns(env, true, l, m);
    ShortCircuit.NotFound(p, l);
    var o := Exec(env, t, m);
    AroundSame(fr.pars, m, o.m);
    assert AtBoundary(fr, st, o.m);
  }

  lemma JumpRuns(env: Env, j: nat, rest: seq<Instr>, m: State)
    ensures Exec(env, [Jmp(j)] + rest, m) == JumpInto(env, j, m, rest)
  {
    assert ([Jmp(j)] + rest)[1..] == rest;
  }

  // A jump to a label that stands just before rest, and not in q before it.
  lemma LandsAt(env: Env, l: nat, q: seq<Instr>, rest: seq<Instr>, m: State)
    requires Lacks(q, l)
    ensures JumpInto(env, l, m, q + ([Label(l)] + rest)) == Exec(env, rest, m)
  {
    var c := [Label(l)] + rest;
    ShortCircuit.NotFound(q, l);
    FindLabelConcat(q, c, l);
    DropConcat(q, c, 0);
    assert c[0..] == c;
    OpCode.First(env, Label(l), rest, m, m);
  }

  // The other branch q, between a jump over it and the label that the jump goes to.
  function Detour(j: nat, l: nat, q: seq<Instr>, tail: seq<Instr>): seq<Instr> {
    [Jmp(j)] + ([Label(l)] + (q + (tail + [Label(j)])))
  }

  lemma DetourRuns(env: Env, j: nat, l: nat, q: seq<Instr>, tail: seq<Instr>, m: State)
    requires j != l && Lacks(q, j) && (tail == [] || tail == [Jmp(j)])
    ensures Exec(env, Detour(j, l, q, tail), m) == Fall(m)
    ensures JumpInto(env, l, m, Detour(j, l, q, tail)) == Exec(env, q + (tail + [Label(j)]), m)
  {
    hide Exec, JumpInto;
    var e := q + (tail + [Label(j)]);
    JumpRuns(env, j, [Label(l)] + e, m);
    var before := [Label(l)] + (q + tail);
    assert [Label(l)] + e == before + ([Label(j)] + []);
    LandsAt(env, j, before, [], m);
    assert Exec(env, [], m) == Fall(m) by { ShowEmpty(env, m); }
    LandsAt(env, l, [Jmp(j)], e, m);
  }

  lemma ShowEmpty(env: Env, m: State)
    ensures Exec(env, [], m) == Fall(m)
  {
  }

  // After q comes the end label, reached with or without the jump.
  lemma TailRuns(env: Env, j: nat, q: seq<Instr>, tail: seq<Instr>, m: State)
    requires tail == [] || tail == [Jmp(j)]
    ensures var o := Exec(env, q, m);
            (o.Fall? || (o.Escape? && o.lbl != j) || o.Trap?) ==> Exec(env, q + (tail + [Label(j)]), m) == o
  {
    var o := Exec(env, q, m);
    ExecConcat(env, q, tail + [Label(j)], m);
    hide Exec, JumpInto;
    if o.Fall? {
      EndLabel(env, j, o.m);
      JumpRuns(env, j, [Label(j)], o.m);
      assert [] + [Label(j)] == [Label(j)];
    } else if o.Escape? && o.lbl != j {
      OtherLabel(tail, j, o.lbl);
      ShortCircuit.NotFound(tail + [Label(j)], o.lbl);
      Missed(env, o.lbl, tail + [Label(j)], o.m);
    }
  }

  lemma OtherLabel(tail: seq<Instr>, j: nat, l: nat)
    requires (tail == [] || tail == [Jmp(j)]) && j != l
    ensures Lacks(tail + [Label(j)], l)
  {
    if tail == [] {
      assert tail + [Label(j)] == [Label(j)];
    } else {
      assert tail + [Label(j)] == [Jmp(j), Label(j)];
    }
  }

  lemma Missed(env: Env, l: nat, c: seq<Instr>, m: State)
    requires FindLabel(c, l) == |c|
    ensures JumpInto(env, l, m, c) == Escape(l, m)
  {
  }

  // One more condition of an if chain.
  lemma ChainElseIf(fr: Frame, p: seq<Instr>, l: nat, c: Cmd, rest: Cmd, q: seq<Instr>, l2: nat, rest2: Cmd, j: nat)
    requires Opens(fr, p, l, c, rest) && Opens(fr, q, l2, rest, rest2)
    requires j != l && j != l2 && Lacks(q, j)
    ensures Opens(fr, p + Detour(j, l, q, [Jmp(j)]), l2, c, rest2)
  {
    hide Exec, Detour, Run, AtBoundary, Around;
    var d := Detour(j, l, q, [Jmp(j)]);
    forall env: Env, m: State, st: Store | AtBoundary(fr, st, m)
      ensures OpensTo(Exec(env, p + d, m), Run(c, st, env), Run(rest2, st, env), fr, st, Around(fr.pars, m), l2)
    {
      ExecConcat(env, p, d, m);
      var o := Exec(env, p, m);
      assert OpensTo(o, Run(c, st, env), Run(rest, st, env), fr, st, Around(fr.pars, m), l);
      if !o.Trap? {
        DetourRuns(env, j, l, q, [Jmp(j)], o.m);
        if o.Escape? {
          TailRuns(env, j, q, [Jmp(j)], o.m);
          assert OpensTo(Exec(env, q, o.m), Run(rest, st, env), Run(rest2, st, env), fr, st, Around(fr.pars, o.m), l2);
        }
      }
    }
  }

  // The last branch.
  lemma CloseElse(fr: Frame, p: seq<Instr>, l: nat, c: Cmd, rest: Cmd, q: seq<Instr>, j: nat)
    requires Opens(fr, p, l, c, rest) && Performs(fr, q, rest, fr)
    requires j != l && Lacks(q, j)
    ensures Performs(fr, p + Detour(j, l, q, []), c, fr)
  {
    hide Exec, Detour, Run, AtBoundary, Around;
    var d := Detour(j, l, q, []);
    forall env: Env, m: State, st: Store | AtBoundary(fr, st, m)
      ensures Ends(Exec(env, p + d, m), Run(c, st, env), fr, Around(fr.pars, m))
    {
      ExecConcat(env, p, d, m);
      var o := Exec(env, p, m);
      assert OpensTo(o, Run(c, st, env), Run(rest, st, env), fr, st, Around(fr.pars, m), l);
      if !o.Trap? {
        DetourRuns(env, j, l, q, [], o.m);
        if o.Escape? {
          TailRuns(env, j, q, [], o.m);
          assert Ends(Exec(env, q, o.m), Run(rest, st, env), fr, Around(fr.pars, o.m));
        }
      }
    }
  }

  // No branch is left: the label of the last test is the end.
  lemma CloseIf(fr: Frame, p: seq<Instr>, l: nat, c: Cmd)
    requires Opens(fr, p, l, c, Skip)
    ensures Performs(fr, p + [Label(l)], c, fr)
  {
    hide Exec, AtBoundary, JumpInto, Around;
    forall env: Env, m: State, st: Store | AtBoundary(fr, st, m)
      ensures Ends(Exec(env, p + [Label(l)], m), Run(c, st, env), fr, Around(fr.pars, m))
    {
      ExecConcat(env, p, [Label(l)], m);
      var o := Exec(env, p, m);
      assert OpensTo(o, Run(c, st, env), Run(Skip, st, env), fr, st, Around(fr.pars, m), l);
      if !o.Trap? {
        EndLabel(env, l, o.m);
      }
    }
  }

  lemma EndLabel(env: Env, l: nat, m: State)
    ensures Exec(env, [Label(l)], m) == JumpInto(env, l, m, [Label(l)]) == Fall(m)
  {
    OpCode.Chain1(env, Label(l), m, m);
    assert [Label(l)][0..] == [Label(l)];
  }

  // ----- finished and open pieces with their labels -----

  ghost predicate Lacks(p: seq<Instr>, l: nat) {
    forall i :: 0 <= i < |p| ==> p[i] != Label(l)
  }

  /** Code p for command c, with labels in (lo, hi]. */
  ghost predicate Finished(fr: Frame, p: seq<Instr>, c: Cmd, fr': Frame, lo: nat, hi: nat) {
    lo <= hi && Labelled(p, lo, hi) && Performs(fr, p, c, fr')
  }

  /** Code p for command c up to branch rest, whose label l is not placed yet. */
  ghost predicate Unfinished(fr: Frame, p: seq<Instr>, l: nat, c: Cmd, rest: Cmd, lo: nat, hi: nat) {
    lo < l <= hi && Labelled(p, lo, hi) && Lacks(p, l) && Opens(fr, p, l, c, rest)
  }

  lemma OutOfRange(p: seq<Instr>, lo: nat, hi: nat, l: nat)
    requires Labelled(p, lo, hi) && (l <= lo || hi < l)
    ensures Lacks(p, l)
  {
  }

  lemma LacksConcat(p: seq<Instr>, q: seq<Instr>, l: nat)
    requires Lacks(p, l) && Lacks(q, l)
    ensures Lacks(p + q, l)
  {
  }

  lemma SkipFinished(fr: Frame, n: nat)
    ensures Finished(fr, [], Skip, fr, n, n)
  {
    SkipPerforms(fr);
    hide Performs;
  }

  lemma SeqFinished(fr: Frame, p: seq<Instr>, a: Cmd, fr1: Frame, q: seq<Instr>, b: Cmd, fr2: Frame, lo: nat, mid: nat,
                    hi: nat)
    requires Finished(fr, p, a, fr1, lo, mid) && Finished(fr1, q, b, fr2, mid, hi)
    ensures Finished(fr, p + q, Seq(a, b), fr2, lo, hi)
  {
    hide Performs;
    SeqPerforms(fr, p, a, fr1, q, b, fr2);
    LabelledConcat(p, lo, mid, q, mid, hi);
  }

  lemma BlockFinished(fr: Frame, p: seq<Instr>, a: Cmd, fr1: Frame, lo: nat, hi: nat)
    requires Layout(fr) && Extends(fr, fr1) && Finished(fr, p, a, fr1, lo, hi)
    ensures Finished(fr, p + DropCode(fr1.d - fr.d), Block(a), fr, lo, hi)
  {
    hide Performs;
    BlockPerforms(fr, p, a, fr1);
    LabelledConcat(p, lo, hi, DropCode(fr1.d - fr.d), hi, hi);
  }

  lemma NewVarFinished(fr: Frame, x: Ident, n: nat)
    requires Layout(fr) && x !in fr.sc.vars
    ensures Finished(fr, AllocCode(), NewVar(x), Grow(fr, x), n, n)
  {
    hide Performs, Grow, Layout;
    NewVarPerforms(fr, x);
  }

  lemma PlainFinished(fr: Frame, p: seq<Instr>, c: Cmd, fr': Frame, n: nat)
    requires Performs(fr, p, c, fr') && Pieces.NoLabels(p)
    ensures Finished(fr, p, c, fr', n, n)
  {
    hide Performs;
  }

  lemma IfOpens(fr: Frame, cc: seq<Instr>, e: Exp, s0: Cache, p: seq<Instr>, checked: bool, a: Cmd, b: Cmd, lo: nat,
                l: nat, hi: nat)
    requires l >= 1 && Generates(fr.sc, cc, e, s0, Ax, lo, l - 1) && !s0.Ax? && Finished(fr, p, a, fr, l, hi)
    requires Fragment(fr.sc, e) && ShortCircuit.DynBool(fr.sc, e)
    ensures Unfinished(fr, cc + (ShortCircuit.TestJump(true, l) + p), l, Branch(checked, e, a, b), b, lo, hi)
  {
    var t := ShortCircuit.TestJump(true, l);
    hide Performs, Opens, Computes, Fragment, Static;
    OutOfRange(p, l, hi, l);
    OutOfRange(cc, lo, l - 1, l);
    BranchOpens(fr, cc, e, s0, l, p, checked, a, b);
    LabelledConcat(t, l, l, p, l, hi);
    LabelledConcat(cc, lo, l - 1, t + p, l, hi);
    hide Labelled, Lacks;
    LacksConcat(t, p, l);
    LacksConcat(cc, t + p, l);
  }

  lemma DetourLabels(p: seq<Instr>, lo: nat, l: nat, j: nat, q: seq<Instr>, tail: seq<Instr>, hi: nat)
    requires lo < l < j <= hi && Labelled(p, lo, j - 1) && Lacks(p, l) && Labelled(q, j, hi)
             && (tail == [] || tail == [Jmp(j)])
    ensures Labelled(p + Detour(j, l, q, tail), lo, hi)
    ensures forall k: nat :: k > j && Lacks(q, k) ==> Lacks(p + Detour(j, l, q, tail), k)
  {
    var e := tail + [Label(j)];
    assert Labelled(e, j - 1, j);
    assert forall k: nat :: k > j ==> Lacks(e, k) && Lacks(p, k);
    LabelledConcat(q, j, hi, e, j - 1, j);
    var f := [Label(l)] + (q + e);
    assert Labelled([Label(l)], l - 1, l);
    LabelledConcat([Label(l)], l - 1, l, q + e, j - 1, hi);
    var d := [Jmp(j)] + f;
    assert Labelled(d, l - 1, hi);
    assert d == Detour(j, l, q, tail);
    DetourUnique(p, lo, l, j, d, hi);
  }

  lemma DetourUnique(p: seq<Instr>, lo: nat, l: nat, j: nat, d: seq<Instr>, hi: nat)
    requires lo < l < j <= hi && Labelled(p, lo, j - 1) && Lacks(p, l) && Labelled(d, l - 1, hi)
    requires forall i :: 0 <= i < |d| && d[i].Label? ==> d[i].lbl == l || d[i].lbl >= j
    ensures Labelled(p + d, lo, hi)
  {
  }

  lemma IfContinues(fr: Frame, p: seq<Instr>, l: nat, c: Cmd, rest: Cmd, q: seq<Instr>, l2: nat, rest2: Cmd, lo: nat,
                    j: nat, hi: nat)
    requires j >= 1 && Unfinished(fr, p, l, c, rest, lo, j - 1) && Unfinished(fr, q, l2, rest, rest2, j, hi)
    ensures Unfinished(fr, p + Detour(j, l, q, [Jmp(j)]), l2, c, rest2, lo, hi)
  {
    hide Opens, Detour;
    OutOfRange(q, j, hi, j);
    ChainElseIf(fr, p, l, c, rest, q, l2, rest2, j);
    DetourLabels(p, lo, l, j, q, [Jmp(j)], hi);
  }

  lemma IfCloses(fr: Frame, p: seq<Instr>, l: nat, c: Cmd, rest: Cmd, q: seq<Instr>, lo: nat, j: nat, hi: nat)
    requires j >= 1 && Unfinished(fr, p, l, c, rest, lo, j - 1) && Finished(fr, q, rest, fr, j, hi)
    ensures Finished(fr, p + Detour(j, l, q, []), c, fr, lo, hi)
  {
    hide Opens, Performs, Detour;
    OutOfRange(q, j, hi, j);
    CloseElse(fr, p, l, c, rest, q, j);
    DetourLabels(p, lo, l, j, q, [], hi);
  }

  lemma IfEnds(fr: Frame, p: seq<Instr>, l: nat, c: Cmd, lo: nat, hi: nat)
    requires Unfinished(fr, p, l, c, Skip, lo, hi)
    ensures Finished(fr, p + [Label(l)], c, fr, lo, hi)
  {
    hide Opens, Performs;
    CloseIf(fr, p, l, c);
    var p' := p + [Label(l)];
    assert forall i :: 0 <= i < |p| ==> p'[i] == p[i];
  }

  // ----- sequences read from the left -----

  ghost predicate Same(a: Cmd, b: Cmd) {
    forall st: Store, env: Env :: Run(a, st, env) == Run(b, st, env)
  }

  lemma FinishedSame(fr: Frame, p: seq<Instr>, a: Cmd, b: Cmd, fr': Frame, lo: nat, hi: nat)
    requires Finished(fr, p, a, fr', lo, hi) && Same(a, b)
    ensures Finished(fr, p, b, fr', lo, hi)
  {
    hide Exec, Run, Ends, AtBoundary;
    forall env: Env, m: State, st: Store | AtBoundary(fr, st, m)
      ensures Ends(Exec(env, p, m), Run(b, st, env), fr', Around(fr.pars, m))
    {
      assert Run(a, st, env) == Run(b, st, env);
    }
  }

  lemma SameStart(c: Cmd)
    ensures Same(Seq(Skip, c), c)
  {
  }

  lemma SameEnd(c: Cmd, whole: Cmd)
    requires Same(Seq(c, Skip), whole)
    ensures Same(c, whole)
  {
    forall st: Store, env: Env
      ensures Run(c, st, env) == Run(whole, st, env)
    {
      assert Run(Seq(c, Skip), st, env) == Run(whole, st, env);
      var r := Run(c, st, env);
      assert r.Some? ==> Run(Skip, r.value, env) == r;
    }
  }

  lemma SameStep(whole: Cmd, done: Cmd, s: Cmd, rest: Cmd)
    requires Same(Seq(done, Seq(s, rest)), whole)
    ensures Same(Seq(Seq(done, s), rest), whole)
  {
    forall st: Store, env: Env
      ensures Run(Seq(Seq(done, s), rest), st, env) == Run(whole, st, env)
    {
      assert Run(Seq(done, Seq(s, rest)), st, env) == Run(whole, st, env);
      var r := Run(done, st, env);
      assert Run(Seq(done, s), st, env) == if r.None? then None else Run(s, r.value, env);
      if r.Some? {
        assert Run(Seq(s, rest), r.value, env) == Run(Seq(done, Seq(s, rest)), st, env);
      }
    }
  }

  // An assignment to an existing variable, whose right-hand side is computed at run time.
  lemma UpdateFinished(fr: Frame, c: seq<Instr>, p: seq<Instr>, x: Ident, asg: AssignOp, e: Exp, s1: Cache, lo: nat,
                       hi: nat)
    requires Layout(fr) && x in fr.sc.vars && Static(fr.sc, e).Some? && !Static(fr.sc, e).value.isConst
    requires Generates(fr.sc, c, e, Undef, s1, lo, hi) && StoresTop(p, asg, fr.sc.vars[x], s1) && Pieces.NoLabels(p)
    ensures Finished(fr, c + p, Update(x, asg, e), fr, lo, hi)
  {
    hide Computes, StoresTop, Performs, Layout, Static;
    UpdatePerforms(fr, c, p, x, asg, e, s1);
    Pieces.NoLabelsLabelled(p, hi);
    LabelledConcat(c, lo, hi, p, hi, hi);
  }

  lemma CreateFinished(fr: Frame, c: seq<Instr>, p: seq<Instr>, x: Ident, asg: AssignOp, e: Exp, s1: Cache, lo: nat,
                       hi: nat)
    requires Layout(fr) && x !in fr.sc.vars && Static(fr.sc, e).Some? && !Static(fr.sc, e).value.isConst
    requires Generates(fr.sc, c, e, Undef, s1, lo, hi) && StoresTop(p, asg, NextOffset(fr.d), s1) && Pieces.NoLabels(p)
    ensures Finished(fr, AllocCode() + (c + p), Update(x, asg, e), Grow(fr, x), lo, hi)
  {
    hide Computes, StoresTop, Performs, Layout, Static, Grow;
    CreatePerforms(fr, c, p, x, asg, e, s1);
    Pieces.NoLabelsLabelled(p, hi);
    LabelledConcat(c, lo, hi, p, hi, hi);
    Pieces.NoLabelsLabelled(AllocCode(), lo);
    hide AllocCode;
    LabelledConcat(AllocCode(), lo, lo, c + p, lo, hi);
  }

  lemma UpdateConstFinished(fr: Frame, p: seq<Instr>, x: Ident, asg: AssignOp, e: Exp, n: nat, lbl: nat)
    requires Layout(fr) && x in fr.sc.vars && StoresConst(p, asg, fr.sc.vars[x], n) && Pieces.NoLabels(p)
    requires Fragment(fr.sc, e) && Static(fr.sc, e).Some? && Static(fr.sc, e).value.isConst
             && Static(fr.sc, e).value.n == n
    ensures Finished(fr, p, Update(x, asg, e), fr, lbl, lbl)
  {
    hide Performs, StoresConst, Layout, Static, Fragment, Eval;
    forall st: Store, env: Env
      ensures Eval(e, st, env) == Some(Wrap(n))
    {
      ConstEval(fr.sc, e, st, env);
      WrapSmall(n);
    }
    UpdateConstPerforms(fr, p, x, asg, e, n);
    PlainFinished(fr, p, Update(x, asg, e), fr, lbl);
  }

  /** A value that can be assigned to a variable of type I64: all but the boolean constants. */
  predicate Assignable(v: Value) { v.isConst ==> v.ty.IntT? }

  // What the compiler knows about the right-hand side of an assignment.
  lemma AssignFacts(fr: Frame, x: Ident, asg: AssignOp, e: Exp)
    requires AssignOk(fr.sc, x, e)
    ensures Fragment(fr.sc, e)
    ensures Place(fr, Update(x, asg, e)).Some? <==> Static(fr.sc, e).Some? && Assignable(Static(fr.sc, e).value)
    ensures x !in fr.sc.vars && Static(fr.sc, e).Some? ==> Static(fr.sc, e).value == DYN_INT
    ensures Static(fr.sc, e).Some? && Static(fr.sc, e).value.isConst ==>
              0 <= Static(fr.sc, e).value.n <= MAX_LIT && !e.Apply?
  {
    hide Fragment;
    if Static(fr.sc, e).Some? && Static(fr.sc, e).value.isConst {
      Pieces.ConstInRange(fr.sc, e);
    }
  }

  // What the fragment says of an assignment.
  lemma UpdateFacts(fr: Frame, x: Ident, asg: AssignOp, e: Exp)
    requires InFragment(fr, Update(x, asg, e))
    ensures Fragment(fr.sc, e) && AssignOk(fr.sc, x, e)
    ensures Place(fr, Update(x, asg, e)) ==
            if Static(fr.sc, e).Some? && Assignable(Static(fr.sc, e).value)
              then Some(if x in fr.sc.vars then fr else Grow(fr, x)) else None
    ensures Static(fr.sc, e).Some? ==>
              var v := Static(fr.sc, e).value;
              && (v.isConst ==> 0 <= v.n <= MAX_LIT && x in fr.sc.vars)
              && (!v.isConst ==> v in {DYN_INT, DYN_BOOL} && !asg.DivBy? && (asg.MulBy? ==> !e.Apply?))
  {
    hide Fragment, Static;
    if Static(fr.sc, e).Some? {
      if Static(fr.sc, e).value.isConst {
        Pieces.ConstInRange(fr.sc, e);
      } else {
        Pieces.DynValue(fr.sc, e);
      }
    }
  }

  lemma ValueState(sc: Scope, c: seq<Instr>, e: Exp, s1: Cache, lo: nat, hi: nat)
    requires Generates(sc, c, e, Undef, s1, lo, hi)
    ensures Static(sc, e).Some?
    ensures Static(sc, e).value.isConst ==> c == [] && s1 == Undef && lo == hi
    ensures !Static(sc, e).value.isConst ==> s1 == (if e.Apply? then Sp else Ax)
  {
    hide Computes, Static;
  }

  // The code of an assignment statement, for a new variable or an old one, from a constant or a computed value.
  lemma AssignFinished(fr: Frame, a: seq<Instr>, c: seq<Instr>, p: seq<Instr>, x: Ident, asg: AssignOp, e: Exp,
                       s1: Cache, lo: nat, hi: nat)
    requires Layout(fr) && InFragment(fr, Update(x, asg, e)) && Generates(fr.sc, c, e, Undef, s1, lo, hi)
    requires Assignable(Static(fr.sc, e).value) && a == (if x in fr.sc.vars then [] else AllocCode())
    requires AssignsValue(p, asg, SlotOf(fr, x), Static(fr.sc, e).value, s1)
    ensures Finished(fr, a + (c + p), Update(x, asg, e), if x in fr.sc.vars then fr else Grow(fr, x), lo, hi)
  {
    UpdateFacts(fr, x, asg, e);
    ValueState(fr.sc, c, e, s1, lo, hi);
    hide Generates, Layout, Static, Fragment, StoresTop, StoresConst, Stores, DividesInto, AllocCode, Finished, Grow;
    var v := Static(fr.sc, e).value;
    assert [] + (c + p) == c + p;
    if v.isConst {
      UpdateConstFinished(fr, p, x, asg, e, v.n, lo);
      assert [] + p == p;
    } else {
      if asg.MulBy? {
        StoresInRax(p, asg, SlotOf(fr, x));
      }
      if x in fr.sc.vars {
        UpdateFinished(fr, c, p, x, asg, e, s1, lo, hi);
      } else {
        CreateFinished(fr, c, p, x, asg, e, s1, lo, hi);
      }
    }
  }

  // The forms of an assignment statement, by the token after the name.
  lemma AssignTokens(fr: Frame, s: Stmt, k: Tokens, x: Ident, t: Tokens)
    requires (s.SAssign? || s.SIncr? || s.SDecr?) && OkStmt(s) && AfterStmt(s, k) && TokStmt(s, k) == Tok(Id(x), t)
    requires InFragment(fr, AbsStmt(s))
    ensures t.Tok?
    ensures t.head.PlusPlus? ==> t.tail == k && AbsStmt(s) == Update(x, AddTo, Lit(1)) && x in fr.sc.vars
    ensures t.head.MinusMinus? ==> t.tail == k && AbsStmt(s) == Update(x, SubFrom, Lit(1)) && x in fr.sc.vars
    ensures !t.head.PlusPlus? && !t.head.MinusMinus? ==>
              && s.SAssign? && t.head == Assign(s.asg) && OkExpr(s.e) && t.tail == TokExpr(s.e, k)
              && Pieces.AfterExpr(k)
              && AbsStmt(s) == Update(x, s.asg, AbsExpr(s.e))
    ensures Place(fr, AbsStmt(s)).Some? ==> Place(fr, AbsStmt(s)).value == if x in fr.sc.vars then fr else Grow(fr, x)
  {
    hide TokExpr, AbsExpr, OkExpr;
  }

  // A boolean computed at run time is in rax.
  lemma CondState(sc: Scope, c: seq<Instr>, e: Exp, s0: Cache, s1: Cache, lo: nat, hi: nat)
    requires Generates(sc, c, e, s0, s1, lo, hi) && IsDyn(sc, e) && Static(sc, e).Some?
    ensures lo <= hi && !Static(sc, e).value.isConst
    ensures Static(sc, e).value.ty.BoolT? ==> s1 == Ax
  {
    hide Computes;
  }

  // What follows the condition.
  function AfterCondition(s: Stmt, k: Tokens): Tokens
    requires s.SIf? || s.SCond?
  {
    if s.SIf? then TokBlock(s.body, TokElse(s.tail, k))
    else Tok(if s.colon then Colon else Qmark, TokStmt(s.a, TokCond(s.more, k)))
  }

  lemma IfTokens(fr: Frame, s: Stmt, k: Tokens)
    requires (s.SIf? || s.SCond?) && OkStmt(s) && InFragment(fr, AbsStmt(s))
    ensures TokStmt(s, k) == Tok(If, TokExpr(s.e, AfterCondition(s, k))) && Pieces.AfterExpr(AfterCondition(s, k))
            && OkExpr(s.e)
    ensures Fragment(fr.sc, AbsExpr(s.e)) && IsDyn(fr.sc, AbsExpr(s.e))
    ensures Place(fr, AbsStmt(s)).Some? ==> CondOk(fr.sc, AbsExpr(s.e))
  {
    hide TokExpr, AbsExpr, OkExpr, Fragment, Static;
  }

  // The parts of an if statement.
  lemma IfParts(fr: Frame, s: Stmt, k: Tokens)
    requires s.SIf? && OkStmt(s) && AfterStmt(s, k)
    ensures OkStmts(s.body) && OkElse(s.tail) && AfterElse(k)
    ensures AbsStmt(s) == Branch(true, AbsExpr(s.e), Block(AbsStmts(s.body)), AbsElse(s.tail))
  {
    hide AbsExpr, OkExpr;
  }

  lemma BranchFacts(fr: Frame, checked: bool, e: Exp, a: Cmd, b: Cmd)
    requires InFragment(fr, Branch(checked, e, a, b))
    ensures Fragment(fr.sc, e) && IsDyn(fr.sc, e) && InFragment(fr, a) && InFragment(fr, b)
    ensures CondOk(fr.sc, e) ==> ShortCircuit.DynBool(fr.sc, e)
    ensures !checked && Static(fr.sc, e).Some? ==> CondOk(fr.sc, e)
    ensures (Place(fr, a).Some? ==> Place(fr, a) == Some(fr)) && (Place(fr, b).Some? ==> Place(fr, b) == Some(fr))
    ensures Place(fr, Branch(checked, e, a, b)) ==
            if CondOk(fr.sc, e) && Place(fr, a).Some? && Place(fr, b).Some? then Some(fr) else None
  {
    hide Fragment, Static;
  }

  lemma BlockFragment(fr: Frame, c: Cmd)
    requires InFragment(fr, Block(c))
    ensures InFragment(fr, c)
  {
  }

  // One turn of the loop over else branches.
  lemma ElseStep(fr: Frame, t: ElseTail, k: Tokens)
    requires OkElse(t) && AfterElse(k) && TokElse(t, k).Tok? && TokElse(t, k).head.Else?
    ensures !t.NoElse? && TokElse(t, k) == Tok(Token.Else, TokElse(t, k).tail) && TokElse(t, k).tail.Tok?
    ensures TokElse(t, k).tail.head.If? <==> t.ElseIf?
  {
    hide OkExpr, TokExpr;
  }

  lemma NoElseFacts(fr: Frame, k: Tokens)
    ensures OkElse(NoElse) && TokElse(NoElse, k) == k && AbsElse(NoElse) == Skip && InFragment(fr, Skip)
            && Place(fr, Skip) == Some(fr)
  {
  }

  lemma ElseEnds(fr: Frame, t: ElseTail, k: Tokens)
    requires OkElse(t) && AfterElse(k) && !(TokElse(t, k).Tok? && TokElse(t, k).head.Else?)
    ensures t.NoElse? && TokElse(t, k) == k && AbsElse(t) == Skip && Place(fr, AbsElse(t)) == Some(fr)
  {
    hide OkExpr, TokExpr;
  }

  // The same instructions, bracketed as they are written and as they are read.
  lemma DetourJoined(out: seq<Instr>, p0: seq<Instr>, p: seq<Instr>, j: nat, l: nat, q: seq<Instr>, tail: seq<Instr>)
    ensures out + p + [Jmp(j)] + [Label(l)] + (q + (tail + [Label(j)])) == out + (p + Detour(j, l, q, tail))
    ensures p0 + p + Detour(j, l, q, tail) == p0 + (p + Detour(j, l, q, tail))
  {
    var e := q + (tail + [Label(j)]);
    Pieces.Assoc(out + p, [Jmp(j)], [Label(l)]);
    Pieces.Assoc(out + p, [Jmp(j)] + [Label(l)], e);
    Pieces.Assoc([Jmp(j)], [Label(l)], e);
    Pieces.Assoc(out, p, Detour(j, l, q, tail));
    Pieces.Assoc(p0, p, Detour(j, l, q, tail));
  }

  lemma DetourOpen(out: seq<Instr>, p0: seq<Instr>, p: seq<Instr>, j: nat, l: nat, q: seq<Instr>)
    ensures var d := [Jmp(j)] + ([Label(l)] + q);
            && out + p + [Jmp(j)] + [Label(l)] + q == out + (p + d)
            && p0 + p + Detour(j, l, q, []) == p0 + (p + d) + [Label(j)]
  {
    var d := [Jmp(j)] + ([Label(l)] + q);
    Pieces.Assoc(out + p, [Jmp(j)], [Label(l)]);
    Pieces.Assoc(out + p, [Jmp(j)] + [Label(l)], q);
    Pieces.Assoc([Jmp(j)], [Label(l)], q);
    Pieces.Assoc(out, p, d);
    assert [] + [Label(j)] == [Label(j)];
    Pieces.Assoc([Label(l)], q, [Label(j)]);
    Pieces.Assoc([Jmp(j)], [Label(l)] + q, [Label(j)]);
    Pieces.Assoc(p0, p, d);
    Pieces.Assoc(p0 + p, d, [Label(j)]);
  }

  lemma LabelJoined(out: seq<Instr>, p0: seq<Instr>, p: seq<Instr>, l: nat)
    ensures out + p + [Label(l)] == out + (p + [Label(l)])
    ensures p0 + p + [Label(l)] == p0 + (p + [Label(l)])
  {
  }

  function Branches(t: ElseTail): nat { if t.NoElse? then 0 else if t.Else? then 1 else 1 + Branches(t.tail) }

  lemma ElseIfStep(fr: Frame, out: seq<Instr>, p0: seq<Instr>, p: seq<Instr>, l: nat, c: Cmd, rest: Cmd, q: seq<Instr>,
                   l2: nat, rest2: Cmd, lo: nat, j: nat, hi: nat)
    requires j >= 1 && Unfinished(fr, p0 + p, l, c, rest, lo, j - 1) && Unfinished(fr, q, l2, rest, rest2, j, hi)
    ensures var p' := p + Detour(j, l, q, [Jmp(j)]);
            && out + p + [Jmp(j)] + [Label(l)] + (q + ([Jmp(j)] + [Label(j)])) == out + p'
            && Unfinished(fr, p0 + p', l2, c, rest2, lo, hi) && l2 != 0
  {
    DetourJoined(out, p0, p, j, l, q, [Jmp(j)]);
    IfContinues(fr, p0 + p, l, c, rest, q, l2, rest2, lo, j, hi);
    hide Opens, Labelled, Detour;
  }

  lemma ElseBlockStep(fr: Frame, out: seq<Instr>, p0: seq<Instr>, p: seq<Instr>, l: nat, c: Cmd, rest: Cmd,
                      q: seq<Instr>, lo: nat, j: nat, hi: nat)
    requires j >= 1 && Unfinished(fr, p0 + p, l, c, rest, lo, j - 1) && Finished(fr, q, rest, fr, j, hi)
    ensures var p' := p + ([Jmp(j)] + ([Label(l)] + q));
            out + p + [Jmp(j)] + [Label(l)] + q == out + p' && Finished(fr, p0 + p' + [Label(j)], c, fr, lo, hi)
  {
    DetourOpen(out, p0, p, j, l, q);
    IfCloses(fr, p0 + p, l, c, rest, q, lo, j, hi);
    hide Opens, Labelled, Detour, Finished;
  }

  lemma CondElseStep(fr: Frame, out: seq<Instr>, p0: seq<Instr>, l: nat, c: Cmd, rest: Cmd, q: seq<Instr>, lo: nat,
                     j: nat, hi: nat)
    requires j >= 1 && Unfinished(fr, p0, l, c, rest, lo, j - 1) && Finished(fr, q, rest, fr, j, hi)
    ensures var p := [Jmp(j)] + ([Label(l)] + q) + [Label(j)];
            out + [Jmp(j)] + [Label(l)] + q + [Label(j)] == out + p && Finished(fr, p0 + p, c, fr, lo, hi)
  {
    hide Unfinished, Finished;
    assert p0 + [] == p0 && out + [] == out;
    var d := [Jmp(j)] + ([Label(l)] + q);
    assert [] + d == d;
    ElseBlockStep(fr, out, p0, [], l, c, rest, q, lo, j, hi);
    LabelJoined(out, p0, d, j);
  }

  lemma ElseIfParts(fr: Frame, t: ElseTail, k: Tokens)
    requires t.ElseIf? && OkElse(t) && InFragment(fr, AbsElse(t))
    ensures var k1 := TokBlock(t.body, TokElse(t.tail, k));
            && TokElse(t, k) == Tok(Token.Else, Tok(If, TokExpr(t.e, k1))) && Pieces.AfterExpr(k1)
            && k1 == Tok(Lbrace, TokStmts(t.body, Tok(Rbrace, TokElse(t.tail, k))))
    ensures OkExpr(t.e) && OkStmts(t.body) && OkElse(t.tail)
    ensures AbsElse(t) == Branch(false, AbsExpr(t.e), Block(AbsStmts(t.body)), AbsElse(t.tail))
    ensures InFragment(fr, AbsStmts(t.body)) && InFragment(fr, AbsElse(t.tail))
    ensures Fragment(fr.sc, AbsExpr(t.e)) && IsDyn(fr.sc, AbsExpr(t.e))
    ensures Static(fr.sc, AbsExpr(t.e)).Some? ==>
              Static(fr.sc, AbsExpr(t.e)).value.ty.BoolT? && ShortCircuit.DynBool(fr.sc, AbsExpr(t.e))
    ensures Place(fr, AbsElse(t)).Some? <==>
              Static(fr.sc, AbsExpr(t.e)).Some? && Place(fr, Block(AbsStmts(t.body))).Some?
                && Place(fr, AbsElse(t.tail)).Some?
  {
    hide AbsExpr, OkExpr, TokExpr, Fragment, Static, InFragment, Place;
    BranchFacts(fr, false, AbsExpr(t.e), Block(AbsStmts(t.body)), AbsElse(t.tail));
    BlockFragment(fr, AbsStmts(t.body));
  }

  lemma ElseParts(fr: Frame, t: ElseTail, k: Tokens)
    requires t.Else? && OkElse(t) && InFragment(fr, AbsElse(t))
    ensures TokElse(t, k) == Tok(Token.Else, Tok(Lbrace, TokStmts(t.body, Tok(Rbrace, k))))
    ensures OkStmts(t.body) && AbsElse(t) == Block(AbsStmts(t.body)) && InFragment(fr, AbsStmts(t.body))
  {
    hide InFragment;
    BlockFragment(fr, AbsStmts(t.body));
  }

  lemma BranchJoined(out: seq<Instr>, cc: seq<Instr>, q: seq<Instr>, j: nat)
    ensures out + cc + q + [Jmp(j)] + [Label(j)] == out + (cc + q + ([Jmp(j)] + [Label(j)]))
  {
    Pieces.Assoc(out, cc, q);
    Pieces.Assoc(out + (cc + q), [Jmp(j)], [Label(j)]);
    Pieces.Assoc(out, cc + q, [Jmp(j)] + [Label(j)]);
  }

  // The parts of `if c ? a : b`.
  lemma CondParts(fr: Frame, s: Stmt, k: Tokens)
    requires s.SCond? && OkStmt(s) && AfterStmt(s, k) && InFragment(fr, AbsStmt(s)) && CondOk(fr.sc, AbsExpr(s.e))
    ensures OkStmt(s.a) && OkCond(s.more) && AfterStmt(s.a, TokCond(s.more, k)) && AfterCond(s.more, k)
    ensures AbsStmt(s) == Branch(true, AbsExpr(s.e), AbsStmt(s.a), AbsCond(s.more))
    ensures Fragment(fr.sc, AbsExpr(s.e)) && ShortCircuit.DynBool(fr.sc, AbsExpr(s.e))
    ensures InFragment(fr, AbsStmt(s.a)) && InFragment(fr, AbsCond(s.more))
    ensures (Place(fr, AbsStmt(s.a)).Some? ==> Place(fr, AbsStmt(s.a)) == Some(fr))
    ensures (Place(fr, AbsCond(s.more)).Some? ==> Place(fr, AbsCond(s.more)) == Some(fr))
    ensures Place(fr, AbsStmt(s)) ==
            if Place(fr, AbsStmt(s.a)).Some? && Place(fr, AbsCond(s.more)).Some? then Some(fr) else None
  {
    hide OkExpr, TokExpr, AbsExpr, InFragment, Place, Fragment, Static, CondOk, ShortCircuit.DynBool;
    BranchFacts(fr, true, AbsExpr(s.e), AbsStmt(s.a), AbsCond(s.more));
    hide AbsStmt, AbsCond, OkStmt, IsDyn;
    CondFollows(s, k);
  }

  lemma CondFollows(s: Stmt, k: Tokens)
    requires s.SCond? && OkStmt(s) && AfterStmt(s, k)
    ensures AfterStmt(s.a, TokCond(s.more, k)) && AfterCond(s.more, k)
  {
    hide OkExpr, TokExpr;
  }

  lemma SkipPlace(fr: Frame)
    ensures Place(fr, Skip) == Some(fr)
  {
  }

  lemma TestJoined(out: seq<Instr>, cc: seq<Instr>, t: seq<Instr>, a: seq<Instr>)
    ensures out + t + a == out + (t + a) && cc + (t + a) == cc + t + a
  {
  }

  // ----- whole function bodies -----

  /** The frame offsets of the parameters. */
  function ParOffsets(pars: seq<Ident>): map<Ident, int> {
    if pars == [] then map[] else ParOffsets(pars[..|pars| - 1])[pars[|pars| - 1] := ParOffset(|pars|)]
  }

  lemma {:induction false} ParsLayout(pars: seq<Ident>)
    ensures forall x :: x in ParOffsets(pars) ==>
              exists i: nat :: 1 <= i <= |pars| && ParOffsets(pars)[x] == ParOffset(i) && pars[i - 1] == x
  {
    if pars != [] {
      var q := pars[..|pars| - 1];
      ParsLayout(q);
      forall x | x in ParOffsets(pars)
        ensures exists i: nat :: 1 <= i <= |pars| && ParOffsets(pars)[x] == ParOffset(i) && pars[i - 1] == x
      {
        if x == pars[|pars| - 1] {
          assert ParOffsets(pars)[x] == ParOffset(|pars|) && pars[|pars| - 1] == x;
        } else {
          var i: nat :| 1 <= i <= |q| && ParOffsets(q)[x] == ParOffset(i) && q[i - 1] == x;
          assert ParOffsets(pars)[x] == ParOffset(i) && pars[i - 1] == x;
        }
      }
    }
  }

  lemma ParNumber(pars: seq<Ident>, x: Ident) returns (i: nat)
    requires x in ParOffsets(pars)
    ensures 1 <= i <= |pars| && ParOffsets(pars)[x] == ParOffset(i) && pars[i - 1] == x
  {
    ParsLayout(pars);
    hide ParOffsets;
    i :| 1 <= i <= |pars| && ParOffsets(pars)[x] == ParOffset(i) && pars[i - 1] == x;
  }

  lemma StartLayout(pars: seq<Ident>, fns: map<Ident, seq<Type>>)
    ensures Layout(Frame(Scope(ParOffsets(pars), fns), 0, |pars|))
  {
    hide ParOffsets, Layout;
    var v := ParOffsets(pars);
    forall x | x in v
      ensures v[x] % 8 == 0 && ParOffset(1) <= v[x] <= ParOffset(|pars|)
    {
      var i := ParNumber(pars, x);
    }
    forall x, y | x in v && y in v && x != y
      ensures v[x] != v[y]
    {
      var i := ParNumber(pars, x);
      var j := ParNumber(pars, y);
    }
    ParsOnly(v, fns, |pars|);
  }

  lemma ParsOnly(v: map<Ident, int>, fns: map<Ident, seq<Type>>, n: nat)
    requires forall x :: x in v ==> v[x] % 8 == 0 && ParOffset(1) <= v[x] <= ParOffset(n)
    requires forall x, y :: x in v && y in v && x != y ==> v[x] != v[y]
    ensures Layout(Frame(Scope(v, fns), 0, n))
  {
  }

  lemma LabelFinished(fr: Frame, l: nat)
    requires l >= 1
    ensures Finished(fr, [Label(l)], Skip, fr, l - 1, l)
  {
    hide Exec;
    forall env: Env, m: State, st: Store | AtBoundary(fr, st, m)
      ensures Ends(Exec(env, [Label(l)], m), Run(Skip, st, env), fr, Around(fr.pars, m))
    {
      EndLabel(env, l, m);
    }
  }

  // A body with the label that returns go to, and its local variables removed.
  lemma BodyFinished(fr: Frame, p: seq<Instr>, c: Cmd, fr1: Frame, l: nat, hi: nat)
    requires l >= 1 && Layout(fr) && Extends(fr, fr1) && Finished(fr, p, c, fr1, l, hi)
    ensures Finished(fr, p + ([Label(l)] + DropCode(fr1.d - fr.d)), Block(c), fr, l - 1, hi)
  {
    hide Performs, Layout, Extends, DropCode;
    var q := [Label(l)];
    LabelFinished(fr1, l);
    SeqPerforms(fr, p, c, fr1, q, Skip, fr1);
    LabelledConcat(p, l, hi, q, l - 1, l);
    SkipLast(c);
    FinishedSame(fr, p + q, Seq(c, Skip), c, fr1, l - 1, hi);
    BlockFinished(fr, p + q, c, fr1, l - 1, hi);
    Pieces.Assoc(p, q, DropCode(fr1.d - fr.d));
  }

  lemma SkipLast(c: Cmd)
    ensures Same(Seq(c, Skip), c)
  {
    forall st: Store, env: Env
      ensures Run(Seq(c, Skip), st, env) == Run(c, st, env)
    {
      var r := Run(c, st, env);
      assert r.Some? ==> Run(Skip, r.value, env) == r;
    }
  }

  // ----- functions that return a value -----

  /** The value of e after command c. */
  function FuncMeaning(c: Cmd, e: Exp, st: Store, env: Env): Option<Word> {
    var r := Run(c, st, env);
    if r.None? then None else Eval(e, r.value, env)
  }

  // The return slot is below the parameters.
  predicate HasReturnSlot(n: nat, m: State) { n + 3 <= m.bp <= |m.stack| }

  /** From a statement boundary, code p puts the value of e into the return slot and goes to label l. */
  ghost predicate Returns(fr: Frame, p: seq<Instr>, e: Exp, l: nat) {
    forall env: Env, m: State, st: Store :: AtBoundary(fr, st, m) && HasReturnSlot(fr.pars, m) ==>
      ReturnsTo(Exec(env, p, m), Eval(e, st, env), fr.pars, m, l)
  }

  ghost predicate ReturnsTo(o: Outcome, v: Option<Word>, n: nat, m: State, l: nat)
    requires HasReturnSlot(n, m)
  {
    match v
    case None => o.Trap?
    case Some(w) => o.Escape? && o.lbl == l && o.m.bp == m.bp && o.m.stack == m.stack[m.bp - 3 - n := w]
  }

  /**
   The code p of a whole body: the value of e after c is in the return slot, no local variable is left, and of the words
   below rbp's only the parameters may have changed; it traps exactly when c or e does.
   */
  ghost predicate FuncPerforms(fr: Frame, p: seq<Instr>, c: Cmd, e: Exp) {
    forall env: Env, m: State, st: Store :: AtBoundary(fr, st, m) && HasReturnSlot(fr.pars, m) ==>
      FuncEnds(Exec(env, p, m), FuncMeaning(c, e, st, env), fr.pars, m)
  }

  ghost predicate FuncEnds(o: Outcome, v: Option<Word>, n: nat, m: State)
    requires HasReturnSlot(n, m)
  {
    match v
    case None => o.Trap?
    case Some(w) => o.Fall? && Answers(n, w, m, o.m)
  }

  ghost predicate Answers(n: nat, w: Word, m: State, m': State)
    requires HasReturnSlot(n, m)
  {
    && m'.bp == m.bp == |m'.stack|
    && m'.stack[..m.bp - 2 - n] == m.stack[..m.bp - 3 - n] + [w]
    && m'.stack[m.bp - 2..] == m.stack[m.bp - 2..m.bp]
  }

  ghost predicate FuncFinished(fr: Frame, p: seq<Instr>, c: Cmd, e: Exp, lo: nat, hi: nat) {
    lo <= hi && Labelled(p, lo, hi) && FuncPerforms(fr, p, c, e)
  }

  // The store into the return slot and the jump.
  function ReturnCode(n: nat, l: nat): seq<Instr> { [Store(RetOffset(n, 0), Rax), Jmp(l)] }

  lemma StoreAndJump(env: Env, n: nat, l: nat, m: State)
    requires HasReturnSlot(n, m)
    ensures Exec(env, ReturnCode(n, l), m) == Escape(l, m.(stack := m.stack[m.bp - 3 - n := m.rax]))
  {
    var m1 := m.(stack := m.stack[m.bp - 3 - n := m.rax]);
    assert SlotIndex(m.bp, RetOffset(n, 0)) == m.bp - 3 - n;
    assert Step(env, Store(RetOffset(n, 0), Rax), m) == Next(m1);
    assert Step(env, Jmp(l), m1) == Goto(l, m1);
    hide Exec, Step;
    assert ReturnCode(n, l) == [Store(RetOffset(n, 0), Rax)] + [Jmp(l)];
    OpCode.First(env, Store(RetOffset(n, 0), Rax), [Jmp(l)], m, m1);
    OpCode.Last(env, Jmp(l), m1, Goto(l, m1));
  }

  lemma ReturnReturns(fr: Frame, c: seq<Instr>, e: Exp, s0: Cache, l: nat)
    requires Computes(fr.sc, c, e, s0, Ax) && !s0.Ax?
    ensures Returns(fr, c + ReturnCode(fr.pars, l), e, l)
  {
    hide Exec, Eval, ReturnCode, Models;
    forall env: Env, m: State, st: Store | AtBoundary(fr, st, m) && HasReturnSlot(fr.pars, m)
      ensures ReturnsTo(Exec(env, c + ReturnCode(fr.pars, l), m), Eval(e, st, env), fr.pars, m, l)
    {
      ExecConcat(env, c, ReturnCode(fr.pars, l), m);
      var v, o := Eval(e, st, env), Exec(env, c, m);
      assert Pushes(o, v, s0, Ax, m);
      if v.Some? {
        OneOnTop(m.stack, v.value, o.m);
        StoreAndJump(env, fr.pars, l, o.m);
      }
    }
  }

  lemma ReturnJoined(out: seq<Instr>, d: seq<Instr>, n: nat, l: nat)
    ensures out + (d + [Store(RetOffset(n, 0), Rax)]) + [Jmp(l)] == out + (d + ReturnCode(n, l))
  {
  }

  lemma ReturnLabelled(d: seq<Instr>, n: nat, l: nat, lo: nat, hi: nat)
    requires Labelled(d, lo, hi) && lo <= hi
    ensures Labelled(d + ReturnCode(n, l), lo, hi)
  {
    LabelledConcat(d, lo, hi, ReturnCode(n, l), hi, hi);
  }

  lemma ReturnFinished(fr: Frame, c: seq<Instr>, q: seq<Instr>, e: Exp, s0: Cache, s1: Cache, l: nat, lo: nat, hi: nat)
    requires Fragment(fr.sc, e) && !e.Apply? && !s0.Ax? && Generates(fr.sc, c, e, s0, s1, lo, hi)
    requires Static(fr.sc, e).Some? && (Static(fr.sc, e).value.isConst ==> Static(fr.sc, e).value.n >= 0)
    requires q == if Static(fr.sc, e).value.isConst then [Pieces.LoadConst(Static(fr.sc, e).value.n)] else []
    ensures Labelled((c + q) + ReturnCode(fr.pars, l), lo, hi) && Returns(fr, (c + q) + ReturnCode(fr.pars, l), e, l)
  {
    hide Fragment, Static, Generates, Labelled, Returns, Computes, ReturnCode;
    Pieces.ReturnValue(fr.sc, e, c, q, s0, s1, lo, hi);
    ReturnLabelled(c + q, fr.pars, l, lo, hi);
    ReturnReturns(fr, c + q, e, s0, l);
  }

  // `return f(x)` does not fetch the result of the call: the return slot gets a word that has nothing to do with it.
  lemma ReturnByCall(fr: Frame, c: seq<Instr>, f: Ident, es: seq<Exp>, l: nat, env: Env, m: State, st: Store)
    returns (s: State)
    requires AtBoundary(fr, st, m) && HasReturnSlot(fr.pars, m) && EvalAll(es, st, env).Some?
    requires env.fn(f, EvalAll(es, st, env).value).Some?
    requires Computes(fr.sc, c, Apply(f, es), Undef, Sp) && Calls.Clobbers(fr.sc, c, f, es)
    ensures var o := Exec(env, c + ReturnCode(fr.pars, l), m);
            o.Escape? && |o.m.stack| == |m.stack| + 1 && o.m.stack[m.bp - 3 - fr.pars] == env.junk(f, s, 0)
  {
    hide Exec, Eval, EvalAll, Models, ReturnCode;
    var vs := EvalAll(es, st, env).value;
    CallEval(f, es, st, env);
    ExecConcat(env, c, ReturnCode(fr.pars, l), m);
    assert Pushes(Exec(env, c, m), env.fn(f, vs), Undef, Sp, m);
    assert Calls.IsJunk(Exec(env, c, m), env, f, Some(vs));
    s :| Exec(env, c, m).m.rax == env.junk(f, s, 0);
    StoreAndJump(env, fr.pars, l, Exec(env, c, m).m);
  }

  // The statements, the return, and the end of the function.
  lemma FuncBodyPerforms(fr: Frame, p: seq<Instr>, c: Cmd, fr1: Frame, r: seq<Instr>, e: Exp, l: nat)
    requires fr.d == 0 && Extends(fr, fr1) && Performs(fr, p, c, fr1) && Returns(fr1, r, e, l)
    ensures FuncPerforms(fr, p + (r + ([Label(l)] + DropCode(fr1.d))), c, e)
  {
    hide Exec, Eval, Run, DropCode, Models;
    var d := [Label(l)] + DropCode(fr1.d);
    forall env: Env, m: State, st: Store | AtBoundary(fr, st, m) && HasReturnSlot(fr.pars, m)
      ensures FuncEnds(Exec(env, p + (r + d), m), FuncMeaning(c, e, st, env), fr.pars, m)
    {
      ExecConcat(env, p, r + d, m);
      var o, st1 := Exec(env, p, m), Run(c, st, env);
      assert Ends(o, st1, fr1, Around(fr.pars, m));
      if st1.Some? {
        ReturnRuns(env, fr1, r, e, l, st1.value, o.m);
        if Eval(e, st1.value, env).Some? {
          SlotAnswers(fr.pars, Eval(e, st1.value, env).value, m, o.m, Exec(env, r + d, o.m).m);
        }
      }
    }
  }

  lemma ReturnRuns(env: Env, fr: Frame, r: seq<Instr>, e: Exp, l: nat, st: Store, m: State)
    requires Returns(fr, r, e, l) && AtBoundary(fr, st, m) && HasReturnSlot(fr.pars, m)
    ensures var o := Exec(env, r + ([Label(l)] + DropCode(fr.d)), m);
            match Eval(e, st, env)
            case None => o.Trap?
            case Some(w) => o.Fall? && o.m.bp == m.bp && o.m.stack == m.stack[m.bp - 3 - fr.pars := w][..m.bp]
  {
    hide Exec, Eval, DropCode, Models, JumpInto;
    var d, v := DropCode(fr.d), Eval(e, st, env);
    ExecConcat(env, r, [Label(l)] + d, m);
    var o := Exec(env, r, m);
    assert ReturnsTo(o, v, fr.pars, m, l);
    if v.Some? {
      assert [] + ([Label(l)] + d) == [Label(l)] + d;
      LandsAt(env, l, [], d, o.m);
      DropRuns(env, fr.d, o.m);
    }
  }

  lemma SlotAnswers(n: nat, w: Word, m: State, m1: State, m': State)
    requires HasReturnSlot(n, m) && HasReturnSlot(n, m1) && Around(n, m1) == Around(n, m)
    requires m'.bp == m1.bp && m'.stack == m1.stack[m1.bp - 3 - n := w][..m1.bp]
    ensures Answers(n, w, m, m')
  {
    var k := m.bp - 2 - n;
    var a, a1 := m.stack[..k] + m.stack[m.bp - 2..m.bp], m1.stack[..k] + m1.stack[m.bp - 2..m.bp];
    assert a1 == a;
    assert m1.stack[..k] == a1[..k] == a[..k] == m.stack[..k];
    assert m1.stack[m.bp - 2..m.bp] == a1[k..] == a[k..] == m.stack[m.bp - 2..m.bp];
    assert m'.stack[..k] == m1.stack[..k][k - 1 := w] == m.stack[..k - 1] + [w];
    assert m'.stack[m.bp - 2..] == m1.stack[m.bp - 2..m.bp];
  }

  lemma FuncBodyFinished(fr: Frame, p: seq<Instr>, c: Cmd, fr1: Frame, r: seq<Instr>, e: Exp, l: nat, mid: nat, hi: nat)
    requires l >= 1 && fr.d == 0 && Extends(fr, fr1) && Finished(fr, p, c, fr1, l, mid)
    requires Returns(fr1, r, e, l) && Labelled(r, mid, hi) && mid <= hi
    ensures FuncFinished(fr, p + (r + ([Label(l)] + DropCode(fr1.d))), c, e, l - 1, hi)
  {
    hide Performs, Returns, FuncPerforms, Extends;
    FuncBodyPerforms(fr, p, c, fr1, r, e, l);
    var d := [Label(l)] + DropCode(fr1.d);
    assert Labelled(d, l - 1, l);
    LabelledConcat(r, mid, hi, d, l - 1, l);
    assert p + (r + d) == (p + r) + d;
    LabelledConcat(p, l, mid, r, mid, hi);
    LabelledConcat(p + r, l, hi, d, l - 1, l);
  }

  // What the parameters hold on entry; of two with the same name the later one counts.
  function ArgStore(pars: seq<Ident>, vs: seq<Word>): Store
    requires |pars| == |vs|
  {
    if pars == [] then map[] else ArgStore(pars[..|pars| - 1], vs[..|vs| - 1])[pars[|pars| - 1] := vs[|vs| - 1]]
  }

  lemma {:induction false} ArgStoreKeys(pars: seq<Ident>, vs: seq<Word>)
    requires |pars| == |vs|
    ensures ArgStore(pars, vs).Keys == ParOffsets(pars).Keys
    ensures forall x :: x in ParOffsets(pars) ==>
              exists i: nat :: i < |pars| && ParOffsets(pars)[x] == ParOffset(i + 1) && ArgStore(pars, vs)[x] == vs[i]
  {
    if pars != [] {
      var n := |pars| - 1;
      ArgStoreKeys(pars[..n], vs[..n]);
      forall x | x in ParOffsets(pars)
        ensures exists i: nat :: i < |pars| && ParOffsets(pars)[x] == ParOffset(i + 1) && ArgStore(pars, vs)[x] == vs[i]
      {
        if x == pars[n] {
          assert ParOffsets(pars)[x] == ParOffset(n + 1) && ArgStore(pars, vs)[x] == vs[n];
        } else {
          var i: nat :| i < n && ParOffsets(pars[..n])[x] == ParOffset(i + 1)
            && ArgStore(pars[..n], vs[..n])[x] == vs[..n][i];
          assert ParOffsets(pars)[x] == ParOffset(i + 1) && ArgStore(pars, vs)[x] == vs[i];
        }
      }
    }
  }

  /** The callee's machine on entry: the return address and the saved rbp on top of the caller's stack. */
  ghost predicate Entered(s: State, m: State) {
    m.bp == |m.stack| == |s.stack| + 2 && m.stack[..|s.stack|] == s.stack
  }

  // A call puts the arguments where the callee's parameters are.
  lemma EntryBoundary(pars: seq<Ident>, fns: map<Ident, seq<Type>>, s: State, k: nat, vs: seq<Word>, m: State)
    requires Calls.CallFrame(s, k, vs) && |vs| == |pars| && Entered(s, m)
    ensures AtBoundary(Frame(Scope(ParOffsets(pars), fns), 0, |pars|), ArgStore(pars, vs), m)
    ensures HasReturnSlot(|pars|, m) && m.bp - 3 - |pars| == k
  {
    hide ArgStore, ParOffsets, CalleeArgs, ReadSlot, ValidSlot;
    var v := ParOffsets(pars);
    assert ArgStore(pars, vs).Keys == v.Keys by { ArgStoreKeys(pars, vs); }
    forall x | x in v
      ensures ValidSlot(m, v[x]) && ReadSlot(m, v[x]) == ArgStore(pars, vs)[x]
    {
      var i := ArgNumber(pars, vs, x);
      ArgSlot(s, k, vs, m, i, v[x]);
    }
  }

  lemma ArgNumber(pars: seq<Ident>, vs: seq<Word>, x: Ident) returns (i: nat)
    requires |pars| == |vs| && x in ParOffsets(pars)
    ensures i < |pars| && ParOffsets(pars)[x] == ParOffset(i + 1) && x in ArgStore(pars, vs)
            && ArgStore(pars, vs)[x] == vs[i]
  {
    ArgStoreKeys(pars, vs);
    hide ArgStore, ParOffsets;
    assert x in ArgStore(pars, vs).Keys;
    i :| i < |pars| && ParOffsets(pars)[x] == ParOffset(i + 1) && ArgStore(pars, vs)[x] == vs[i];
  }

  // The word at the offset of parameter i.
  lemma ArgSlot(s: State, k: nat, vs: seq<Word>, m: State, i: nat, off: int)
    requires Calls.CallFrame(s, k, vs) && Entered(s, m) && i < |vs| && off == ParOffset(i + 1)
    ensures ValidSlot(m, off) && ReadSlot(m, off) == vs[i]
  {
    hide CalleeArgs;
    Calls.ArgumentAt(s, k, vs, i);
    Calls.CalleeArgAt(s, |vs|, i);
    assert SlotIndex(m.bp, off) == |s.stack| - 1 - i;
  }

  /**
   After n steps the run has trapped, or it is at its end with the value in the return slot, where the caller finds it
   on top of its own stack once the arguments are removed, and with the return address and the saved rbp as they were.
   */
  ghost predicate CallAnswered(env: Env, p: seq<Instr>, v: Option<Word>, s: State, k: nat, m: State, n: nat)
    requires k < |s.stack| <= |m.stack|
  {
    var cf := PcRun(env, p, At(0, m), n);
    match v
    case None => cf == Trapped
    case Some(w) =>
      && cf.At? && cf.pc == |p| && cf.m.bp == m.bp == |cf.m.stack| == |m.stack|
      && cf.m.stack[..k + 1] == s.stack[..k] + [w] && cf.m.stack[|s.stack|..] == m.stack[|s.stack|..]
  }

  /**
   Every call of the function, on the machine with a program counter, is answered by the value that the source means.
   */
  ghost predicate AnswersCalls(pars: seq<Ident>, p: seq<Instr>, c: Cmd, e: Exp) {
    forall env: Env, s: State, k: nat, vs: seq<Word>, m: State ::
      Calls.CallFrame(s, k, vs) && |vs| == |pars| && Entered(s, m) ==>
      Answered(env, p, FuncMeaning(c, e, ArgStore(pars, vs), env), s, k, m)
  }

  ghost predicate Answered(env: Env, p: seq<Instr>, v: Option<Word>, s: State, k: nat, m: State)
    requires k < |s.stack| <= |m.stack|
  {
    exists n: nat :: CallAnswered(env, p, v, s, k, m, n)
  }

  lemma FuncRuns(pars: seq<Ident>, fns: map<Ident, seq<Type>>, p: seq<Instr>, c: Cmd, e: Exp, lo: nat, hi: nat,
                 env: Env, s: State, k: nat, vs: seq<Word>, m: State)
    returns (n: nat)
    requires FuncFinished(Frame(Scope(ParOffsets(pars), fns), 0, |pars|), p, c, e, lo, hi)
    requires Calls.CallFrame(s, k, vs) && |vs| == |pars| && Entered(s, m)
    ensures CallAnswered(env, p, FuncMeaning(c, e, ArgStore(pars, vs), env), s, k, m, n)
  {
    hide Exec, Run, Eval, PcRun, ArgStore, ParOffsets, FuncMeaning, AtBoundary, FuncPerforms, Answers;
    EntryBoundary(pars, fns, s, k, vs, m);
    var o, v := Exec(env, p, m), FuncMeaning(c, e, ArgStore(pars, vs), env);
    FuncReached(Frame(Scope(ParOffsets(pars), fns), 0, |pars|), p, c, e, env, m, ArgStore(pars, vs));
    assert p[0..] == p;
    if v.None? {
      n := TrapIsPcTrap(env, p, 0, m);
    } else {
      n := ExecIsPcRun(env, p, 0, m, o.m);
      AnswerSeen(|pars|, v.value, s, k, m, o.m);
    }
  }

  lemma FuncReached(fr: Frame, p: seq<Instr>, c: Cmd, e: Exp, env: Env, m: State, st: Store)
    requires FuncPerforms(fr, p, c, e) && AtBoundary(fr, st, m) && HasReturnSlot(fr.pars, m)
    ensures FuncEnds(Exec(env, p, m), FuncMeaning(c, e, st, env), fr.pars, m)
  {
    hide Exec, FuncMeaning, AtBoundary, FuncEnds;
  }

  // What the caller sees of the answer.
  lemma AnswerSeen(n: nat, w: Word, s: State, k: nat, m: State, m': State)
    requires HasReturnSlot(n, m) && Answers(n, w, m, m') && Entered(s, m) && m.bp - 3 - n == k < |s.stack|
    ensures |m'.stack| == |m.stack| == m'.bp == m.bp
    ensures m'.stack[..k + 1] == s.stack[..k] + [w] && m'.stack[|s.stack|..] == m.stack[|s.stack|..]
  {
    assert m.stack[..k] == s.stack[..k];
  }

  lemma FuncAnswers(pars: seq<Ident>, fns: map<Ident, seq<Type>>, p: seq<Instr>, c: Cmd, e: Exp, lo: nat, hi: nat)
    requires FuncFinished(Frame(Scope(ParOffsets(pars), fns), 0, |pars|), p, c, e, lo, hi)
    ensures AnswersCalls(pars, p, c, e)
  {
    hide FuncFinished, FuncMeaning, ArgStore, ParOffsets, CallAnswered;
    forall env: Env, s: State, k: nat, vs: seq<Word>, m: State |
      Calls.CallFrame(s, k, vs) && |vs| == |pars| && Entered(s, m)
      ensures Answered(env, p, FuncMeaning(c, e, ArgStore(pars, vs), env), s, k, m)
    {
      var n := FuncRuns(pars, fns, p, c, e, lo, hi, env, s, k, vs, m);
    }
  }

  /**
   So a function symbol that stands for the value describes the call: both leave the same words below the arguments.
   */
  lemma CallDescribed(env: Env, f: Ident, p: seq<Instr>, s: State, k: nat, vs: seq<Word>, m: State, n: nat)
    requires Calls.CallFrame(s, k, vs) && |s.stack| <= |m.stack| && CallAnswered(env, p, env.fn(f, vs), s, k, m, n)
    ensures var r, cf := CallStep(env, f, |vs|, s), PcRun(env, p, At(0, m), n);
            if env.fn(f, vs).None? then r.Fault? && cf == Trapped
            else
              && r.Next? && |r.m.stack| == |s.stack| && cf.At? && |cf.m.stack| > k
              && r.m.stack[..k + 1] == cf.m.stack[..k + 1]
  {
    hide CallStep, PcRun;
    Calls.CallStepResult(env, f, k, vs, s);
  }

  /**
   The code of a command, run on the machine with a program counter: when the command gives a
   store, the machine reaches the end of the code with that store in its slots and the stack
   at the height the compiler has computed; when the command traps, the machine traps.
   */
  lemma CodeRuns(fr: Frame, p: seq<Instr>, c: Cmd, fr': Frame, lo: nat, hi: nat, env: Env, m: State, st: Store)
    returns (n: nat, m': State)
    requires Finished(fr, p, c, fr', lo, hi) && AtBoundary(fr, st, m)
    ensures match Run(c, st, env)
            case None => PcRun(env, p, At(0, m), n) == Trapped
            case Some(st') =>
              && PcRun(env, p, At(0, m), n) == At(|p|, m')
              && Around(fr.pars, m') == Around(fr.pars, m) && AtBoundary(fr', st', m')
  {
    hide Exec, Run, AtBoundary, PcRun;
    var o := Exec(env, p, m);
    assert Ends(o, Run(c, st, env), fr', Around(fr.pars, m));
    assert p[0..] == p;
    m' := m;
    if o.Trap? {
      n := TrapIsPcTrap(env, p, 0, m);
    } else {
      n := ExecIsPcRun(env, p, 0, m, o.m);
      m' := o.m;
    }
  }
}
