/**
 Compiled functions that call each other, without recursion: the machine runs the code of the callee at each call, and
 the result is what the source means when every function symbol stands for the body of its function.
 */
module Linked {
  import opened Words
  import opened Machine
  import opened Source
  import opened Codegen
  import opened Statements
  import Calls
  import Flow

  /** A compiled function: its code, and the statements and the returned expression that it was compiled from. */
  datatype Func = Func(name: Ident, pars: seq<Ident>, fns: map<Ident, seq<Type>>, code: seq<Instr>, c: Cmd, e: Exp)

  /** The number of the first function with this name, or |lib|. */
  function FindFunc(lib: seq<Func>, f: Ident): (k: nat)
    ensures k <= |lib|
    ensures k < |lib| ==> lib[k].name == f
    ensures forall j :: 0 <= j < k ==> lib[j].name != f
  {
    if lib == [] || lib[0].name == f then 0 else 1 + FindFunc(lib[1..], f)
  }

  // ----- the machine with all functions -----

  /** Where the caller goes on, its rbp, and the two words that stand for them on the stack. */
  datatype Back = Back(code: seq<Instr>, pc: nat, bp: nat, ret: Word, saved: Word)

  datatype Config = Live(code: seq<Instr>, pc: nat, m: State, back: seq<Back>) | Faulted | Stray

  /** The return address and the saved rbp: two words that may depend on the state of the caller. */
  type Link = State -> (Word, Word)

  function Enter(link: Link, s: State): (m: State)
    ensures m.bp == |m.stack| == |s.stack| + 2
  {
    s.(stack := s.stack + [link(s).0, link(s).1], bp := |s.stack| + 2)
  }

  /** The instructions leave and ret, when the two words are still there. The flags are unknown after a call. */
  function Return(m: State, back: seq<Back>): Config
    requires |back| >= 1
  {
    var b := back[|back| - 1];
    if 2 <= m.bp <= |m.stack| && m.stack[m.bp - 2..m.bp] == [b.ret, b.saved] then
      Live(b.code, b.pc, m.(stack := m.stack[..m.bp - 2], bp := b.bp, flags := Unset), back[..|back| - 1])
    else Stray
  }

  /** One step. A call of a function of lib enters its code; other functions are as env describes them. */
  function LinkedStep(lib: seq<Func>, env: Env, link: Link, cf: Config): Config {
    if !cf.Live? then cf
    else if cf.pc >= |cf.code| then (if cf.back == [] then cf else Return(cf.m, cf.back))
    else if IsLinked(lib, cf.code[cf.pc]) then
      Live(lib[FindFunc(lib, cf.code[cf.pc].f)].code, 0, Enter(link, cf.m),
        cf.back + [CallBack(link, cf.code, cf.pc, cf.m)])
    else match Step(env, cf.code[cf.pc], cf.m)
      case Next(m') => Live(cf.code, cf.pc + 1, m', cf.back)
      case Goto(l, m') =>
        if FindLabel(cf.code, l) < |cf.code| then Live(cf.code, FindLabel(cf.code, l), m', cf.back) else Stray
      case Fault => Faulted
      case Wedged => Stray
  }

  predicate IsLinked(lib: seq<Func>, i: Instr) { i.Call? && FindFunc(lib, i.f) < |lib| }

  function CallBack(link: Link, code: seq<Instr>, pc: nat, m: State): Back {
    Back(code, pc + 1, m.bp, link(m).0, link(m).1)
  }

  function LinkedRun(lib: seq<Func>, env: Env, link: Link, cf: Config, n: nat): Config
    decreases n
  {
    if n == 0 then cf else LinkedRun(lib, env, link, LinkedStep(lib, env, link, cf), n - 1)
  }

  lemma {:induction false} LinkedRunAdd(lib: seq<Func>, env: Env, link: Link, cf: Config, a: nat, b: nat)
    ensures LinkedRun(lib, env, link, cf, a + b) == LinkedRun(lib, env, link, LinkedRun(lib, env, link, cf, a), b)
    decreases a
  {
    hide LinkedStep;
    if a > 0 {
      LinkedRunAdd(lib, env, link, LinkedStep(lib, env, link, cf), a - 1, b);
      assert a - 1 + b == a + b - 1;
    }
  }

  // ----- what the function symbols mean -----

  type Meanings = (Ident, seq<Word>) -> Option<Word>

  function BodyMeaning(d: Func, vs: seq<Word>, fn: Meanings): Option<Word> {
    if |vs| == |d.pars| then Flow.FuncMeaning(d.c, d.e, Flow.ArgStore(d.pars, vs), Env(fn, (f, m, n) => 0)) else None
  }

  /** The first i functions of lib mean their bodies, in which the functions before them mean theirs. */
  function Meaning(lib: seq<Func>, i: nat, ext: Meanings): Meanings
    requires i <= |lib|
  {
    if i == 0 then ext
    else
      var before := Meaning(lib, i - 1, ext);
      (f: Ident, vs: seq<Word>) => if f == lib[i - 1].name then BodyMeaning(lib[i - 1], vs, before) else before(f, vs)
  }

  // The meaning of source code depends on the functions only.
  lemma {:induction false} SameEval(e: Exp, st: Store, a: Env, b: Env)
    requires a.fn == b.fn
    ensures Eval(e, st, a) == Eval(e, st, b)
    decreases e, 1
  {
    match e
    case Ref(_) =>
    case Lit(_) =>
    case Negate(e1) => SameEval(e1, st, a, b);
    case Bin(_, l, r) => SameEval(l, st, a, b); SameEval(r, st, a, b);
    case Both(l, r) => SameEval(l, st, a, b); SameEval(r, st, a, b);
    case Either(l, r) => SameEval(l, st, a, b); SameEval(r, st, a, b);
    case Apply(_, args) => SameEvalAll(args, st, a, b);
  }

  lemma {:induction false} SameEvalAll(es: seq<Exp>, st: Store, a: Env, b: Env)
    requires a.fn == b.fn
    ensures EvalAll(es, st, a) == EvalAll(es, st, b)
    decreases es, 0
  {
    if es != [] {
      SameEval(es[0], st, a, b);
      SameEvalAll(es[1..], st, a, b);
    }
  }

  lemma {:induction false} SameRun(c: Cmd, st: Store, a: Env, b: Env)
    requires a.fn == b.fn
    ensures Run(c, st, a) == Run(c, st, b)
    decreases c
  {
    hide Eval;
    match c
    case Skip =>
    case NewVar(_) =>
    case Update(_, _, e) => SameEval(e, st, a, b);
    case Seq(c1, c2) =>
      SameRun(c1, st, a, b);
      if Run(c1, st, a).Some? {
        SameRun(c2, Run(c1, st, a).value, a, b);
      }
    case Block(c1) => SameRun(c1, st, a, b);
    case Branch(_, e, c1, c2) =>
      SameEval(e, st, a, b);
      SameRun(c1, st, a, b);
      SameRun(c2, st, a, b);
  }

  lemma SameMeaning(c: Cmd, e: Exp, st: Store, a: Env, b: Env)
    requires a.fn == b.fn
    ensures Flow.FuncMeaning(c, e, st, a) == Flow.FuncMeaning(c, e, st, b)
  {
    hide Run, Eval;
    SameRun(c, st, a, b);
    if Run(c, st, a).Some? {
      SameEval(e, Run(c, st, a).value, a, b);
    }
  }

  // ----- the environment that the code of the functions makes -----

  // What a call that ended with outcome o leaves: four registers, and the n words of its arguments.
  function LeftWord(o: Outcome, s: State, n: nat, j: nat): Word {
    if !o.Fall? then 0
    else if j == 0 then o.m.rax
    else if j == 1 then o.m.rbx
    else if j == 2 then o.m.rcx
    else if j == 3 then o.m.rdx
    else
      var i := |s.stack| - n + (j - 4);
      if 0 <= i < |o.m.stack| then o.m.stack[i] else 0
  }

  function EnvOf(lib: seq<Func>, i: nat, env: Env, link: Link): (r: Env)
    requires i <= |lib|
    ensures r.fn == Meaning(lib, i, env.fn)
  {
    if i == 0 then env
    else
      Env(Meaning(lib, i, env.fn), LeftBy(EnvOf(lib, i - 1, env, link), lib[i - 1], link))
  }

  function LeftBy(before: Env, d: Func, link: Link): (Ident, State, nat) -> Word {
    (f: Ident, s: State, j: nat) => CallLeaves(before, d, link, f, s, j)
  }

  function CallLeaves(before: Env, d: Func, link: Link, f: Ident, s: State, j: nat): Word {
    if f == d.name then LeftWord(Exec(before, d.code, Enter(link, s)), s, |d.pars|, j) else before.junk(f, s, j)
  }

  function FrameOf(d: Func): Frame { Frame(Scope(Flow.ParOffsets(d.pars), d.fns), 0, |d.pars|) }

  ghost predicate IsCompiled(d: Func) {
    && CallsIn(d.fns, d.code)
    && exists lo: nat, hi: nat :: Flow.FuncFinished(FrameOf(d), d.code, d.c, d.e, lo, hi)
  }

  /**
   Code p calls only the first i functions of lib, and others that are not in lib, with the right number of arguments.
   */
  predicate CallsBelow(lib: seq<Func>, i: nat, p: seq<Instr>) {
    forall k :: 0 <= k < |p| && IsLinked(lib, p[k]) ==>
      var j := FindFunc(lib, p[k].f);
      j < i && p[k].arity == |lib[j].pars|
  }

  predicate DistinctNames(lib: seq<Func>) {
    && (forall i :: 0 <= i < |lib| ==> lib[i].name != "")
    && (forall i, j :: 0 <= i < j < |lib| ==> lib[i].name != lib[j].name)
  }

  /** Of the functions of lib, only the first i are declared in fns, with the right number of parameters. */
  predicate Declares(lib: seq<Func>, i: nat, fns: map<Ident, seq<Type>>) {
    forall j :: 0 <= j < |lib| && lib[j].name in fns ==> j < i && |fns[lib[j].name]| == |lib[j].pars|
  }

  predicate NeverCalls(p: seq<Instr>, f: Ident) { forall k :: 0 <= k < |p| && p[k].Call? ==> p[k].f != f }

  /**
   Compiled functions without recursion: each was compiled when those before it and itself were declared, and does not
   call itself.
   */
  ghost predicate Library(lib: seq<Func>) {
    DistinctNames(lib) && forall i :: 0 <= i < |lib| ==>
      IsCompiled(lib[i]) && Declares(lib, i + 1, lib[i].fns) && NeverCalls(lib[i].code, lib[i].name)
  }

  lemma DeclaredCalls(lib: seq<Func>, i: nat, fns: map<Ident, seq<Type>>, p: seq<Instr>)
    requires Declares(lib, i, fns) && CallsIn(fns, p)
    ensures CallsBelow(lib, i, p)
  {
  }

  lemma EarlierCalls(lib: seq<Func>, i: nat, p: seq<Instr>)
    requires i < |lib| && CallsBelow(lib, i + 1, p) && NeverCalls(p, lib[i].name)
    ensures CallsBelow(lib, i, p)
  {
  }

  // Functions that are not among the first i are as env describes them.
  lemma {:induction false} Elsewhere(lib: seq<Func>, i: nat, env: Env, link: Link, f: Ident)
    requires i <= |lib| && forall j :: 0 <= j < i ==> lib[j].name != f
    ensures forall vs: seq<Word> :: EnvOf(lib, i, env, link).fn(f, vs) == env.fn(f, vs)
    ensures forall s: State, j: nat :: EnvOf(lib, i, env, link).junk(f, s, j) == env.junk(f, s, j)
  {
    hide Exec, LeftWord, BodyMeaning;
    if i > 0 {
      Elsewhere(lib, i - 1, env, link, f);
    }
  }

  // Function k is described when it is added, and later additions do not change that.
  lemma {:induction false} Described(lib: seq<Func>, k: nat, i: nat, env: Env, link: Link)
    requires k < i <= |lib| && DistinctNames(lib)
    ensures var a, b, f := EnvOf(lib, i, env, link), EnvOf(lib, k + 1, env, link), lib[k].name;
            && (forall vs: seq<Word> :: a.fn(f, vs) == b.fn(f, vs))
            && (forall s: State, j: nat :: a.junk(f, s, j) == b.junk(f, s, j))
  {
    hide Exec, LeftWord, BodyMeaning;
    if k + 1 < i {
      Described(lib, k, i - 1, env, link);
    }
  }

  lemma {:induction false} SameJunk(a: Env, b: Env, f: Ident, m: State, from: nat, n: nat)
    requires forall s: State, j: nat :: a.junk(f, s, j) == b.junk(f, s, j)
    ensures Junk(a, f, m, from, n) == Junk(b, f, m, from, n)
  {
    if n > 0 {
      SameJunk(a, b, f, m, from, n - 1);
    }
  }

  lemma SameCall(a: Env, b: Env, f: Ident, n: nat, m: State)
    requires forall vs: seq<Word> :: a.fn(f, vs) == b.fn(f, vs)
    requires forall s: State, j: nat :: a.junk(f, s, j) == b.junk(f, s, j)
    ensures CallStep(a, f, n, m) == CallStep(b, f, n, m)
  {
    SameJunk(a, b, f, m, 4, n);
    hide Junk, CalleeArgs;
  }

  lemma SameStep(a: Env, b: Env, i: Instr, m: State)
    requires i.Call? ==> CallStep(a, i.f, i.arity, m) == CallStep(b, i.f, i.arity, m)
    requires i.SubRsp? ==> Junk(a, "", m, 0, i.words) == Junk(b, "", m, 0, i.words)
    ensures Step(a, i, m) == Step(b, i, m)
  {
    hide CallStep, Junk;
  }

  // An instruction that is not the call of a function of lib does the same in all these environments.
  lemma PlainStep(lib: seq<Func>, i: nat, env: Env, link: Link, instr: Instr, m: State)
    requires i <= |lib| && DistinctNames(lib) && !IsLinked(lib, instr)
    ensures Step(EnvOf(lib, i, env, link), instr, m) == Step(env, instr, m)
  {
    hide EnvOf, CallStep, Junk, Step;
    var e := EnvOf(lib, i, env, link);
    if instr.Call? {
      Elsewhere(lib, i, env, link, instr.f);
      SameCall(e, env, instr.f, instr.arity, m);
    } else if instr.SubRsp? {
      Elsewhere(lib, i, env, link, "");
      SameJunk(e, env, "", m, 0, instr.words);
    }
    SameStep(e, env, instr, m);
  }

  // ----- one call -----

  // The words that the callee reads as its arguments are those on top of the stack, the first one on top.
  lemma {:induction false} ArgsReversed(m: State, n: nat)
    requires n <= |m.stack|
    ensures Calls.Reversed(CalleeArgs(m, n)) == m.stack[|m.stack| - n..]
  {
    if n > 0 {
      ArgsReversed(m, n - 1);
      Calls.ParSlot(m, n);
      Calls.ReversedSnoc(CalleeArgs(m, n - 1), m.stack[|m.stack| - n]);
    }
  }

  lemma FrameThere(s: State, n: nat)
    requires n + 1 <= |s.stack|
    ensures Calls.CallFrame(s, |s.stack| - 1 - n, CalleeArgs(s, n))
  {
    ArgsReversed(s, n);
  }

  lemma {:induction false} JunkAt(env: Env, f: Ident, m: State, from: nat, n: nat, j: nat)
    requires j < n
    ensures Junk(env, f, m, from, n)[j] == env.junk(f, m, from + j)
  {
    if j < n - 1 {
      JunkAt(env, f, m, from, n - 1, j);
    }
  }

  // The state of the caller after the call.
  function After(m: State, s: State): State
    requires |s.stack| <= |m.stack|
  {
    m.(stack := m.stack[..|s.stack|], bp := s.bp, flags := Unset)
  }

  lemma JunkIsLeft(env: Env, d: Func, o: Outcome, s: State, n: nat)
    requires forall j: nat :: env.junk(d.name, s, j) == LeftWord(o, s, n, j)
    requires o.Fall? && n <= |s.stack| <= |o.m.stack|
    ensures Junk(env, d.name, s, 4, n) == o.m.stack[|s.stack| - n..|s.stack|]
    ensures env.junk(d.name, s, 0) == o.m.rax && env.junk(d.name, s, 1) == o.m.rbx
    ensures env.junk(d.name, s, 2) == o.m.rcx && env.junk(d.name, s, 3) == o.m.rdx
  {
    var js := Junk(env, d.name, s, 4, n);
    forall j | 0 <= j < n
      ensures js[j] == o.m.stack[|s.stack| - n..|s.stack|][j]
    {
      JunkAt(env, d.name, s, 4, n, j);
    }
  }

  // What the callee's code does on entry, by its compilation.
  lemma BodyRuns(d: Func, env: Env, link: Link, s: State)
    requires IsCompiled(d) && |d.pars| + 1 <= |s.stack|
    ensures var k := |s.stack| - 1 - |d.pars|;
            && Flow.HasReturnSlot(|d.pars|, Enter(link, s)) && Enter(link, s).bp - 3 - |d.pars| == k
            && Flow.FuncEnds(Exec(env, d.code, Enter(link, s)), BodyMeaning(d, CalleeArgs(s, |d.pars|), env.fn),
                 |d.pars|, Enter(link, s))
  {
    var n, m, vs := |d.pars|, Enter(link, s), CalleeArgs(s, |d.pars|);
    hide Exec, CalleeArgs, Flow.FuncMeaning, Flow.ArgStore, Flow.ParOffsets, Flow.FuncEnds, AtBoundary,
         Flow.FuncPerforms;
    FrameThere(s, n);
    Flow.EntryBoundary(d.pars, d.fns, s, |s.stack| - 1 - n, vs, m);
    Flow.FuncReached(FrameOf(d), d.code, d.c, d.e, env, m, Flow.ArgStore(d.pars, vs));
    SameMeaning(d.c, d.e, Flow.ArgStore(d.pars, vs), env, Env(env.fn, (f, m, n) => 0));
  }

  // The described call is what the code of the callee does.
  lemma CallIsCode(lib: seq<Func>, i: nat, env: Env, link: Link, s: State)
    requires Library(lib) && i < |lib| && |lib[i].pars| + 1 <= |s.stack|
    ensures var d, m := lib[i], Enter(link, s);
            var o, r := Exec(EnvOf(lib, i, env, link), d.code, m),
              CallStep(EnvOf(lib, i + 1, env, link), d.name, |d.pars|, s);
            || (o.Trap? && r == Fault)
            || (o.Fall? && o.m.bp == m.bp == |o.m.stack| && o.m.stack[|s.stack|..] == m.stack[|s.stack|..]
                 && r == Next(After(o.m, s)))
  {
    var d, n, m := lib[i], |lib[i].pars|, Enter(link, s);
    var before, e := EnvOf(lib, i, env, link), EnvOf(lib, i + 1, env, link);
    var o, vs := Exec(before, d.code, m), CalleeArgs(s, n);
    BodyRuns(d, before, link, s);
    assert e.fn(d.name, vs) == BodyMeaning(d, vs, before.fn);
    assert forall j: nat :: e.junk(d.name, s, j) == LeftWord(o, s, n, j);
    CallResult(d, e, o, s, m, vs);
  }

  lemma CallResult(d: Func, e: Env, o: Outcome, s: State, m: State, vs: seq<Word>)
    requires |d.pars| + 1 <= |s.stack| && vs == CalleeArgs(s, |d.pars|) && Flow.Entered(s, m)
    requires Flow.HasReturnSlot(|d.pars|, m) && Flow.FuncEnds(o, e.fn(d.name, vs), |d.pars|, m)
    requires forall j: nat :: e.junk(d.name, s, j) == LeftWord(o, s, |d.pars|, j)
    ensures var r := CallStep(e, d.name, |d.pars|, s);
            || (o.Trap? && r == Fault)
            || (o.Fall? && o.m.bp == m.bp == |o.m.stack| && o.m.stack[|s.stack|..] == m.stack[|s.stack|..]
                 && r == Next(After(o.m, s)))
  {
    var n := |d.pars|;
    hide CalleeArgs, CalleeSlot, LeftWord, Junk, Flow.Answers;
    Calls.RetSlot(s, n, |s.stack| - 1 - n);
    if o.Fall? {
      AnswerStack(n, e.fn(d.name, vs).value, s, m, o.m);
      JunkIsLeft(e, d, o, s, n);
    }
  }

  lemma AnswerStack(n: nat, w: Word, s: State, m: State, m': State)
    requires n + 1 <= |s.stack| && Flow.Entered(s, m) && Flow.HasReturnSlot(n, m) && Flow.Answers(n, w, m, m')
    ensures m'.bp == m.bp == |m'.stack| && |m'.stack| == |s.stack| + 2 && m'.stack[|s.stack|..] == m.stack[|s.stack|..]
    ensures m'.stack[..|s.stack|] == s.stack[..|s.stack| - 1 - n] + [w] + m'.stack[|s.stack| - n..|s.stack|]
  {
    var k, t := |s.stack| - 1 - n, m'.stack;
    assert t[..k + 1] == m.stack[..k] + [w];
    assert m.stack[..k] == s.stack[..k];
    assert t[..|s.stack|] == t[..k + 1] + t[k + 1..|s.stack|];
  }

  // ----- whole runs -----

  /** What the linked machine shows of a run of code p with a program counter. */
  function Shows(p: seq<Instr>, cf: Machine.Config, back: seq<Back>): Config {
    match cf
    case At(pc, m) => Live(p, pc, m, back)
    case Trapped => Faulted
    case Lost => Stray
  }

  lemma {:induction false} LostStays(env: Env, p: seq<Instr>, n: nat)
    ensures PcRun(env, p, Lost, n) == Lost && PcRun(env, p, Trapped, n) == Trapped
  {
    if n > 0 {
      LostStays(env, p, n - 1);
    }
  }

  lemma {:induction false} EndStays(env: Env, p: seq<Instr>, m: State, n: nat)
    ensures PcRun(env, p, At(|p|, m), n) == At(|p|, m)
  {
    if n > 0 {
      EndStays(env, p, m, n - 1);
    }
  }

  /**
   Code that calls only the first i functions: a run in which the calls are steps, as described by the environment of
   these functions, is a run of the linked machine, which enters and leaves the code of the callees.
   */
  lemma {:induction false} Simulates(lib: seq<Func>, i: nat, env: Env, link: Link, p: seq<Instr>, pc: nat, m: State,
                                     n: nat, back: seq<Back>)
    returns (t: nat)
    requires Library(lib) && i <= |lib| && CallsBelow(lib, i, p) && pc <= |p|
    requires PcRun(EnvOf(lib, i, env, link), p, At(pc, m), n) != Lost
    ensures LinkedRun(lib, env, link, Live(p, pc, m, back), t) ==
            Shows(p, PcRun(EnvOf(lib, i, env, link), p, At(pc, m), n), back)
    decreases i, n, 1
  {
    hide Step, CallsBelow, EnvOf, IsLinked, LinkedRun, LinkedStep, PcStep, PcRun, Library;
    var e, cf := EnvOf(lib, i, env, link), Live(p, pc, m, back);
    if n == 0 {
      t := 0;
      RunNone(lib, env, link, cf, e, p, pc, m);
    } else if pc == |p| {
      EndStays(e, p, m, n);
      t := 0;
      RunNone(lib, env, link, cf, e, p, pc, m);
    } else {
      PcRunMore(e, p, At(pc, m), n - 1);
      var next := PcStep(e, p, At(pc, m));
      LostStays(e, p, n - 1);
      var t1;
      OneCall(lib, i, p, pc);
      if IsLinked(lib, p[pc]) {
        t1 := EntersAndLeaves(lib, i, env, link, p, pc, m, back);
      } else {
        t1 := 1;
        OneStep(lib, i, env, link, p, pc, m, back);
      }
      if next.At? {
        var t2 := Simulates(lib, i, env, link, p, next.pc, next.m, n - 1, back);
        LinkedRunAdd(lib, env, link, cf, t1, t2);
        t := t1 + t2;
      } else {
        t := t1;
      }
    }
  }

  lemma OneCall(lib: seq<Func>, i: nat, p: seq<Instr>, k: nat)
    requires CallsBelow(lib, i, p) && k < |p|
    ensures CallsBelow(lib, i, [p[k]])
  {
  }

  lemma RunNone(lib: seq<Func>, env: Env, link: Link, cf: Config, e: Env, p: seq<Instr>, pc: nat, m: State)
    ensures LinkedRun(lib, env, link, cf, 0) == cf && PcRun(e, p, At(pc, m), 0) == At(pc, m)
  {
  }

  lemma RunOne(lib: seq<Func>, env: Env, link: Link, cf: Config)
    ensures LinkedRun(lib, env, link, cf, 1) == LinkedStep(lib, env, link, cf)
  {
    assert LinkedRun(lib, env, link, LinkedStep(lib, env, link, cf), 0) == LinkedStep(lib, env, link, cf);
  }

  // A step that is no call of a function of lib.
  lemma OneStep(lib: seq<Func>, i: nat, env: Env, link: Link, p: seq<Instr>, pc: nat, m: State, back: seq<Back>)
    requires Library(lib) && i <= |lib| && pc < |p| && !IsLinked(lib, p[pc])
    ensures var next := PcStep(EnvOf(lib, i, env, link), p, At(pc, m));
            && LinkedRun(lib, env, link, Live(p, pc, m, back), 1) == Shows(p, next, back)
            && (next.At? ==> next.pc <= |p|)
  {
    hide Step, EnvOf, IsLinked, LinkedRun, IsCompiled, CallsBelow;
    PlainStep(lib, i, env, link, p[pc], m);
    RunOne(lib, env, link, Live(p, pc, m, back));
  }

  // What the environment says of a call of function j.
  lemma CallStepIs(lib: seq<Func>, j: nat, i: nat, env: Env, link: Link, p: seq<Instr>, pc: nat, m: State)
    requires Library(lib) && j < i <= |lib| && pc < |p| && p[pc] == Call(lib[j].name, |lib[j].pars|)
    requires PcStep(EnvOf(lib, i, env, link), p, At(pc, m)) != Lost
    ensures |lib[j].pars| + 1 <= |m.stack|
    ensures PcStep(EnvOf(lib, i, env, link), p, At(pc, m)) ==
            match CallStep(EnvOf(lib, j + 1, env, link), lib[j].name, |lib[j].pars|, m)
            case Next(m') => At(pc + 1, m')
            case Goto(_, _) => Lost
            case Fault => Trapped
            case Wedged => Lost
  {
    hide EnvOf, Junk, CalleeArgs, IsCompiled, CallsBelow;
    Described(lib, j, i, env, link);
    SameCall(EnvOf(lib, i, env, link), EnvOf(lib, j + 1, env, link), lib[j].name, |lib[j].pars|, m);
  }

  // A call of a function of lib: its code runs, and comes back.
  lemma {:induction false} EntersAndLeaves(lib: seq<Func>, i: nat, env: Env, link: Link, p: seq<Instr>, pc: nat,
                                           m: State, back: seq<Back>)
    returns (t: nat)
    requires Library(lib) && i <= |lib| && pc < |p| && CallsBelow(lib, i, [p[pc]]) && IsLinked(lib, p[pc])
    requires PcStep(EnvOf(lib, i, env, link), p, At(pc, m)) != Lost
    ensures var next := PcStep(EnvOf(lib, i, env, link), p, At(pc, m));
            && LinkedRun(lib, env, link, Live(p, pc, m, back), t) == Shows(p, next, back)
            && (next.At? ==> next.pc <= |p|)
    decreases i, 0, 1
  {
    hide EnvOf, LinkedRun, LinkedStep, Library, PcStep, Exec, CallStep, CallBack, Enter;
    var j := FindFunc(lib, p[pc].f);
    var d, b := lib[j], CallBack(link, p, pc, m);
    assert [p[pc]][0] == p[pc];
    assert j < i && p[pc].arity == |d.pars|;
    CallStepIs(lib, j, i, env, link, p, pc, m);
    CallIsCode(lib, j, env, link, m);
    var o := Exec(EnvOf(lib, j, env, link), d.code, Enter(link, m));
    var cf := Live(p, pc, m, back);
    Enters(lib, env, link, p, pc, m, back);
    var t1 := BodyRun(lib, j, env, link, m, back + [b]);
    LinkedRunAdd(lib, env, link, cf, 1, t1);
    t := 1 + t1;
    if o.Fall? {
      LinkedRunAdd(lib, env, link, cf, t, 1);
      Leaves(lib, env, link, d.code, o.m, p, pc, m, back);
      t := t + 1;
    }
  }

  // The code of the callee, from its beginning to its end.
  lemma {:induction false} BodyRun(lib: seq<Func>, j: nat, env: Env, link: Link, m: State, back: seq<Back>)
    returns (t: nat)
    requires Library(lib) && j < |lib|
    requires var o := Exec(EnvOf(lib, j, env, link), lib[j].code, Enter(link, m)); o.Trap? || o.Fall?
    ensures var d, o := lib[j], Exec(EnvOf(lib, j, env, link), lib[j].code, Enter(link, m));
            LinkedRun(lib, env, link, Live(d.code, 0, Enter(link, m), back), t) ==
            if o.Trap? then Faulted else Live(d.code, |d.code|, o.m, back)
    decreases j + 1, 0, 0
  {
    CompiledLabels(lib, j);
    hide EnvOf, LinkedRun, CallsBelow, Library, PcRun, Exec, Enter;
    var d, e, m1 := lib[j], EnvOf(lib, j, env, link), Enter(link, m);
    assert d.code[0..] == d.code;
    var o, n := Exec(e, d.code, m1), 0;
    if o.Trap? {
      n := TrapIsPcTrap(e, d.code, 0, m1);
    } else {
      n := ExecIsPcRun(e, d.code, 0, m1, o.m);
    }
    t := Simulates(lib, j, env, link, d.code, 0, m1, n, back);
  }

  lemma CompiledLabels(lib: seq<Func>, j: nat)
    requires Library(lib) && j < |lib|
    ensures IsCompiled(lib[j]) && CallsBelow(lib, j, lib[j].code) && UniqueLabels(lib[j].code)
  {
    hide Flow.FuncPerforms, CallsBelow, CallsIn, Declares, NeverCalls;
    DeclaredCalls(lib, j + 1, lib[j].fns, lib[j].code);
    EarlierCalls(lib, j, lib[j].code);
  }

  // The step into the callee's code.
  lemma Enters(lib: seq<Func>, env: Env, link: Link, p: seq<Instr>, pc: nat, m: State, back: seq<Back>)
    requires pc < |p| && IsLinked(lib, p[pc])
    ensures LinkedRun(lib, env, link, Live(p, pc, m, back), 1) ==
            Live(lib[FindFunc(lib, p[pc].f)].code, 0, Enter(link, m), back + [CallBack(link, p, pc, m)])
  {
    RunOne(lib, env, link, Live(p, pc, m, back));
    hide LinkedRun, Enter, CallBack;
  }

  // The end of the callee's code.
  lemma Leaves(lib: seq<Func>, env: Env, link: Link, code: seq<Instr>, m': State, p: seq<Instr>, pc: nat, m: State,
               back: seq<Back>)
    requires m'.bp == |m'.stack| == |m.stack| + 2 && m'.stack[|m.stack|..] == Enter(link, m).stack[|m.stack|..]
    ensures LinkedRun(lib, env, link, Live(code, |code|, m', back + [CallBack(link, p, pc, m)]), 1) ==
            Live(p, pc + 1, After(m', m), back)
  {
    var b := CallBack(link, p, pc, m);
    RunOne(lib, env, link, Live(code, |code|, m', back + [b]));
    hide LinkedRun;
    assert (back + [b])[..|back|] == back;
    assert m'.stack[m'.bp - 2..m'.bp] == m'.stack[|m.stack|..];
  }

  // ----- the results -----

  // The last definition of a function symbol is its body.
  lemma MeansBody(lib: seq<Func>, i: nat, env: Env, link: Link, vs: seq<Word>)
    requires DistinctNames(lib) && i < |lib|
    ensures Meaning(lib, |lib|, env.fn)(lib[i].name, vs) == BodyMeaning(lib[i], vs, Meaning(lib, i, env.fn))
  {
    hide EnvOf, BodyMeaning;
    Described(lib, i, |lib|, env, link);
    assert EnvOf(lib, |lib|, env, link).fn(lib[i].name, vs) == EnvOf(lib, i + 1, env, link).fn(lib[i].name, vs);
  }

  /**
   A call, on the machine that runs the callee's code: it leaves the value that the body means for the arguments, where
   every function symbol of the library stands for its body, below the arguments; it traps exactly when the body does.
   */
  lemma LinkedCall(lib: seq<Func>, i: nat, env: Env, link: Link, p: seq<Instr>, pc: nat, s: State, back: seq<Back>)
    returns (t: nat, s': State)
    requires Library(lib) && i < |lib| && pc < |p| && p[pc] == Call(lib[i].name, |lib[i].pars|)
             && |lib[i].pars| + 1 <= |s.stack|
    ensures var n, cf := |lib[i].pars|, LinkedRun(lib, env, link, Live(p, pc, s, back), t);
            match Meaning(lib, |lib|, env.fn)(lib[i].name, CalleeArgs(s, n))
            case None => cf == Faulted
            case Some(w) =>
              && cf == Live(p, pc + 1, s', back) && s'.bp == s.bp && |s'.stack| == |s.stack|
              && s'.stack[..|s.stack| - n] == s.stack[..|s.stack| - 1 - n] + [w]
  {
    hide EnvOf, LinkedRun, LinkedStep, IsCompiled, CallStep, CalleeArgs, Meaning, PcStep;
    var n, e := |lib[i].pars|, EnvOf(lib, |lib|, env, link);
    FrameThere(s, n);
    Calls.CallStepResult(e, lib[i].name, |s.stack| - 1 - n, CalleeArgs(s, n), s);
    StepOfCall(e, p, pc, s);
    IsFound(lib, i);
    t := EntersAndLeaves(lib, |lib|, env, link, p, pc, s, back);
    s' := if PcStep(e, p, At(pc, s)).At? then PcStep(e, p, At(pc, s)).m else s;
  }

  lemma StepOfCall(e: Env, p: seq<Instr>, pc: nat, s: State)
    requires pc < |p| && p[pc].Call?
    ensures var r := CallStep(e, p[pc].f, p[pc].arity, s);
            && (r.Next? ==> PcStep(e, p, At(pc, s)) == At(pc + 1, r.m))
            && (r.Fault? ==> PcStep(e, p, At(pc, s)) == Trapped)
  {
    hide CallStep;
  }

  lemma IsFound(lib: seq<Func>, i: nat)
    requires DistinctNames(lib) && i < |lib|
    ensures FindFunc(lib, lib[i].name) == i && CallsBelow(lib, |lib|, [Call(lib[i].name, |lib[i].pars|)])
  {
  }

  /**
   The code of a command that calls functions of the library, on the machine that runs their code: it reaches its end
   with the store that the command means when every function symbol stands for its body, or traps exactly when the
   command does.
   */
  lemma LinkedCodeRuns(lib: seq<Func>, env: Env, link: Link, fr: Frame, p: seq<Instr>, c: Cmd, fr': Frame, lo: nat,
                       hi: nat, m: State, st: Store, back: seq<Back>)
    returns (t: nat, m': State)
    requires Library(lib) && Declares(lib, |lib|, fr.sc.fns) && CallsIn(fr.sc.fns, p)
    requires Flow.Finished(fr, p, c, fr', lo, hi) && AtBoundary(fr, st, m)
    ensures var cf := LinkedRun(lib, env, link, Live(p, 0, m, back), t);
            match Run(c, st, Env(Meaning(lib, |lib|, env.fn), env.junk))
            case None => cf == Faulted
            case Some(st') =>
              cf == Live(p, |p|, m', back) && Around(fr.pars, m') == Around(fr.pars, m) && AtBoundary(fr', st', m')
  {
    hide EnvOf, LinkedRun, Library, CallsBelow, CallsIn, Declares, Flow.Finished, AtBoundary, Run, PcRun, Meaning;
    var e := EnvOf(lib, |lib|, env, link);
    DeclaredCalls(lib, |lib|, fr.sc.fns, p);
    var n;
    n, m' := Flow.CodeRuns(fr, p, c, fr', lo, hi, e, m, st);
    SameRun(c, st, e, Env(Meaning(lib, |lib|, env.fn), env.junk));
    t := Simulates(lib, |lib|, env, link, p, 0, m, n, back);
  }
}
