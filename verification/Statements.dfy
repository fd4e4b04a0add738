/**
 Statements: concrete trees and their tokens, commands, what a command does to the
 store, and what the compiler does to the frame.
 */
module Statements {
  import opened Words
  import opened Machine
  import opened Source
  import opened Codegen

  // ----- concrete syntax -----

  datatype Stmt =
    | SVar(x: Ident)                                  // var x I64
    | SAssign(x: Ident, asg: AssignOp, e: Expr)
    | SIncr(x: Ident)
    | SDecr(x: Ident)
    | SIf(e: Expr, body: Stmts, tail: ElseTail)
    | SCond(colon: bool, e: Expr, a: Stmt, more: CondTail)  // if e ? a : b
    | SEmpty
  datatype CondTail = CondEnd | CondElse(b: Stmt)
  datatype ElseTail = NoElse | Else(body: Stmts) | ElseIf(e: Expr, body: Stmts, tail: ElseTail)
  datatype Stmts = Nil | Cons(s: Stmt, semi: bool, rest: Stmts)

  function TokStmt(s: Stmt, k: Tokens): Tokens
    decreases s
  {
    match s
    case SVar(x) => Tok(Var, Tok(Id(x), Tok(TypeI64, k)))
    case SAssign(x, asg, e) => Tok(Id(x), Tok(Assign(asg), TokExpr(e, k)))
    case SIncr(x) => Tok(Id(x), Tok(PlusPlus, k))
    case SDecr(x) => Tok(Id(x), Tok(MinusMinus, k))
    case SIf(e, body, tail) => Tok(If, TokExpr(e, TokBlock(body, TokElse(tail, k))))
    case SCond(colon, e, a, more) =>
      Tok(If, TokExpr(e, Tok(if colon then Colon else Qmark, TokStmt(a, TokCond(more, k)))))
    case SEmpty => Tok(Semi, k)
  }

  function TokCond(more: CondTail, k: Tokens): Tokens
    decreases more
  {
    match more
    case CondEnd => k
    case CondElse(b) => Tok(Colon, TokStmt(b, k))
  }

  function TokBlock(ts: Stmts, k: Tokens): Tokens
    decreases ts, 1
  {
    Tok(Lbrace, TokStmts(ts, Tok(Rbrace, k)))
  }

  function TokElse(t: ElseTail, k: Tokens): Tokens
    decreases t
  {
    match t
    case NoElse => k
    case Else(body) => Tok(Token.Else, TokBlock(body, k))
    case ElseIf(e, body, tail) => Tok(Token.Else, Tok(If, TokExpr(e, TokBlock(body, TokElse(tail, k)))))
  }

  function TokStmts(ts: Stmts, k: Tokens): Tokens
    decreases ts, 0
  {
    match ts
    case Nil => k
    case Cons(s, semi, rest) => TokStmt(s, if semi then Tok(Semi, TokStmts(rest, k)) else TokStmts(rest, k))
  }

  predicate OkStmt(s: Stmt) {
    match s
    case SAssign(_, _, e) => OkExpr(e)
    case SIf(e, body, tail) => OkExpr(e) && OkStmts(body) && OkElse(tail)
    case SCond(_, e, a, more) => OkExpr(e) && OkStmt(a) && OkCond(more) && (more.CondElse? ==> !Dangling(a))
    case _ => true
  }

  predicate OkCond(more: CondTail) { more.CondElse? ==> OkStmt(more.b) }

  predicate OkElse(t: ElseTail) {
    match t
    case NoElse => true
    case Else(body) => OkStmts(body)
    case ElseIf(e, body, tail) => OkExpr(e) && OkStmts(body) && OkElse(tail)
  }

  // A semicolon after a statement ends it.
  predicate OkStmts(ts: Stmts) {
    ts.Cons? ==> OkStmt(ts.s) && OkStmts(ts.rest) && (!ts.semi && ts.rest.Cons? ==> !ts.rest.s.SEmpty?)
  }

  // A statement that would take the colon after it as its own.
  predicate Dangling(s: Stmt) {
    s.SCond? && (s.more.CondElse? ==> Dangling(s.more.b))
  }

  /** What may follow a statement. */
  predicate AfterStmt(s: Stmt, k: Tokens) {
    && k.Tok? && (k.head.Id? || k.head.If? || k.head.Semi? || k.head.Var? || k.head.Return? || k.head.Rbrace?
         || k.head.Colon?)
    && (k.head.Colon? ==> !Dangling(s))
  }

  predicate AfterCond(more: CondTail, k: Tokens) {
    if more.CondElse? then AfterStmt(more.b, k) else !(k.Tok? && k.head.Colon?)
  }

  /** What ends a list of statements: a brace, or the return at the end of a function. */
  predicate EndsStmts(k: Tokens) { k.Tok? && (k.head.Rbrace? || k.head.Return?) }

  /** A return with a value, at the end of a function. */
  function TokReturn(e: Expr, semi: bool, k: Tokens): Tokens { Tok(Return, TokExpr(e, AfterReturn(semi, k))) }

  function AfterReturn(semi: bool, k: Tokens): Tokens { if semi then Tok(Semi, Tok(Rbrace, k)) else Tok(Rbrace, k) }

  // The return statement does not fetch the result of a bare call, which is then left on the stack.
  predicate ReturnAccepted(fr: Frame, c: Cmd, e: Exp) {
    Place(fr, c).Some? && Static(Place(fr, c).value.sc, e).Some? && !e.Apply?
  }

  predicate AfterElse(k: Tokens) { k.Tok? ==> !k.head.Else? }

  // ----- commands -----

  datatype Cmd =
    | Skip
    | NewVar(x: Ident)
    | Update(x: Ident, asg: AssignOp, e: Exp)
    | Seq(a: Cmd, b: Cmd)
    | Block(c: Cmd)
    | Branch(checked: bool, e: Exp, a: Cmd, b: Cmd)   // the compiler checks the type of e, or not

  function AbsStmt(s: Stmt): Cmd {
    match s
    case SVar(x) => NewVar(x)
    case SAssign(x, asg, e) => Update(x, asg, AbsExpr(e))
    case SIncr(x) => Update(x, AddTo, Lit(1))
    case SDecr(x) => Update(x, SubFrom, Lit(1))
    case SIf(e, body, tail) => Branch(true, AbsExpr(e), Block(AbsStmts(body)), AbsElse(tail))
    case SCond(_, e, a, more) => Branch(true, AbsExpr(e), AbsStmt(a), AbsCond(more))
    case SEmpty => Skip
  }

  function AbsCond(more: CondTail): Cmd { if more.CondEnd? then Skip else AbsStmt(more.b) }

  function AbsElse(t: ElseTail): Cmd {
    match t
    case NoElse => Skip
    case Else(body) => Block(AbsStmts(body))
    case ElseIf(e, body, tail) => Branch(false, AbsExpr(e), Block(AbsStmts(body)), AbsElse(tail))
  }

  function AbsStmts(ts: Stmts): Cmd {
    match ts
    case Nil => Skip
    case Cons(s, _, rest) => Seq(AbsStmt(s), AbsStmts(rest))
  }

  function AssignWord(asg: AssignOp, was: Word, v: Word): Option<Word> {
    match asg
    case SetTo => Some(v)
    case AddTo => Some(Wrap(was + v))
    case SubFrom => Some(Wrap(was - v))
    case MulBy => Some(MulLow(was, v))
    case DivBy => DivWord(was, v)
  }

  // The variables of st, as st' has left them.
  function Restrict(st: Store, st': Store): Store {
    map x | x in st && x in st' :: st'[x]
  }

  /** The source-level meaning; None is a division trap. A variable starts at 0, and ends with its block. */
  function Run(c: Cmd, st: Store, env: Env): Option<Store> {
    match c
    case Skip => Some(st)
    case NewVar(x) => Some(st[x := 0])
    case Update(x, asg, e) => RunUpdate(x, asg, Eval(e, st, env), st)
    case Seq(a, b) => (match Run(a, st, env) case None => None case Some(st1) => Run(b, st1, env))
    case Block(a) => (match Run(a, st, env) case None => None case Some(st1) => Some(Restrict(st, st1)))
    case Branch(_, e, a, b) =>
      (match Eval(e, st, env) case None => None case Some(v) => if v != 0 then Run(a, st, env) else Run(b, st, env))
  }

  function RunUpdate(x: Ident, asg: AssignOp, v: Option<Word>, st: Store): Option<Store> {
    if v.None? then None
    else
      var r := AssignWord(asg, if x in st then st[x] else 0, v.value);
      if r.None? then None else Some(st[x := r.value])
  }

  // ----- the compiler's frame -----

  /** The scope, the number of words below rbp, LocalSp, and the number of parameters. */
  datatype Frame = Frame(sc: Scope, d: int, pars: nat)

  /** The frame offset of a variable created when LocalSp is d. */
  function NextOffset(d: int): int { -d * 8 - 8 }

  function Grow(fr: Frame, x: Ident): Frame {
    Frame(fr.sc.(vars := fr.sc.vars[x := NextOffset(fr.d)]), fr.d + 1, fr.pars)
  }

  // The offset of a variable, old or about to be created.
  function SlotOf(fr: Frame, x: Ident): int { if x in fr.sc.vars then fr.sc.vars[x] else NextOffset(fr.d) }

  /** The frame after c; None when the compiler reports an error. */
  function Place(fr: Frame, c: Cmd): Option<Frame>
    decreases c
  {
    match c
    case Skip => Some(fr)
    case NewVar(x) => Some(Grow(fr, x))
    case Update(x, _, e) =>
      (match Static(fr.sc, e)
       case None => None
       case Some(v) => if v.isConst && v.ty.BoolT? then None else Some(if x in fr.sc.vars then fr else Grow(fr, x)))
    case Seq(a, b) => (match Place(fr, a) case None => None case Some(fr1) => Place(fr1, b))
    case Block(a) => if Place(fr, a).Some? then Some(fr) else None
    case Branch(_, e, a, b) => if CondOk(fr.sc, e) && Place(fr, a).Some? && Place(fr, b).Some? then Some(fr) else None
  }

  predicate CondOk(sc: Scope, e: Exp) {
    Static(sc, e).Some? && Static(sc, e).value.ty.BoolT?
  }

  /** The commands on which the statement generator has no known gap. */
  predicate InFragment(fr: Frame, c: Cmd)
    decreases c
  {
    match c
    case Skip => true
    case NewVar(x) => x !in fr.sc.vars
    case Update(x, asg, e) => UpdateOk(fr.sc, x, asg, e)
    case Seq(a, b) => InFragment(fr, a) && (Place(fr, a).Some? ==> InFragment(Place(fr, a).value, b))
    case Block(a) => InFragment(fr, a)
    case Branch(checked, e, a, b) =>
      && Fragment(fr.sc, e) && IsDyn(fr.sc, e)
      && (!checked && Static(fr.sc, e).Some? ==> Static(fr.sc, e).value.ty.BoolT?)
      && InFragment(fr, a) && InFragment(fr, b)
      && (Place(fr, a).Some? ==> Place(fr, a).value == fr) && (Place(fr, b).Some? ==> Place(fr, b).value == fr)
  }

  // A new variable takes the type of its first value.
  predicate AssignOk(sc: Scope, x: Ident, e: Exp) {
    Fragment(sc, e) && (x !in sc.vars && Static(sc, e).Some? ==> Static(sc, e).value == DYN_INT)
  }

  // `*=` does not pop a bare call; `/=` divides only by constants.
  predicate UpdateOk(sc: Scope, x: Ident, asg: AssignOp, e: Exp) {
    && AssignOk(sc, x, e)
    && (asg.MulBy? ==> !e.Apply?)
    && (asg.DivBy? && Static(sc, e).Some? ==> Static(sc, e).value.isConst)
  }

  /** Every variable has a word of its own: a parameter above rbp or a local below. */
  predicate Layout(fr: Frame) {
    && fr.d >= 0
    && (forall x :: x in fr.sc.vars ==> fr.sc.vars[x] % 8 == 0 && fr.sc.vars[x] >= -8 * fr.d)
    && (forall x :: x in fr.sc.vars && fr.sc.vars[x] >= 0 ==> ParOffset(1) <= fr.sc.vars[x] <= ParOffset(fr.pars))
    && (forall x, y :: x in fr.sc.vars && y in fr.sc.vars && x != y ==> fr.sc.vars[x] != fr.sc.vars[y])
  }

  lemma GrowLayout(fr: Frame, x: Ident)
    requires Layout(fr) && x !in fr.sc.vars
    ensures Layout(Grow(fr, x))
  {
  }

  // The steps of the loop over statements.
  lemma StmtsStep(fr: Frame, ts: Stmts, k: Tokens)
    requires OkStmts(ts) && EndsStmts(k) && InFragment(fr, AbsStmts(ts))
    ensures TokStmts(ts, k).Tok? && !TokStmts(ts, k).head.Colon?
    ensures ts.Nil? <==> EndsStmts(TokStmts(ts, k))
    ensures ts.Cons? ==>
              var k1 := TokStmts(ts.rest, k);
              var k2 := if ts.semi then Tok(Semi, k1) else k1;
              && TokStmts(ts, k) == TokStmt(ts.s, k2) && AfterStmt(ts.s, k2) && (!ts.semi ==> !k1.head.Semi?)
              && OkStmt(ts.s) && OkStmts(ts.rest) && InFragment(fr, AbsStmt(ts.s))
              && AbsStmts(ts) == Seq(AbsStmt(ts.s), AbsStmts(ts.rest))
  {
    hide TokExpr, AbsExpr, OkExpr, InFragment, Place;
    if ts.Cons? {
      assert InFragment(fr, AbsStmt(ts.s)) by { SeqFragment(fr, AbsStmt(ts.s), AbsStmts(ts.rest)); }
      var k1 := TokStmts(ts.rest, k);
      StmtHead(ts.s, if ts.semi then Tok(Semi, k1) else k1);
      if ts.rest.Cons? {
        var t := ts.rest;
        StmtHead(t.s, if t.semi then Tok(Semi, TokStmts(t.rest, k)) else TokStmts(t.rest, k));
      }
    }
  }

  lemma StmtsEnd(fr: Frame, ts: Stmts, k: Tokens)
    requires ts.Nil?
    ensures AbsStmts(ts) == Skip && TokStmts(ts, k) == k && Place(fr, AbsStmts(ts)) == Some(fr)
  {
  }

  lemma SeqFragment(fr: Frame, a: Cmd, b: Cmd)
    requires InFragment(fr, Seq(a, b))
    ensures InFragment(fr, a)
    ensures Place(fr, a).Some? ==>
              InFragment(Place(fr, a).value, b) && Place(fr, Seq(a, b)) == Place(Place(fr, a).value, b)
    ensures Place(fr, a).None? ==> Place(fr, Seq(a, b)).None?
  {
  }

  lemma BlockPlace(fr: Frame, c: Cmd)
    ensures Place(fr, Block(c)) == if Place(fr, c).Some? then Some(fr) else None
  {
  }

  lemma StmtHead(s: Stmt, k: Tokens)
    ensures var t := TokStmt(s, k);
            t.Tok? && (t.head.Id? || t.head.If? || t.head.Semi? || t.head.Var?) && (t.head.Semi? <==> s.SEmpty?)
  {
    hide TokExpr;
  }

  // ----- what code does for a command -----

  /** Machine state m is at a statement boundary: the slots hold st, and rsp = rbp - 8 * LocalSp. */
  ghost predicate AtBoundary(fr: Frame, st: Store, m: State) {
    Models(fr.sc, st, m) && st.Keys == fr.sc.vars.Keys && |m.stack| == m.bp + fr.d
  }

  /**
   What a frame with n parameters must leave alone: rbp, the words below the parameters, which are the return slots and
   the callers' frames, and the return address and the saved rbp above them.
   */
  datatype Surroundings = Surroundings(bp: nat, words: seq<Word>)

  function Around(n: nat, m: State): Surroundings {
    Surroundings(m.bp, if n + 2 <= m.bp <= |m.stack| then m.stack[..m.bp - 2 - n] + m.stack[m.bp - 2..m.bp] else [])
  }

  ghost predicate Ends(o: Outcome, r: Option<Store>, fr: Frame, around: Surroundings) {
    match r
    case None => o.Trap?
    case Some(st) => o.Fall? && Around(fr.pars, o.m) == around && AtBoundary(fr, st, o.m)
  }

  /**
   From frame fr to frame fr', code p does what c does to the store, and leaves everything around the frame alone; it
   traps exactly when c does.
   */
  ghost predicate Performs(fr: Frame, p: seq<Instr>, c: Cmd, fr': Frame) {
    && fr'.pars == fr.pars
    && forall env: Env, m: State, st: Store :: AtBoundary(fr, st, m) ==>
         Ends(Exec(env, p, m), Run(c, st, env), fr', Around(fr.pars, m))
  }

  /**
   The code of c so far, with branch `rest` still to come: it ends with c done, or jumps to l where `rest` has to be
   done.
   */
  ghost predicate Opens(fr: Frame, p: seq<Instr>, l: nat, c: Cmd, rest: Cmd) {
    forall env: Env, m: State, st: Store :: AtBoundary(fr, st, m) ==>
      OpensTo(Exec(env, p, m), Run(c, st, env), Run(rest, st, env), fr, st, Around(fr.pars, m), l)
  }

  ghost predicate OpensTo(o: Outcome, r: Option<Store>, alt: Option<Store>, fr: Frame, st: Store, around: Surroundings,
                          l: nat) {
    || Ends(o, r, fr, around)
    || (o.Escape? && o.lbl == l && Around(fr.pars, o.m) == around && AtBoundary(fr, st, o.m) && r == alt)
  }
}
