/**
 The source language fragment: tokens, concrete syntax trees in the shape of the
 parser's grammar levels, abstract expressions, their types and their meaning.
 */
module Source {
  import opened Words
  import opened Machine

  /** The operator tokens. The Inv operators take their operands in the opposite order. */
  datatype Op =
    | Plus | Minus | Mult | Div | Mod | BAnd | BOr | BXor | AndNot | Shl | Shr
    | Eq | Ne | Lt | Le | Gt | Ge
    | InvMinus | InvDiv | InvMod | InvShl | InvShr
  {
    predicate IsCompare() { Eq? || Ne? || Lt? || Le? || Gt? || Ge? }

    predicate IsInverse() { InvMinus? || InvDiv? || InvMod? || InvShl? || InvShr? }

    // The operators that ParseProd and ParseSumTerm loop over.
    predicate IsProd() { Mult? || Div? || Mod? || Shl? || Shr? || AndNot? || BAnd? }

    predicate IsSum() { Plus? || Minus? || BOr? || BXor? }
  }

  datatype Token =
    | Id(name: Ident) | Num(n: nat) | Infix(op: Op) | LogAnd | LogOr
    | Lpar | Rpar | Comma | Lbrace | Rbrace | Colon | Qmark
    | If | Else | Return | Semi | Var | TypeI64 | Assign(asg: AssignOp) | PlusPlus | MinusMinus

  datatype AssignOp = SetTo | AddTo | SubFrom | MulBy | DivBy

  datatype Tokens = Eof | Tok(head: Token, tail: Tokens)

  // ----- concrete syntax, one type for each grammar level -----

  datatype Unary =
    | UVar(x: Ident)
    | UNum(n: nat)
    | UParen(e: Expr)
    | UNeg(u: Unary)
    | UCall(f: Ident, arg: Expr, more: ArgRest)
  datatype ArgRest = ArgEnd | ArgComma | ArgMore(e: Expr, rest: ArgRest)
  datatype Prod = Prod(u: Unary, rest: ProdRest)
  datatype ProdRest = ProdEnd | ProdMore(op: Op, u: Unary, rest: ProdRest)
  datatype Sum = Sum(p: Prod, rest: SumRest)
  datatype SumRest = SumEnd | SumMore(op: Op, p: Prod, rest: SumRest)
  datatype Comp = CompOne(s: Sum) | CompTwo(l: Sum, op: Op, r: Sum)
  datatype Conj = Conj(c: Comp, rest: ConjRest)
  datatype ConjRest = ConjEnd | ConjMore(c: Comp, rest: ConjRest)
  datatype Expr = Expr(c: Conj, rest: DisjRest)
  datatype DisjRest = DisjEnd | DisjMore(c: Conj, rest: DisjRest)

  // The tokens of a tree, followed by k.
  function TokUnary(u: Unary, k: Tokens): Tokens {
    match u
    case UVar(x) => Tok(Id(x), k)
    case UNum(n) => Tok(Num(n), k)
    case UParen(e) => Tok(Lpar, TokExpr(e, Tok(Rpar, k)))
    case UNeg(u1) => Tok(Infix(Minus), TokUnary(u1, k))
    case UCall(f, a, more) => Tok(Id(f), Tok(Lpar, TokExpr(a, TokArgRest(more, k))))
  }

  function TokArgRest(r: ArgRest, k: Tokens): Tokens {
    match r
    case ArgEnd => Tok(Rpar, k)
    case ArgComma => Tok(Comma, Tok(Rpar, k))
    case ArgMore(e, rest) => Tok(Comma, TokExpr(e, TokArgRest(rest, k)))
  }

  function TokProd(p: Prod, k: Tokens): Tokens { TokUnary(p.u, TokProdRest(p.rest, k)) }

  function TokProdRest(r: ProdRest, k: Tokens): Tokens {
    match r
    case ProdEnd => k
    case ProdMore(op, u, rest) => Tok(Infix(op), TokUnary(u, TokProdRest(rest, k)))
  }

  function TokSum(s: Sum, k: Tokens): Tokens { TokProd(s.p, TokSumRest(s.rest, k)) }

  function TokSumRest(r: SumRest, k: Tokens): Tokens {
    match r
    case SumEnd => k
    case SumMore(op, p, rest) => Tok(Infix(op), TokProd(p, TokSumRest(rest, k)))
  }

  function TokComp(c: Comp, k: Tokens): Tokens {
    match c
    case CompOne(s) => TokSum(s, k)
    case CompTwo(l, op, r) => TokSum(l, Tok(Infix(op), TokSum(r, k)))
  }

  function TokConj(c: Conj, k: Tokens): Tokens { TokComp(c.c, TokConjRest(c.rest, k)) }

  function TokConjRest(r: ConjRest, k: Tokens): Tokens {
    match r
    case ConjEnd => k
    case ConjMore(c, rest) => Tok(LogAnd, TokComp(c, TokConjRest(rest, k)))
  }

  function TokExpr(e: Expr, k: Tokens): Tokens { TokConj(e.c, TokDisjRest(e.rest, k)) }

  function TokDisjRest(r: DisjRest, k: Tokens): Tokens {
    match r
    case DisjEnd => k
    case DisjMore(c, rest) => Tok(LogOr, TokConj(c, TokDisjRest(rest, k)))
  }

  // The trees that the grammar derives: each level holds only its own operators.
  predicate OkUnary(u: Unary) {
    match u
    case UVar(_) => true
    case UNum(_) => true
    case UParen(e) => OkExpr(e)
    case UNeg(u1) => OkUnary(u1)
    case UCall(_, a, more) => OkExpr(a) && OkArgRest(more)
  }

  predicate OkArgRest(r: ArgRest) { r.ArgMore? ==> OkExpr(r.e) && OkArgRest(r.rest) }

  predicate OkProd(p: Prod) { OkUnary(p.u) && OkProdRest(p.rest) }

  predicate OkProdRest(r: ProdRest) { r.ProdMore? ==> r.op.IsProd() && OkUnary(r.u) && OkProdRest(r.rest) }

  predicate OkSum(s: Sum) { OkProd(s.p) && OkSumRest(s.rest) }

  predicate OkSumRest(r: SumRest) { r.SumMore? ==> r.op.IsSum() && OkProd(r.p) && OkSumRest(r.rest) }

  predicate OkComp(c: Comp) {
    match c
    case CompOne(s) => OkSum(s)
    case CompTwo(l, op, r) => OkSum(l) && op.IsCompare() && OkSum(r)
  }

  predicate OkConj(c: Conj) { OkComp(c.c) && OkConjRest(c.rest) }

  predicate OkConjRest(r: ConjRest) { r.ConjMore? ==> OkComp(r.c) && OkConjRest(r.rest) }

  predicate OkExpr(e: Expr) { OkConj(e.c) && OkDisjRest(e.rest) }

  predicate OkDisjRest(r: DisjRest) { r.DisjMore? ==> OkConj(r.c) && OkDisjRest(r.rest) }

  // ----- abstract expressions -----

  datatype Exp =
    | Ref(x: Ident)
    | Lit(n: nat)
    | Negate(e: Exp)
    | Bin(op: Op, l: Exp, r: Exp)
    | Both(l: Exp, r: Exp)      // l && r
    | Either(l: Exp, r: Exp)    // l || r
    | Apply(f: Ident, args: seq<Exp>)

  // What a tree means as an expression: operators of one level associate to the left.
  function AbsUnary(u: Unary): Exp {
    match u
    case UVar(x) => Ref(x)
    case UNum(n) => Lit(n)
    case UParen(e) => AbsExpr(e)
    case UNeg(u1) => Negate(AbsUnary(u1))
    case UCall(f, a, more) => Apply(f, [AbsExpr(a)] + AbsArgRest(more))
  }

  function AbsArgRest(r: ArgRest): seq<Exp> {
    match r
    case ArgEnd => []
    case ArgComma => []
    case ArgMore(e, rest) => [AbsExpr(e)] + AbsArgRest(rest)
  }

  function AbsProd(p: Prod): Exp { AbsProdRest(AbsUnary(p.u), p.rest) }

  function AbsProdRest(left: Exp, r: ProdRest): Exp
    decreases r
  {
    match r
    case ProdEnd => left
    case ProdMore(op, u, rest) => AbsProdRest(Bin(op, left, AbsUnary(u)), rest)
  }

  function AbsSum(s: Sum): Exp { AbsSumRest(AbsProd(s.p), s.rest) }

  function AbsSumRest(left: Exp, r: SumRest): Exp
    decreases r
  {
    match r
    case SumEnd => left
    case SumMore(op, p, rest) => AbsSumRest(Bin(op, left, AbsProd(p)), rest)
  }

  function AbsComp(c: Comp): Exp {
    match c
    case CompOne(s) => AbsSum(s)
    case CompTwo(l, op, r) => Bin(op, AbsSum(l), AbsSum(r))
  }

  function AbsConj(c: Conj): Exp { AbsConjRest(AbsComp(c.c), c.rest) }

  function AbsConjRest(left: Exp, r: ConjRest): Exp
    decreases r
  {
    match r
    case ConjEnd => left
    case ConjMore(c, rest) => AbsConjRest(Both(left, AbsComp(c)), rest)
  }

  function AbsExpr(e: Expr): Exp { AbsDisjRest(AbsConj(e.c), e.rest) }

  function AbsDisjRest(left: Exp, r: DisjRest): Exp
    decreases r
  {
    match r
    case DisjEnd => left
    case DisjMore(c, rest) => AbsDisjRest(Either(left, AbsConj(c)), rest)
  }

  // ----- meaning -----

  type Store = map<Ident, Word>

  function Truth(b: bool): Word { if b then 1 else 0 }

  /** The 64-bit meaning of an operator. None is a division trap. */
  function OpWord(op: Op, a: Word, b: Word): Option<Word> {
    match op
    case Plus => Some(Wrap(a + b))
    case Minus => Some(Wrap(a - b))
    case Mult => Some(MulLow(a, b))
    case Div => DivWord(a, b)
    case Mod => ModWord(a, b)
    case BAnd => Some(Word64(BitAnd, a, b))
    case BOr => Some(Word64(BitOr, a, b))
    case BXor => Some(Word64(BitXor, a, b))
    case AndNot => Some(Word64(BitAnd, a, Complement(b)))
    case Shl => Some(ShiftLeft(a, b))
    case Shr => Some(ShiftRight(a, b))
    case Eq => Some(Truth(a == b))
    case Ne => Some(Truth(a != b))
    case Lt => Some(Truth(Signed(a) < Signed(b)))
    case Le => Some(Truth(Signed(a) <= Signed(b)))
    case Gt => Some(Truth(Signed(a) > Signed(b)))
    case Ge => Some(Truth(Signed(a) >= Signed(b)))
    case InvMinus => Some(Wrap(b - a))
    case InvDiv => DivWord(b, a)
    case InvMod => ModWord(b, a)
    case InvShl => Some(ShiftLeft(b, a))
    case InvShr => Some(ShiftRight(b, a))
  }

  /** Signed division truncates toward zero; it traps on zero and on a quotient of 2^63. */
  function DivWord(a: Word, b: Word): Option<Word> {
    if b == 0 || TruncDiv(Signed(a), Signed(b)) >= HALF then None
    else Some(Wrap(TruncDiv(Signed(a), Signed(b))))
  }

  function ModWord(a: Word, b: Word): Option<Word> {
    if b == 0 || TruncDiv(Signed(a), Signed(b)) >= HALF then None
    else Some(Wrap(Signed(a) - TruncDiv(Signed(a), Signed(b)) * Signed(b)))
  }

  function Eval(e: Exp, st: Store, env: Env): Option<Word>
    decreases e, 1
  {
    match e
    case Ref(x) => Some(if x in st then st[x] else 0)
    case Lit(n) => Some(Wrap(n))
    case Negate(e1) => (match Eval(e1, st, env) case None => None case Some(a) => Some(Negated(a)))
    case Bin(op, l, r) => Lift(op, Eval(l, st, env), Eval(r, st, env))
    case Both(l, r) =>
      (match Eval(l, st, env) case None => None case Some(a) => if a == 0 then Some(0) else Eval(r, st, env))
    case Either(l, r) =>
      (match Eval(l, st, env) case None => None case Some(a) => if a != 0 then Some(1) else Eval(r, st, env))
    case Apply(f, args) =>
      (match EvalAll(args, st, env) case None => None case Some(vs) => env.fn(f, vs))
  }

  function Lift(op: Op, a: Option<Word>, b: Option<Word>): Option<Word> {
    if a.Some? && b.Some? then OpWord(op, a.value, b.value) else None
  }

  function EvalAll(es: seq<Exp>, st: Store, env: Env): (r: Option<seq<Word>>)
    ensures r.Some? ==> |r.value| == |es|
    decreases es, 0
  {
    if es == [] then Some([])
    else match (Eval(es[0], st, env), EvalAll(es[1..], st, env))
      case (Some(v), Some(vs)) => Some([v] + vs)
      case _ => None
  }

  // ----- types and compile-time values -----

  datatype Type = IntT | BoolT

  /** What the compiler knows about a parsed operand: its type and, when it is constant, its value. */
  datatype Value = Value(ty: Type, isConst: bool, n: int)

  const DYN_INT := Value(IntT, false, 0)
  const DYN_BOOL := Value(BoolT, false, 0)

  /** The names in scope: frame offsets of the variables, parameter types of the functions. */
  datatype Scope = Scope(vars: map<Ident, int>, fns: map<Ident, seq<Type>>)

  const MAX_LIT: int := 0x7FFF_FFFF

  function Abs(x: int): nat { if x < 0 then -x else x }

  function Max(a: int, b: int): int { if a > b then a else b }

  /** The compiler's own evaluation of two constants; None when it panics. */
  function Fold(op: Op, a: int, b: int): Option<Value> {
    if op.IsCompare() then Some(Value(BoolT, true, Truth(FoldTest(op, a, b))))
    else
      var r := if op.Shl? || op.Shr? then FoldShifted(op, a, b) else if op.Div?
        || op.Mod? then FoldDivided(op, a, b) else FoldInt(op, a, b);
      if r.None? then None else Some(Value(IntT, true, r.value))
  }

  // Equality of constants has a relative tolerance of 1e-7.
  predicate FoldTest(op: Op, a: int, b: int)
    requires op.IsCompare()
  {
    match op
    case Eq => Abs(a - b) * 10_000_000 < Max(Max(a, b), 1)
    case Ne => Abs(a - b) * 10_000_000 > Max(Max(a, b), 1)
    case Lt => a < b
    case Le => a <= b
    case Gt => a > b
    case Ge => a >= b
  }

  // A shift by 64 or more moves every bit out; a negative count is a run-time panic.
  function FoldShifted(op: Op, a: int, b: int): Option<int> {
    if b < 0 then None else if op.Shl? then Some(Wrap(a * Pow2(b))) else Some(a / Pow2(b))
  }

  function FoldDivided(op: Op, a: int, b: int): Option<int> {
    if b == 0 then None else if op.Div? then Some(TruncDiv(a, b)) else Some(a - TruncDiv(a, b) * b)
  }

  function FoldInt(op: Op, a: int, b: int): Option<int> {
    match op
    case Plus => Some(a + b)
    case Minus => Some(a - b)
    case Mult => Some(a * b)
    case BAnd => Some(Word64(BitAnd, Wrap(a), Wrap(b)))
    case BOr => Some(Word64(BitOr, Wrap(a), Wrap(b)))
    case BXor => Some(Word64(BitXor, Wrap(a), Wrap(b)))
    case AndNot => Some(Word64(BitAnd, Wrap(a), Complement(Wrap(b))))
    case _ => None
  }

  /** The type rules of GenerateOp. */
  function OpValue(op: Op, v1: Value, v2: Value): Option<Value> {
    if v1.isConst && v2.isConst then Fold(op, v1.n, v2.n)
    else if v1.isConst || v2.isConst then
      if op.IsCompare() then (if v1.ty == v2.ty then Some(DYN_BOOL) else None)
      else if v1.ty.IntT? && v2.ty.IntT? then Some(DYN_INT) else None
    else if op.IsCompare() then (if v1.ty.IntT? && v2.ty.IntT? then Some(DYN_BOOL) else None)
    else if v1.ty.IntT? then Some(DYN_INT) else None
  }

  /** The compile-time value of an expression; None when the compiler reports an error. */
  function Static(sc: Scope, e: Exp): Option<Value>
    decreases e, 1
  {
    match e
    case Ref(x) => if x in sc.vars then Some(DYN_INT) else None
    case Lit(n) => Some(Value(IntT, true, n))
    case Negate(e1) => Static(sc, e1)
    case Bin(op, l, r) =>
      (match (Static(sc, l), Static(sc, r)) case (Some(v1), Some(v2)) => OpValue(op, v1, v2) case _ => None)
    case Both(l, r) => Logical(Static(sc, l), Static(sc, r))
    case Either(l, r) => Logical(Static(sc, l), Static(sc, r))
    case Apply(f, args) =>
      if f in sc.fns && AllTyped(sc, args) && Accepts(sc.fns[f], TypesOf(sc, args)) then Some(DYN_INT) else None
  }

  function Logical(a: Option<Value>, b: Option<Value>): Option<Value> {
    if a.Some? && a.value.ty.BoolT? && b.Some? && b.value.ty.BoolT? then Some(DYN_BOOL) else None
  }

  /** A boolean can be given where an I64 is wanted, but not the other way round. */
  predicate CanAssign(want: Type, have: Type) { want == have || want.IntT? }

  predicate Accepts(pars: seq<Type>, args: seq<Type>) {
    |pars| == |args| && forall i :: 0 <= i < |pars| ==> CanAssign(pars[i], args[i])
  }

  predicate AllTyped(sc: Scope, es: seq<Exp>)
    decreases es, 0
  {
    es == [] || (Static(sc, es[0]).Some? && AllTyped(sc, es[1..]))
  }

  function TypesOf(sc: Scope, es: seq<Exp>): (ts: seq<Type>)
    ensures |ts| == |es|
    decreases es, 0
  {
    if es == [] then []
    else
      var v := Static(sc, es[0]);
      [if v.Some? then v.value.ty else IntT] + TypesOf(sc, es[1..])
  }

  function ValueTypes(vs: seq<Value>): (ts: seq<Type>)
    ensures |ts| == |vs|
  {
    if vs == [] then [] else ValueTypes(vs[..|vs| - 1]) + [vs[|vs| - 1].ty]
  }

  predicate IsDyn(sc: Scope, e: Exp) {
    Static(sc, e).Some? ==> !Static(sc, e).value.isConst
  }

  /** Folding two constants stays in range and agrees with the 64-bit operator; see FoldAgrees. */
  predicate FoldOk(op: Op, a: int, b: int) {
    Fold(op, a, b).Some? && 0 <= Fold(op, a, b).value.n <= MAX_LIT && FoldExact(op, a, b)
  }

  predicate FoldExact(op: Op, a: int, b: int) {
    match op
    case Eq => a == b || Abs(a - b) * 10_000_000 >= Max(a, b)
    case Ne => a == b || Abs(a - b) * 10_000_000 > Max(a, b)
    case Shl => b < 64 || a % Pow2(64 - b % 64) == 0
    case Shr => b < 64 || a < Pow2(b % 64)
    case _ => true
  }

  /** The expressions on which the code generator has no known gap. */
  predicate Fragment(sc: Scope, e: Exp)
    decreases e, 1
  {
    match e
    case Ref(_) => true
    case Lit(n) => n <= MAX_LIT
    case Negate(e1) => Fragment(sc, e1) && (Static(sc, e1).Some? ==> Static(sc, e1).value == DYN_INT)
    case Bin(op, l, r) =>
      && !op.IsInverse() && Fragment(sc, l) && Fragment(sc, r)
      && (Static(sc, l).Some? && Static(sc, r).Some? ==>
            var a, b := Static(sc, l).value, Static(sc, r).value;
            if a.isConst && b.isConst then FoldOk(op, a.n, b.n)
            else op.AndNot? ==> !a.isConst && !b.isConst)
    case Both(l, r) => Fragment(sc, l) && Fragment(sc, r) && IsDyn(sc, l) && IsDyn(sc, r) && !StartsWithCall(r)
    case Either(l, r) => Fragment(sc, l) && Fragment(sc, r) && IsDyn(sc, l) && IsDyn(sc, r) && !StartsWithCall(r)
    case Apply(_, args) => |args| >= 1 && AllFragment(sc, args)
  }

  predicate AllFragment(sc: Scope, es: seq<Exp>)
    decreases es, 0
  {
    es == [] || (Fragment(sc, es[0]) && AllFragment(sc, es[1..]))
  }

  predicate StartsWithCall(e: Exp) {
    match e
    case Apply(_, _) => true
    case Negate(e1) => StartsWithCall(e1)
    case Bin(_, l, _) => StartsWithCall(l)
    case Both(l, _) => StartsWithCall(l)
    case Either(l, _) => StartsWithCall(l)
    case _ => false
  }
}
