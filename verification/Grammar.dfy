/**
 The grammar of expressions. Tokens have at most one derivation, and an expression written with the parentheses that
 the precedence of its operators calls for, and no others, is read back as itself.
 */
module Grammar {
  import opened Machine
  import opened Source
  import opened Pieces

  // ----- one derivation -----

  lemma {:induction false} SameUnary(a: Unary, k: Tokens, b: Unary, l: Tokens)
    requires OkUnary(a) && OkUnary(b) && AfterUnary(k) && AfterUnary(l) && TokUnary(a, k) == TokUnary(b, l)
    ensures a == b && k == l
    decreases a, 0
  {
    match a
    case UVar(_) =>
    case UNum(_) =>
    case UParen(e) => SameExpr(e, Tok(Rpar, k), b.e, Tok(Rpar, l));
    case UNeg(u) => SameUnary(u, k, b.u, l);
    case UCall(_, e, more) =>
      SameExpr(e, TokArgRest(more, k), b.arg, TokArgRest(b.more, l));
      SameArgRest(more, k, b.more, l);
  }

  lemma {:induction false} SameArgRest(a: ArgRest, k: Tokens, b: ArgRest, l: Tokens)
    requires OkArgRest(a) && OkArgRest(b) && TokArgRest(a, k) == TokArgRest(b, l)
    ensures a == b && k == l
    decreases a, 0
  {
    if a.ArgMore? {
      ExprHead(a.e, TokArgRest(a.rest, k));
    }
    if b.ArgMore? {
      ExprHead(b.e, TokArgRest(b.rest, l));
    }
    if a.ArgMore? && b.ArgMore? {
      SameExpr(a.e, TokArgRest(a.rest, k), b.e, TokArgRest(b.rest, l));
      SameArgRest(a.rest, k, b.rest, l);
    }
  }

  lemma {:induction false} SameProd(a: Prod, k: Tokens, b: Prod, l: Tokens)
    requires OkProd(a) && OkProd(b) && AfterProd(k) && AfterProd(l) && TokProd(a, k) == TokProd(b, l)
    ensures a == b && k == l
    decreases a, 1
  {
    SameUnary(a.u, TokProdRest(a.rest, k), b.u, TokProdRest(b.rest, l));
    SameProdRest(a.rest, k, b.rest, l);
  }

  lemma {:induction false} SameProdRest(a: ProdRest, k: Tokens, b: ProdRest, l: Tokens)
    requires OkProdRest(a) && OkProdRest(b) && AfterProd(k) && AfterProd(l) && TokProdRest(a, k) == TokProdRest(b, l)
    ensures a == b && k == l
    decreases a, 0
  {
    if a.ProdMore? && b.ProdMore? {
      SameUnary(a.u, TokProdRest(a.rest, k), b.u, TokProdRest(b.rest, l));
      SameProdRest(a.rest, k, b.rest, l);
    }
  }

  lemma {:induction false} SameSum(a: Sum, k: Tokens, b: Sum, l: Tokens)
    requires OkSum(a) && OkSum(b) && AfterSum(k) && AfterSum(l) && TokSum(a, k) == TokSum(b, l)
    ensures a == b && k == l
    decreases a, 1
  {
    SameProd(a.p, TokSumRest(a.rest, k), b.p, TokSumRest(b.rest, l));
    SameSumRest(a.rest, k, b.rest, l);
  }

  lemma {:induction false} SameSumRest(a: SumRest, k: Tokens, b: SumRest, l: Tokens)
    requires OkSumRest(a) && OkSumRest(b) && AfterSum(k) && AfterSum(l) && TokSumRest(a, k) == TokSumRest(b, l)
    ensures a == b && k == l
    decreases a, 0
  {
    if a.SumMore? && b.SumMore? {
      SameProd(a.p, TokSumRest(a.rest, k), b.p, TokSumRest(b.rest, l));
      SameSumRest(a.rest, k, b.rest, l);
    }
  }

  lemma {:induction false} SameComp(a: Comp, k: Tokens, b: Comp, l: Tokens)
    requires OkComp(a) && OkComp(b) && AfterComp(k) && AfterComp(l) && TokComp(a, k) == TokComp(b, l)
    ensures a == b && k == l
    decreases a, 2
  {
    var k1 := if a.CompOne? then k else Tok(Infix(a.op), TokSum(a.r, k));
    var l1 := if b.CompOne? then l else Tok(Infix(b.op), TokSum(b.r, l));
    SameSum(if a.CompOne? then a.s else a.l, k1, if b.CompOne? then b.s else b.l, l1);
    if a.CompTwo? && b.CompTwo? {
      SameSum(a.r, k, b.r, l);
    }
  }

  lemma {:induction false} SameConj(a: Conj, k: Tokens, b: Conj, l: Tokens)
    requires OkConj(a) && OkConj(b) && AfterConj(k) && AfterConj(l) && TokConj(a, k) == TokConj(b, l)
    ensures a == b && k == l
    decreases a, 1
  {
    SameComp(a.c, TokConjRest(a.rest, k), b.c, TokConjRest(b.rest, l));
    SameConjRest(a.rest, k, b.rest, l);
  }

  lemma {:induction false} SameConjRest(a: ConjRest, k: Tokens, b: ConjRest, l: Tokens)
    requires OkConjRest(a) && OkConjRest(b) && AfterConj(k) && AfterConj(l) && TokConjRest(a, k) == TokConjRest(b, l)
    ensures a == b && k == l
    decreases a, 0
  {
    if a.ConjMore? && b.ConjMore? {
      SameComp(a.c, TokConjRest(a.rest, k), b.c, TokConjRest(b.rest, l));
      SameConjRest(a.rest, k, b.rest, l);
    }
  }

  /** Tokens that begin with an expression begin with no other one. */
  lemma {:induction false} SameExpr(a: Expr, k: Tokens, b: Expr, l: Tokens)
    requires OkExpr(a) && OkExpr(b) && AfterExpr(k) && AfterExpr(l) && TokExpr(a, k) == TokExpr(b, l)
    ensures a == b && k == l
    decreases a, 1
  {
    SameConj(a.c, TokDisjRest(a.rest, k), b.c, TokDisjRest(b.rest, l));
    SameDisjRest(a.rest, k, b.rest, l);
  }

  lemma {:induction false} SameDisjRest(a: DisjRest, k: Tokens, b: DisjRest, l: Tokens)
    requires OkDisjRest(a) && OkDisjRest(b) && AfterExpr(k) && AfterExpr(l) && TokDisjRest(a, k) == TokDisjRest(b, l)
    ensures a == b && k == l
    decreases a, 0
  {
    if a.DisjMore? && b.DisjMore? {
      SameConj(a.c, TokDisjRest(a.rest, k), b.c, TokDisjRest(b.rest, l));
      SameDisjRest(a.rest, k, b.rest, l);
    }
  }

  // ----- writing an expression -----

  /** The precedence of the operators; those that take their operands in the opposite order cannot be written. */
  function Precedence(op: Op): nat {
    match op
    case Mult => 5
    case Div => 5
    case Mod => 5
    case Shl => 5
    case Shr => 5
    case AndNot => 5
    case BAnd => 5
    case Plus => 4
    case Minus => 4
    case BOr => 4
    case BXor => 4
    case Eq => 3
    case Ne => 3
    case Lt => 3
    case Le => 3
    case Gt => 3
    case Ge => 3
    case _ => 0
  }

  function Binding(e: Exp): nat {
    match e
    case Bin(op, _, _) => Precedence(op)
    case Both(_, _) => 2
    case Either(_, _) => 1
    case _ => 6
  }

  predicate Writable(e: Exp)
    decreases e, 1
  {
    match e
    case Ref(_) => true
    case Lit(_) => true
    case Negate(e1) => Writable(e1)
    case Bin(op, l, r) => Precedence(op) > 0 && Writable(l) && Writable(r)
    case Both(l, r) => Writable(l) && Writable(r)
    case Either(l, r) => Writable(l) && Writable(r)
    case Apply(_, args) => args != [] && AllWritable(args)
  }

  predicate AllWritable(es: seq<Exp>)
    decreases es, 0
  {
    es == [] || (Writable(es[0]) && AllWritable(es[1..]))
  }

  /**
   The tokens of e as an operand of an operator that needs one that binds at least with precedence p, followed by k.
   Operators associate to the left, and comparisons do not associate.
   */
  function Written(e: Exp, p: nat, k: Tokens): Tokens
    requires Writable(e)
    decreases e, 1, p
  {
    if Binding(e) < p then Tok(Lpar, Written(e, 1, Tok(Rpar, k)))
    else match e
      case Ref(x) => Tok(Id(x), k)
      case Lit(n) => Tok(Num(n), k)
      case Negate(e1) => Tok(Infix(Minus), Written(e1, 6, k))
      case Bin(op, l, r) =>
        var q := Precedence(op);
        Written(l, if q == 3 then 4 else q, Tok(Infix(op), Written(r, q + 1, k)))
      case Both(l, r) => Written(l, 2, Tok(LogAnd, Written(r, 3, k)))
      case Either(l, r) => Written(l, 1, Tok(LogOr, Written(r, 2, k)))
      case Apply(f, args) => Tok(Id(f), Tok(Lpar, WrittenArgs(args, k)))
  }

  // The arguments of a call and its closing parenthesis.
  function WrittenArgs(es: seq<Exp>, k: Tokens): Tokens
    requires es != [] && AllWritable(es)
    decreases es, 0, 0
  {
    Written(es[0], 1, if |es| == 1 then Tok(Rpar, k) else Tok(Comma, WrittenArgs(es[1..], k)))
  }

  // ----- its tree -----

  function OfUnary(u: Unary): Expr { OfProd(Prod(u, ProdEnd)) }

  function OfProd(p: Prod): Expr { OfSum(Sum(p, SumEnd)) }

  function OfSum(s: Sum): Expr { OfComp(CompOne(s)) }

  function OfComp(c: Comp): Expr { Expr(Conj(c, ConjEnd), DisjEnd) }

  // How tightly the operator at the top of a tree binds.
  function Top(t: Expr): nat {
    if t.rest.DisjMore? then 1
    else if t.c.rest.ConjMore? then 2
    else if t.c.c.CompTwo? then 3
    else if t.c.c.s.rest.SumMore? then 4
    else if t.c.c.s.p.rest.ProdMore? then 5
    else 6
  }

  // A tree as an operand of each level, in parentheses when it does not bind tightly enough.
  function AsConj(t: Expr): Conj { if Top(t) >= 2 then t.c else OfUnary(UParen(t)).c }

  function AsComp(t: Expr): Comp { if Top(t) >= 3 then t.c.c else OfUnary(UParen(t)).c.c }

  function AsSum(t: Expr): Sum { if Top(t) >= 4 then t.c.c.s else Sum(Prod(UParen(t), ProdEnd), SumEnd) }

  function AsProd(t: Expr): Prod { if Top(t) >= 5 then t.c.c.s.p else Prod(UParen(t), ProdEnd) }

  function AsUnary(t: Expr): Unary { if Top(t) >= 6 then t.c.c.s.p.u else UParen(t) }

  function AddProd(r: ProdRest, op: Op, u: Unary): ProdRest {
    if r.ProdEnd? then ProdMore(op, u, ProdEnd) else ProdMore(r.op, r.u, AddProd(r.rest, op, u))
  }

  function AddSum(r: SumRest, op: Op, p: Prod): SumRest {
    if r.SumEnd? then SumMore(op, p, SumEnd) else SumMore(r.op, r.p, AddSum(r.rest, op, p))
  }

  function AddConj(r: ConjRest, c: Comp): ConjRest {
    if r.ConjEnd? then ConjMore(c, ConjEnd) else ConjMore(r.c, AddConj(r.rest, c))
  }

  function AddDisj(r: DisjRest, c: Conj): DisjRest {
    if r.DisjEnd? then DisjMore(c, DisjEnd) else DisjMore(r.c, AddDisj(r.rest, c))
  }

  // The tree of an operator and the trees of its operands.
  function Joined(op: Op, l: Expr, r: Expr): Expr {
    if Precedence(op) == 5 then OfProd(Prod(AsProd(l).u, AddProd(AsProd(l).rest, op, AsUnary(r))))
    else if Precedence(op) == 4 then OfSum(Sum(AsSum(l).p, AddSum(AsSum(l).rest, op, AsProd(r))))
    else OfComp(CompTwo(AsSum(l), op, AsSum(r)))
  }

  function Conjoined(l: Expr, r: Expr): Expr {
    Expr(Conj(AsConj(l).c, AddConj(AsConj(l).rest, AsComp(r))), DisjEnd)
  }

  function Disjoined(l: Expr, r: Expr): Expr { Expr(l.c, AddDisj(l.rest, AsConj(r))) }

  function Tree(e: Exp): Expr
    requires Writable(e)
    decreases e, 1
  {
    match e
    case Ref(x) => OfUnary(UVar(x))
    case Lit(n) => OfUnary(UNum(n))
    case Negate(e1) => OfUnary(UNeg(AsUnary(Tree(e1))))
    case Bin(op, l, r) => Joined(op, Tree(l), Tree(r))
    case Both(l, r) => Conjoined(Tree(l), Tree(r))
    case Either(l, r) => Disjoined(Tree(l), Tree(r))
    case Apply(f, args) =>
      assert AllWritable(args);
      OfUnary(UCall(f, Tree(args[0]), TreeArgs(args[1..])))
  }

  function TreeArgs(es: seq<Exp>): ArgRest
    requires AllWritable(es)
    decreases es, 0
  {
    if es == [] then ArgEnd else ArgMore(Tree(es[0]), TreeArgs(es[1..]))
  }

  lemma {:induction false} AddProdIs(a: Exp, r: ProdRest, op: Op, u: Unary, k: Tokens)
    ensures AbsProdRest(a, AddProd(r, op, u)) == Bin(op, AbsProdRest(a, r), AbsUnary(u))
    ensures TokProdRest(AddProd(r, op, u), k) == TokProdRest(r, Tok(Infix(op), TokUnary(u, k)))
    ensures OkProdRest(r) && OkUnary(u) && op.IsProd() ==> OkProdRest(AddProd(r, op, u))
    decreases r
  {
    if r.ProdMore? {
      AddProdIs(Bin(r.op, a, AbsUnary(r.u)), r.rest, op, u, k);
    }
  }

  lemma {:induction false} AddSumIs(a: Exp, r: SumRest, op: Op, p: Prod, k: Tokens)
    ensures AbsSumRest(a, AddSum(r, op, p)) == Bin(op, AbsSumRest(a, r), AbsProd(p))
    ensures TokSumRest(AddSum(r, op, p), k) == TokSumRest(r, Tok(Infix(op), TokProd(p, k)))
    ensures OkSumRest(r) && OkProd(p) && op.IsSum() ==> OkSumRest(AddSum(r, op, p))
    decreases r
  {
    if r.SumMore? {
      AddSumIs(Bin(r.op, a, AbsProd(r.p)), r.rest, op, p, k);
    }
  }

  lemma {:induction false} AddConjIs(a: Exp, r: ConjRest, c: Comp, k: Tokens)
    ensures AbsConjRest(a, AddConj(r, c)) == Both(AbsConjRest(a, r), AbsComp(c))
    ensures TokConjRest(AddConj(r, c), k) == TokConjRest(r, Tok(LogAnd, TokComp(c, k)))
    ensures OkConjRest(r) && OkComp(c) ==> OkConjRest(AddConj(r, c))
    decreases r
  {
    if r.ConjMore? {
      AddConjIs(Both(a, AbsComp(r.c)), r.rest, c, k);
    }
  }

  lemma {:induction false} AddDisjIs(a: Exp, r: DisjRest, c: Conj, k: Tokens)
    ensures AbsDisjRest(a, AddDisj(r, c)) == Either(AbsDisjRest(a, r), AbsConj(c))
    ensures TokDisjRest(AddDisj(r, c), k) == TokDisjRest(r, Tok(LogOr, TokConj(c, k)))
    ensures OkDisjRest(r) && OkConj(c) ==> OkDisjRest(AddDisj(r, c))
    decreases r
  {
    if r.DisjMore? {
      AddDisjIs(Either(a, AbsConj(r.c)), r.rest, c, k);
    }
  }

  // The tokens of a tree as an operand of precedence p.
  function Operand(t: Expr, p: nat, k: Tokens): Tokens {
    if Top(t) < p then Tok(Lpar, TokExpr(t, Tok(Rpar, k))) else TokExpr(t, k)
  }

  lemma {:induction false} OfCompIs(c: Comp, k: Tokens)
    ensures AbsExpr(OfComp(c)) == AbsComp(c) && TokExpr(OfComp(c), k) == TokComp(c, k)
    ensures OkComp(c) ==> OkExpr(OfComp(c))
  {
    var j := Conj(c, ConjEnd);
    assert AbsConj(j) == AbsComp(c) && TokConj(j, k) == TokComp(c, k) && (OkComp(c) ==> OkConj(j)) by {
      assert TokConjRest(ConjEnd, k) == k && OkConjRest(ConjEnd);
    }
    assert TokDisjRest(DisjEnd, k) == k && OkDisjRest(DisjEnd);
    hide AbsConj, TokConj, OkConj;
  }

  lemma {:induction false} OfSumIs(s: Sum, k: Tokens)
    ensures AbsExpr(OfSum(s)) == AbsSum(s) && TokExpr(OfSum(s), k) == TokSum(s, k) && (OkSum(s) ==> OkExpr(OfSum(s)))
  {
    OfCompIs(CompOne(s), k);
    hide AbsExpr, TokExpr, OkExpr, AbsSum, TokSum, OkSum;
  }

  lemma {:induction false} OfProdIs(p: Prod, k: Tokens)
    ensures AbsExpr(OfProd(p)) == AbsProd(p) && TokExpr(OfProd(p), k) == TokProd(p, k)
    ensures OkProd(p) ==> OkExpr(OfProd(p))
  {
    OfSumIs(Sum(p, SumEnd), k);
    assert TokSumRest(SumEnd, k) == k && TokSum(Sum(p, SumEnd), k) == TokProd(p, k);
    assert AbsSum(Sum(p, SumEnd)) == AbsProd(p) && OkSumRest(SumEnd);
  }

  lemma {:induction false} OfUnaryIs(u: Unary, k: Tokens)
    ensures AbsExpr(OfUnary(u)) == AbsUnary(u) && TokExpr(OfUnary(u), k) == TokUnary(u, k)
    ensures (OkUnary(u) ==> OkExpr(OfUnary(u))) && Top(OfUnary(u)) == 6
  {
    OfProdIs(Prod(u, ProdEnd), k);
    assert TokProdRest(ProdEnd, k) == k && TokProd(Prod(u, ProdEnd), k) == TokUnary(u, k);
    assert AbsProd(Prod(u, ProdEnd)) == AbsUnary(u) && OkProdRest(ProdEnd);
  }

  // A tree without operators of the outer levels is one of the inner levels.
  lemma {:induction false} Levels(t: Expr, k: Tokens)
    ensures Top(t) >= 2 ==> AbsExpr(t) == AbsConj(t.c) && TokExpr(t, k) == TokConj(t.c, k)
    ensures Top(t) >= 3 ==> AbsConj(t.c) == AbsComp(t.c.c) && TokConj(t.c, k) == TokComp(t.c.c, k)
    ensures Top(t) >= 4 ==> AbsComp(t.c.c) == AbsSum(t.c.c.s) && TokComp(t.c.c, k) == TokSum(t.c.c.s, k)
    ensures Top(t) >= 5 ==> AbsSum(t.c.c.s) == AbsProd(t.c.c.s.p) && TokSum(t.c.c.s, k) == TokProd(t.c.c.s.p, k)
    ensures Top(t) >= 6 ==>
              AbsProd(t.c.c.s.p) == AbsUnary(t.c.c.s.p.u) && TokProd(t.c.c.s.p, k) == TokUnary(t.c.c.s.p.u, k)
    ensures OkExpr(t) ==> OkConj(t.c) && OkComp(t.c.c) && (Top(t) >= 4 ==> OkSum(t.c.c.s) && OkProd(t.c.c.s.p))
    ensures OkExpr(t) && Top(t) >= 6 ==> OkUnary(t.c.c.s.p.u)
  {
  }

  // Parentheses make a tree an operand of every level.
  lemma {:induction false} InParens(t: Expr, k: Tokens)
    ensures AbsUnary(UParen(t)) == AbsExpr(t) && (OkUnary(UParen(t)) <==> OkExpr(t))
    ensures TokUnary(UParen(t), k) == Tok(Lpar, TokExpr(t, Tok(Rpar, k)))
  {
  }

  lemma {:induction false} AsUnaryIs(t: Expr, k: Tokens)
    ensures AbsUnary(AsUnary(t)) == AbsExpr(t) && (OkExpr(t) ==> OkUnary(AsUnary(t)))
    ensures TokUnary(AsUnary(t), k) == Operand(t, 6, k)
  {
    Levels(t, k);
    InParens(t, k);
    OfUnaryIs(UParen(t), k);
    Levels(OfUnary(UParen(t)), k);
    hide AbsExpr, TokExpr, OkExpr, AbsUnary, TokUnary, OkUnary;
  }

  lemma {:induction false} AsProdIs(t: Expr, k: Tokens)
    ensures AbsProd(AsProd(t)) == AbsExpr(t) && (OkExpr(t) ==> OkProd(AsProd(t)))
    ensures TokProd(AsProd(t), k) == Operand(t, 5, k)
  {
    Levels(t, k);
    InParens(t, k);
    OfUnaryIs(UParen(t), k);
    Levels(OfUnary(UParen(t)), k);
    hide AbsExpr, TokExpr, OkExpr, AbsUnary, TokUnary, OkUnary;
  }

  lemma {:induction false} AsSumIs(t: Expr, k: Tokens)
    ensures AbsSum(AsSum(t)) == AbsExpr(t) && (OkExpr(t) ==> OkSum(AsSum(t)))
    ensures TokSum(AsSum(t), k) == Operand(t, 4, k)
  {
    Levels(t, k);
    InParens(t, k);
    OfUnaryIs(UParen(t), k);
    Levels(OfUnary(UParen(t)), k);
    hide AbsExpr, TokExpr, OkExpr, AbsUnary, TokUnary, OkUnary;
  }

  lemma {:induction false} AsCompIs(t: Expr, k: Tokens)
    ensures AbsComp(AsComp(t)) == AbsExpr(t) && (OkExpr(t) ==> OkComp(AsComp(t)))
    ensures TokComp(AsComp(t), k) == Operand(t, 3, k)
  {
    Levels(t, k);
    InParens(t, k);
    OfUnaryIs(UParen(t), k);
    Levels(OfUnary(UParen(t)), k);
    hide AbsExpr, TokExpr, OkExpr, AbsUnary, TokUnary, OkUnary;
  }

  lemma {:induction false} AsConjIs(t: Expr, k: Tokens)
    ensures AbsConj(AsConj(t)) == AbsExpr(t) && (OkExpr(t) ==> OkConj(AsConj(t)))
    ensures TokConj(AsConj(t), k) == Operand(t, 2, k)
  {
    Levels(t, k);
    InParens(t, k);
    OfUnaryIs(UParen(t), k);
    Levels(OfUnary(UParen(t)), k);
    hide AbsExpr, TokExpr, OkExpr, AbsUnary, TokUnary, OkUnary;
  }

  lemma {:induction false} JoinedIs(op: Op, l: Expr, r: Expr, k: Tokens)
    requires Precedence(op) > 0
    ensures var t, q := Joined(op, l, r), Precedence(op);
            && AbsExpr(t) == Bin(op, AbsExpr(l), AbsExpr(r)) && Top(t) == q && (OkExpr(l) && OkExpr(r) ==> OkExpr(t))
            && TokExpr(t, k) == Operand(l, if q == 3 then 4 else q, Tok(Infix(op), Operand(r, q + 1, k)))
  {
    hide Operand, AsUnary, AsProd, AsSum, AbsExpr, TokExpr, OkExpr, AbsUnary, TokUnary, OkUnary;
    var k1 := Tok(Infix(op), Operand(r, Precedence(op) + 1, k));
    if Precedence(op) == 5 {
      AsUnaryIs(r, k);
      AsProdIs(l, k1);
      AddProdIs(AbsUnary(AsProd(l).u), AsProd(l).rest, op, AsUnary(r), k);
      OfProdIs(Prod(AsProd(l).u, AddProd(AsProd(l).rest, op, AsUnary(r))), k);
    } else if Precedence(op) == 4 {
      AsProdIs(r, k);
      AsSumIs(l, k1);
      AddSumIs(AbsProd(AsSum(l).p), AsSum(l).rest, op, AsProd(r), k);
      OfSumIs(Sum(AsSum(l).p, AddSum(AsSum(l).rest, op, AsProd(r))), k);
    } else {
      AsSumIs(r, k);
      AsSumIs(l, k1);
      OfCompIs(CompTwo(AsSum(l), op, AsSum(r)), k);
    }
  }

  lemma {:induction false} ConjoinedIs(l: Expr, r: Expr, k: Tokens)
    ensures var t := Conjoined(l, r);
            && AbsExpr(t) == Both(AbsExpr(l), AbsExpr(r)) && Top(t) == 2 && (OkExpr(l) && OkExpr(r) ==> OkExpr(t))
            && TokExpr(t, k) == Operand(l, 2, Tok(LogAnd, Operand(r, 3, k)))
  {
    hide Operand, AsConj, AsComp;
    AsCompIs(r, k);
    AsConjIs(l, Tok(LogAnd, Operand(r, 3, k)));
    AddConjIs(AbsComp(AsConj(l).c), AsConj(l).rest, AsComp(r), k);
    var t := Conjoined(l, r);
    assert AbsExpr(t) == AbsConj(t.c) && TokExpr(t, k) == TokConj(t.c, k) && (OkExpr(t) <==> OkConj(t.c));
    hide AbsExpr, TokExpr, OkExpr;
  }

  lemma {:induction false} DisjoinedIs(l: Expr, r: Expr, k: Tokens)
    ensures var t := Disjoined(l, r);
            && AbsExpr(t) == Either(AbsExpr(l), AbsExpr(r)) && Top(t) == 1 && (OkExpr(l) && OkExpr(r) ==> OkExpr(t))
            && TokExpr(t, k) == Operand(l, 1, Tok(LogOr, Operand(r, 2, k)))
  {
    hide AsConj;
    AsConjIs(r, k);
    AddDisjIs(AbsConj(l.c), l.rest, AsConj(r), k);
  }

  /** The tree of e is derived by the grammar, means e, and has the tokens of e. */
  lemma {:induction false} TreeIs(e: Exp, k: Tokens)
    requires Writable(e)
    ensures OkExpr(Tree(e)) && AbsExpr(Tree(e)) == e && Top(Tree(e)) == Binding(e)
    ensures TokExpr(Tree(e), k) == Written(e, 1, k)
    decreases e, 1, 0
  {
    hide OkExpr, AbsExpr, TokExpr, Top, Joined, Conjoined, Disjoined, OfUnary, AsUnary;
    match e
    case Ref(x) => OfUnaryIs(UVar(x), k);
    case Lit(n) => OfUnaryIs(UNum(n), k);
    case Negate(e1) =>
      OperandIs(e1, 6, k);
      AsUnaryIs(Tree(e1), k);
      OfUnaryIs(UNeg(AsUnary(Tree(e1))), k);
    case Bin(op, l, r) =>
      var q := Precedence(op);
      OperandIs(r, q + 1, k);
      OperandIs(l, if q == 3 then 4 else q, Tok(Infix(op), Written(r, q + 1, k)));
      JoinedIs(op, Tree(l), Tree(r), k);
    case Both(l, r) =>
      OperandIs(r, 3, k);
      OperandIs(l, 2, Tok(LogAnd, Written(r, 3, k)));
      ConjoinedIs(Tree(l), Tree(r), k);
    case Either(l, r) =>
      OperandIs(r, 2, k);
      OperandIs(l, 1, Tok(LogOr, Written(r, 2, k)));
      DisjoinedIs(Tree(l), Tree(r), k);
    case Apply(f, args) =>
      TreeArgsAre(args, k);
      OfUnaryIs(UCall(f, Tree(args[0]), TreeArgs(args[1..])), k);
  }

  lemma {:induction false} OperandIs(e: Exp, p: nat, k: Tokens)
    requires Writable(e)
    ensures OkExpr(Tree(e)) && AbsExpr(Tree(e)) == e
    ensures Operand(Tree(e), p, k) == Written(e, p, k)
    decreases e, 1, 1
  {
    hide OkExpr, AbsExpr, TokExpr, Top, Tree;
    TreeIs(e, k);
    TreeIs(e, Tok(Rpar, k));
  }

  lemma {:induction false} TreeArgsAre(es: seq<Exp>, k: Tokens)
    requires es != [] && AllWritable(es)
    ensures OkExpr(Tree(es[0])) && OkArgRest(TreeArgs(es[1..]))
    ensures [AbsExpr(Tree(es[0]))] + AbsArgRest(TreeArgs(es[1..])) == es
    ensures TokExpr(Tree(es[0]), TokArgRest(TreeArgs(es[1..]), k)) == WrittenArgs(es, k)
    decreases es, 0, 0
  {
    hide OkExpr, AbsExpr, TokExpr, Top, Tree;
    var rest := es[1..];
    TreeIs(es[0], TokArgRest(TreeArgs(rest), k));
    if rest != [] {
      TreeArgsAre(rest, k);
      assert es == [es[0]] + rest;
    }
  }

  // ----- the results -----

  /** The tokens t in front of k are those of an expression, and it can only mean e. */
  ghost predicate OnlyMeans(t: Tokens, k: Tokens, e: Exp) {
    && (exists tree: Expr :: OkExpr(tree) && TokExpr(tree, k) == t)
    && (forall tree: Expr :: OkExpr(tree) && TokExpr(tree, k) == t ==> AbsExpr(tree) == e)
  }

  lemma {:induction false} OnlyTree(tree: Expr, k: Tokens)
    requires OkExpr(tree) && AfterExpr(k)
    ensures OnlyMeans(TokExpr(tree, k), k, AbsExpr(tree))
  {
    hide OkExpr, AbsExpr, TokExpr, AfterExpr;
    forall other: Expr | OkExpr(other) && TokExpr(other, k) == TokExpr(tree, k)
      ensures AbsExpr(other) == AbsExpr(tree)
    {
      SameExpr(other, k, tree, k);
    }
  }

  /** What is written is read back: it has a derivation, and every derivation means the expression. */
  lemma {:induction false} ReadBack(e: Exp, k: Tokens)
    requires Writable(e) && AfterExpr(k)
    ensures OnlyMeans(Written(e, 1, k), k, e)
  {
    hide OkExpr, AbsExpr, TokExpr, Tree, Written, AfterExpr, OnlyMeans;
    TreeIs(e, k);
    OnlyTree(Tree(e), k);
  }

  // The tokens of x o1 y o2 z.
  function Chain(x: Unary, o1: Token, y: Unary, o2: Token, z: Unary, k: Tokens): Tokens {
    TokUnary(x, Tok(o1, TokUnary(y, Tok(o2, TokUnary(z, k)))))
  }

  lemma {:induction false} RightNested(x: Unary, o1: Op, y: Unary, o2: Op, z: Unary, k: Tokens)
    requires OkUnary(x) && OkUnary(y) && OkUnary(z) && AfterExpr(k) && 0 < Precedence(o1) < Precedence(o2)
    ensures OnlyMeans(Chain(x, Infix(o1), y, Infix(o2), z, k), k,
              Bin(o1, AbsUnary(x), Bin(o2, AbsUnary(y), AbsUnary(z))))
  {
    hide OkExpr, AbsExpr, TokExpr, AfterExpr, OkUnary, AbsUnary, TokUnary, OnlyMeans, OfUnary, Joined, Top;
    var r := Joined(o2, OfUnary(y), OfUnary(z));
    var k2 := Tok(Infix(o2), TokUnary(z, k));
    OfUnaryIs(z, k);
    OfUnaryIs(y, k2);
    OfUnaryIs(x, Tok(Infix(o1), TokUnary(y, k2)));
    JoinedIs(o2, OfUnary(y), OfUnary(z), k);
    JoinedIs(o1, OfUnary(x), r, k);
    OnlyTree(Joined(o1, OfUnary(x), r), k);
  }

  lemma {:induction false} LeftNested(x: Unary, o1: Op, y: Unary, o2: Op, z: Unary, k: Tokens)
    requires OkUnary(x) && OkUnary(y) && OkUnary(z) && AfterExpr(k)
    requires 0 < Precedence(o2) <= Precedence(o1) && Precedence(o1) > 3
    ensures OnlyMeans(Chain(x, Infix(o1), y, Infix(o2), z, k), k,
              Bin(o2, Bin(o1, AbsUnary(x), AbsUnary(y)), AbsUnary(z)))
  {
    hide OkExpr, AbsExpr, TokExpr, AfterExpr, OkUnary, AbsUnary, TokUnary, OnlyMeans, OfUnary, Joined, Top;
    var l := Joined(o1, OfUnary(x), OfUnary(y));
    var k2 := Tok(Infix(o2), TokUnary(z, k));
    OfUnaryIs(z, k);
    OfUnaryIs(y, k2);
    OfUnaryIs(x, Tok(Infix(o1), TokUnary(y, k2)));
    JoinedIs(o1, OfUnary(x), OfUnary(y), k2);
    JoinedIs(o2, l, OfUnary(z), k);
    OnlyTree(Joined(o2, l, OfUnary(z)), k);
  }

  /** The multiplicative operators bind tighter than the additive ones, on both sides. */
  lemma {:induction false} ProdBeforeSum(x: Unary, y: Unary, z: Unary, sum: Op, prod: Op, k: Tokens)
    requires OkUnary(x) && OkUnary(y) && OkUnary(z) && AfterExpr(k)
    requires sum in [Plus, Minus, BOr, BXor] && prod in [Mult, Div, Mod, Shl, Shr, AndNot, BAnd]
    ensures OnlyMeans(Chain(x, Infix(sum), y, Infix(prod), z, k), k,
              Bin(sum, AbsUnary(x), Bin(prod, AbsUnary(y), AbsUnary(z))))
    ensures OnlyMeans(Chain(x, Infix(prod), y, Infix(sum), z, k), k,
              Bin(sum, Bin(prod, AbsUnary(x), AbsUnary(y)), AbsUnary(z)))
  {
    hide OnlyMeans, OkUnary, AbsUnary, Chain, AfterExpr;
    RightNested(x, sum, y, prod, z, k);
    LeftNested(x, prod, y, sum, z, k);
  }

  /** Both bind tighter than the comparisons. */
  lemma {:induction false} ArithmeticBeforeCompare(x: Unary, y: Unary, z: Unary, op: Op, cmp: Op, k: Tokens)
    requires OkUnary(x) && OkUnary(y) && OkUnary(z) && AfterExpr(k)
    requires op in [Plus, Minus, BOr, BXor, Mult, Div, Mod, Shl, Shr, AndNot, BAnd]
    requires cmp in [Eq, Op.Ne, Lt, Op.Le, Gt, Op.Ge]
    ensures OnlyMeans(Chain(x, Infix(cmp), y, Infix(op), z, k), k,
              Bin(cmp, AbsUnary(x), Bin(op, AbsUnary(y), AbsUnary(z))))
    ensures OnlyMeans(Chain(x, Infix(op), y, Infix(cmp), z, k), k,
              Bin(cmp, Bin(op, AbsUnary(x), AbsUnary(y)), AbsUnary(z)))
  {
    hide OnlyMeans, OkUnary, AbsUnary, Chain, AfterExpr;
    RightNested(x, cmp, y, op, z, k);
    LeftNested(x, op, y, cmp, z, k);
  }

  /** Operators of one level associate to the left. */
  lemma {:induction false} LeftToRight(x: Unary, y: Unary, z: Unary, o1: Op, o2: Op, k: Tokens)
    requires OkUnary(x) && OkUnary(y) && OkUnary(z) && AfterExpr(k)
    requires (o1 in [Plus, Minus, BOr, BXor] && o2 in [Plus, Minus, BOr, BXor])
             || (o1 in [Mult, Div, Mod, Shl, Shr, AndNot, BAnd] && o2 in [Mult, Div, Mod, Shl, Shr, AndNot, BAnd])
    ensures OnlyMeans(Chain(x, Infix(o1), y, Infix(o2), z, k), k,
              Bin(o2, Bin(o1, AbsUnary(x), AbsUnary(y)), AbsUnary(z)))
  {
    hide OnlyMeans, OkUnary, AbsUnary, Chain, AfterExpr;
    LeftNested(x, o1, y, o2, z, k);
  }

  lemma {:induction false} WrittenLogic(l: Exp, r: Exp, k: Tokens)
    requires Writable(l) && Writable(r)
    ensures Written(Both(l, r), 1, k) == Written(Both(l, r), 2, k) == Written(l, 2, Tok(LogAnd, Written(r, 3, k)))
    ensures Written(Either(l, r), 1, k) == Written(l, 1, Tok(LogOr, Written(r, 2, k)))
  {
  }

  lemma {:induction false} Tighter(e: Exp, p: nat, k: Tokens)
    requires Writable(e) && p <= 3 <= Binding(e)
    ensures Written(e, p, k) == Written(e, 3, k)
  {
  }

  /** Conjunction binds tighter than disjunction, and both bind looser than a comparison. */
  lemma {:induction false} LogicLast(a: Exp, b: Exp, c: Exp, k: Tokens)
    requires Writable(a) && Writable(b) && Writable(c) && AfterExpr(k)
    requires Binding(a) >= 3 && Binding(b) >= 3 && Binding(c) >= 3
    ensures OnlyMeans(Written(a, 3, Tok(LogOr, Written(b, 3, Tok(LogAnd, Written(c, 3, k))))), k,
              Either(a, Both(b, c)))
    ensures OnlyMeans(Written(a, 3, Tok(LogAnd, Written(b, 3, Tok(LogOr, Written(c, 3, k))))), k,
              Either(Both(a, b), c))
  {
    hide OnlyMeans, AfterExpr, Written;
    var l, r := Either(Both(a, b), c), Either(a, Both(b, c));
    ReadBack(l, k);
    ReadBack(r, k);
    var k1, k2 := Tok(LogOr, Written(c, 3, k)), Tok(LogAnd, Written(c, 3, k));
    WrittenLogic(a, b, k1);
    WrittenLogic(Both(a, b), c, k);
    WrittenLogic(b, c, k);
    WrittenLogic(a, Both(b, c), k);
    Tighter(c, 2, k);
    Tighter(a, 2, Tok(LogAnd, Written(b, 3, k1)));
    Tighter(b, 2, k2);
    Tighter(a, 1, Tok(LogOr, Written(b, 3, k2)));
  }
}
