/** The instruction sequences for the operators, run on the machine. */
module OpCode {
  import opened Words
  import opened Machine
  import opened Source
  import opened Codegen

  // ----- running short sequences -----

  lemma Last(env: Env, a: Instr, m: State, r: StepResult)
    requires Step(env, a, m) == r
    ensures Exec(env, [a], m) ==
            match r case Next(m') => Fall(m') case Goto(l, m') => Escape(l, m') case Fault => Trap case Wedged => Stuck
  {
    hide Step;
    assert [a][1..] == [];
    assert Exec(env, [a], m) == Resume(env, r, []);
    if r.Next? {
      assert Exec(env, [], r.m) == Fall(r.m);
    }
  }

  lemma First(env: Env, a: Instr, rest: seq<Instr>, m: State, m1: State)
    requires Step(env, a, m) == Next(m1)
    ensures Exec(env, [a] + rest, m) == Exec(env, rest, m1)
  {
    hide Step;
    assert ([a] + rest)[1..] == rest;
  }

  lemma Chain1(env: Env, a: Instr, m: State, m1: State)
    requires Step(env, a, m) == Next(m1)
    ensures Exec(env, [a], m) == Fall(m1)
  {
    Last(env, a, m, Next(m1));
  }

  lemma Chain2(env: Env, a: Instr, b: Instr, m: State, m1: State, m2: State)
    requires Step(env, a, m) == Next(m1) && Step(env, b, m1) == Next(m2)
    ensures Exec(env, [a, b], m) == Fall(m2)
  {
    hide Step, Exec;
    First(env, a, [b], m, m1);
    Chain1(env, b, m1, m2);
    assert [a, b] == [a] + [b];
  }

  lemma Chain3(env: Env, a: Instr, b: Instr, c: Instr, m: State, m1: State, m2: State, m3: State)
    requires Step(env, a, m) == Next(m1) && Step(env, b, m1) == Next(m2) && Step(env, c, m2) == Next(m3)
    ensures Exec(env, [a, b, c], m) == Fall(m3)
  {
    hide Step, Exec;
    First(env, a, [b, c], m, m1);
    Chain2(env, b, c, m1, m2, m3);
    assert [a, b, c] == [a] + [b, c];
  }

  // The last word of the stack goes to register r.
  function Popped(m: State, r: Reg): State
    requires |m.stack| >= 1
  {
    m.Set(r, m.stack[|m.stack| - 1]).(stack := m.stack[..|m.stack| - 1])
  }

  // The result of an operator in rax.
  function Computed(m: State, w: Word): State {
    m.(rax := w, flags := Unset)
  }

  // Single steps of the instructions that the longer sequences use.
  lemma StepPop(env: Env, r: Reg, m: State)
    requires |m.stack| >= 1
    ensures Step(env, Pop(r), m) == Next(Popped(m, r))
  {
  }

  lemma StepAlu(env: Env, op: AluOp, m: State)
    ensures Step(env, Alu(op, Rax, Rcx), m) == Next(Computed(m, AluOf(op, m.rax, m.rcx)))
  {
  }

  lemma StepAluImm(env: Env, op: AluOp, n: nat, m: State)
    ensures Step(env, AluImm(op, Rax, n), m) == Next(Computed(m, AluOf(op, m.rax, Wrap(n))))
  {
  }

  lemma StepNeg(env: Env, m: State)
    ensures Step(env, Instr.Neg(Rax), m) == Next(Computed(m, Negated(m.rax)))
  {
  }

  lemma StepNot(env: Env, m: State)
    ensures Step(env, Instr.Not(Rax), m) == Next(m.(rax := Complement(m.rax)))
  {
  }

  lemma StepMovImm(env: Env, r: Reg, n: nat, m: State)
    ensures Step(env, MovImm(r, n), m) == Next(m.Set(r, Wrap(n)))
  {
  }

  lemma StepXchg(env: Env, r: Reg, m: State)
    ensures Step(env, Xchg(Rax, r), m) == Next(m.Set(Rax, m.Get(r)).Set(r, m.rax))
  {
  }

  lemma StepCqo(env: Env, m: State)
    ensures Step(env, Cqo, m) == Next(m.(rdx := SignWord(m.rax)))
  {
  }

  lemma Landed(env: Env, c: seq<Instr>, op: Op, m: State, w: Word, m': State)
    requires OpWord(op, m.rax, w) == Some(m'.rax) && m'.stack == m.stack && m'.bp == m.bp
    requires Exec(env, c, m) == Fall(m')
    ensures Replaces(Exec(env, c, m), OpWord(op, m.rax, w), m, 0)
  {
    hide Exec, OpWord;
    assert m.stack[..|m.stack| - 0] == m.stack;
  }

  // ----- division -----

  lemma CqoDividend(a: Word)
    ensures Signed(SignWord(a)) * WORD + a == Signed(a)
  {
  }

  lemma TruncDivBound(a: int, b: int)
    requires -HALF <= a < HALF && b != 0
    ensures -HALF <= TruncDiv(a, b) <= HALF
  {
    DivBounds(if a < 0 then -a else a, if b < 0 then -b else b);
  }

  // After cqo, idiv computes the signed quotient and remainder, or traps.
  lemma IdivAfterCqo(m: State, b: Word)
    requires m.rdx == SignWord(m.rax)
    ensures match DivWord(m.rax, b)
            case None => IdivStep(m, Signed(b)) == Fault && ModWord(m.rax, b) == None
            case Some(q) =>
              var r := IdivStep(m, Signed(b));
              r.Next? && r.m.rax == q && Some(r.m.rdx) == ModWord(m.rax, b) && r.m.stack == m.stack && r.m.bp == m.bp
  {
    CqoDividend(m.rax);
    if b != 0 {
      TruncDivBound(Signed(m.rax), Signed(b));
    }
  }

  function DivOp(mod: bool, inverse: bool): Op {
    if inverse then (if mod then InvMod else InvDiv) else if mod then Mod else Op.Div
  }

  // idiv by register r, and for a remainder the move from rdx.
  function IdivTail(r: Reg, mod: bool): seq<Instr> {
    if mod then [Idiv(r)] + [MovReg(Rax, Rdx)] else [Idiv(r)]
  }

  lemma IdivTailRuns(env: Env, r: Reg, mod: bool, m: State)
    requires m.rdx == SignWord(m.rax) && (r.Rcx? || r.Rbx?)
    ensures Replaces(Exec(env, IdivTail(r, mod), m), OpWord(DivOp(mod, false), m.rax, m.Get(r)), m, 0)
  {
    IdivAfterCqo(m, m.Get(r));
    var s := IdivStep(m, Signed(m.Get(r)));
    assert Step(env, Idiv(r), m) == s;
    assert s.Next? ==> Step(env, MovReg(Rax, Rdx), s.m) == Next(s.m.(rax := s.m.rdx));
    assert OpWord(DivOp(mod, false), m.rax, m.Get(r)) ==
      if mod then ModWord(m.rax, m.Get(r)) else DivWord(m.rax, m.Get(r));
    assert m.stack[..|m.stack| - 0] == m.stack;
    hide Step, Exec, OpWord, IdivStep, DivWord, ModWord;
    Last(env, Idiv(r), m, s);
    if mod {
      ExecConcat(env, [Idiv(r)], [MovReg(Rax, Rdx)], m);
      if s.Next? {
        Chain1(env, MovReg(Rax, Rdx), s.m, s.m.(rax := s.m.rdx));
      }
    }
  }

  // A prefix that puts the operands and the sign word in place, and then idiv.
  lemma DivAfter(env: Env, prefix: seq<Instr>, r: Reg, mod: bool, m: State, m1: State, a: Word, b: Word, drop: nat)
    requires Exec(env, prefix, m) == Fall(m1)
    requires m1.rax == a && m1.Get(r) == b && m1.rdx == SignWord(a) && (r.Rcx? || r.Rbx?)
    requires drop <= |m.stack| && m1.stack == m.stack[..|m.stack| - drop] && m1.bp == m.bp
    ensures Replaces(Exec(env, prefix + IdivTail(r, mod), m), OpWord(DivOp(mod, false), a, b), m, drop)
  {
    hide Exec, OpWord, IdivTail;
    ExecConcat(env, prefix, IdivTail(r, mod), m);
    IdivTailRuns(env, r, mod, m1);
    assert m1.stack[..|m1.stack| - 0] == m1.stack;
  }

  lemma DivCode(mod: bool)
    ensures AppliesNosTos([Pop(Rcx), Xchg(Rax, Rcx), Cqo] + IdivTail(Rcx, mod), DivOp(mod, false))
  {
    hide Exec, OpWord, IdivTail, Step;
    var c := [Pop(Rcx), Xchg(Rax, Rcx), Cqo];
    forall env: Env, m: State | |m.stack| >= 1
      ensures Replaces(Exec(env, c + IdivTail(Rcx, mod), m), OpWord(DivOp(mod, false), m.stack[|m.stack| - 1], m.rax),
              m, 1)
    {
      var m1 := Popped(m, Rcx);
      var m2 := m1.(rax := m1.rcx, rcx := m1.rax);
      var m3 := m2.(rdx := SignWord(m2.rax));
      StepPop(env, Rcx, m);
      StepXchg(env, Rcx, m1);
      StepCqo(env, m2);
      Chain3(env, Pop(Rcx), Xchg(Rax, Rcx), Cqo, m, m1, m2, m3);
      DivAfter(env, c, Rcx, mod, m, m3, m3.rax, m3.rcx, 1);
    }
  }

  // EmitOpIntConst sign-extends before it loads the divisor when the operator is /, and after when it is %.
  lemma DivConstCode(mod: bool, n: nat)
    ensures AppliesConst((if mod then [MovImm(Rbx, n), Cqo] else [Cqo, MovImm(Rbx, n)]) + IdivTail(Rbx, mod),
            DivOp(mod, false), n)
  {
    hide Exec, OpWord, IdivTail, Step;
    var c := if mod then [MovImm(Rbx, n), Cqo] else [Cqo, MovImm(Rbx, n)];
    forall env: Env, m: State
      ensures Replaces(Exec(env, c + IdivTail(Rbx, mod), m), OpWord(DivOp(mod, false), m.rax, Wrap(n)), m, 0)
    {
      var m1, m2 := m.(rbx := Wrap(n)), m.(rdx := SignWord(m.rax));
      var m3 := m1.(rdx := SignWord(m.rax));
      StepMovImm(env, Rbx, n, m);
      StepMovImm(env, Rbx, n, m2);
      StepCqo(env, m);
      StepCqo(env, m1);
      if mod {
        Chain2(env, MovImm(Rbx, n), Cqo, m, m1, m3);
      } else {
        Chain2(env, Cqo, MovImm(Rbx, n), m, m2, m3);
      }
      assert m.stack[..|m.stack| - 0] == m.stack;
      DivAfter(env, c, Rbx, mod, m, m3, m.rax, Wrap(n), 0);
    }
  }

  // A constant dividend is exchanged into rax.
  lemma DivInverseCode(mod: bool, n: nat)
    ensures AppliesConst([MovImm(Rbx, n), Xchg(Rax, Rbx), Cqo] + IdivTail(Rbx, mod), DivOp(mod, true), n)
  {
    hide Exec, IdivTail, Step;
    var c := [MovImm(Rbx, n), Xchg(Rax, Rbx), Cqo];
    forall env: Env, m: State
      ensures Replaces(Exec(env, c + IdivTail(Rbx, mod), m), OpWord(DivOp(mod, true), m.rax, Wrap(n)), m, 0)
    {
      var m1, m2 := m.(rbx := Wrap(n)), m.(rax := Wrap(n), rbx := m.rax);
      var m3 := m2.(rdx := SignWord(m2.rax));
      assert OpWord(DivOp(mod, true), m.rax, Wrap(n)) == OpWord(DivOp(mod, false), Wrap(n), m.rax);
      hide OpWord;
      StepMovImm(env, Rbx, n, m);
      StepXchg(env, Rbx, m1);
      StepCqo(env, m2);
      Chain3(env, MovImm(Rbx, n), Xchg(Rax, Rbx), Cqo, m, m1, m2, m3);
      assert m.stack[..|m.stack| - 0] == m.stack;
      DivAfter(env, c, Rbx, mod, m, m3, Wrap(n), m.rax, 0);
    }
  }

  // ----- the other operators, on two stack entries -----

  predicate IsAlu(op: Op) { op.Plus? || op.BAnd? || op.BOr? || op.BXor? }

  function AluFor(op: Op): AluOp
    requires IsAlu(op)
  {
    match op
    case Plus => Add
    case BAnd => And
    case BOr => Or
    case BXor => Xor
  }

  lemma AluIsOp(op: Op, a: Word, b: Word)
    requires IsAlu(op)
    ensures OpWord(op, a, b) == Some(AluOf(AluFor(op), a, b)) == Some(AluOf(AluFor(op), b, a))
  {
    hide Word64;
    Word64Commutes(BitAnd, a, b);
    Word64Commutes(BitOr, a, b);
    Word64Commutes(BitXor, a, b);
  }

  lemma AluCode(op: Op)
    requires IsAlu(op)
    ensures AppliesNosTos([Pop(Rcx), Alu(AluFor(op), Rax, Rcx)], op)
  {
    hide Exec, OpWord, AluOf, AluFor;
    forall env: Env, m: State | |m.stack| >= 1
      ensures Replaces(Exec(env, [Pop(Rcx), Alu(AluFor(op), Rax, Rcx)], m), OpWord(op, m.stack[|m.stack| - 1], m.rax),
              m, 1)
    {
      var m1 := Popped(m, Rcx);
      AluIsOp(op, m1.rcx, m1.rax);
      Chain2(env, Pop(Rcx), Alu(AluFor(op), Rax, Rcx), m, m1, Computed(m1, AluOf(AluFor(op), m1.rax, m1.rcx)));
    }
  }

  lemma MinusCode()
    ensures AppliesNosTos([Pop(Rcx), Alu(Sub, Rax, Rcx), Instr.Neg(Rax)], Minus)
  {
    hide Exec, Step;
    forall env: Env, m: State | |m.stack| >= 1
      ensures Replaces(Exec(env, [Pop(Rcx), Alu(Sub, Rax, Rcx), Instr.Neg(Rax)], m),
              OpWord(Minus, m.stack[|m.stack| - 1], m.rax), m, 1)
    {
      var m1 := Popped(m, Rcx);
      var m2 := Computed(m1, Wrap(m1.rax - m1.rcx));
      assert OpWord(Minus, m1.rcx, m1.rax) == Some(Negated(m2.rax));
      hide OpWord;
      StepPop(env, Rcx, m);
      StepAlu(env, Sub, m1);
      StepNeg(env, m2);
      Chain3(env, Pop(Rcx), Alu(Sub, Rax, Rcx), Instr.Neg(Rax), m, m1, m2, Computed(m2, Negated(m2.rax)));
    }
  }

  lemma AndNotCode()
    ensures AppliesNosTos([Pop(Rcx), Instr.Not(Rax), Alu(And, Rax, Rcx)], AndNot)
  {
    hide Exec, Word64, Step;
    forall env: Env, m: State | |m.stack| >= 1
      ensures Replaces(Exec(env, [Pop(Rcx), Instr.Not(Rax), Alu(And, Rax, Rcx)], m),
              OpWord(AndNot, m.stack[|m.stack| - 1], m.rax), m, 1)
    {
      var m1 := Popped(m, Rcx);
      var m2 := m1.(rax := Complement(m1.rax));
      Word64Commutes(BitAnd, m1.rcx, m2.rax);
      assert OpWord(AndNot, m1.rcx, m1.rax) == Some(Word64(BitAnd, m2.rax, m2.rcx));
      hide OpWord;
      StepPop(env, Rcx, m);
      StepNot(env, m1);
      StepAlu(env, And, m2);
      Chain3(env, Pop(Rcx), Instr.Not(Rax), Alu(And, Rax, Rcx), m, m1, m2,
        Computed(m2, Word64(BitAnd, m2.rax, m2.rcx)));
    }
  }

  lemma MulCommutes(x: Word, y: Word)
    ensures MulLow(x, y) == MulLow(y, x)
  {
  }

  lemma MultCode()
    ensures AppliesNosTos([Pop(Rcx), Mul(Rcx)], Mult)
  {
    hide Exec, MulLow, MulHigh;
    forall env: Env, m: State | |m.stack| >= 1
      ensures Replaces(Exec(env, [Pop(Rcx), Mul(Rcx)], m), OpWord(Mult, m.stack[|m.stack| - 1], m.rax), m, 1)
    {
      var m1 := Popped(m, Rcx);
      MulCommutes(m1.rcx, m1.rax);
      assert OpWord(Mult, m1.rcx, m1.rax) == Some(MulLow(m1.rax, m1.rcx));
      hide OpWord;
      Chain2(env, Pop(Rcx), Mul(Rcx), m, m1, Computed(m1, MulLow(m1.rax, m1.rcx)).(rdx := MulHigh(m1.rax, m1.rcx)));
    }
  }

  function ShiftOp(right: bool): Op { if right then Shr else Shl }

  // A count in cl is taken modulo 256 and then modulo 64.
  lemma ShiftIsOp(right: bool, a: Word, n: Word)
    ensures OpWord(ShiftOp(right), a, n) == Some(Shift(right, a, n))
    ensures OpWord(if right then InvShr else InvShl, n, a) == Some(Shift(right, a, n))
  {
    assert (n % 256) % 64 == n % 64;
    hide Pow2;
  }

  lemma ShiftCode(right: bool)
    ensures AppliesNosTos([MovReg(Rcx, Rax), Pop(Rax), ShiftCl(right, Rax)], ShiftOp(right))
  {
    hide Exec, OpWord, Shift;
    forall env: Env, m: State | |m.stack| >= 1
      ensures Replaces(Exec(env, [MovReg(Rcx, Rax), Pop(Rax), ShiftCl(right, Rax)], m),
              OpWord(ShiftOp(right), m.stack[|m.stack| - 1], m.rax), m, 1)
    {
      var m1 := m.(rcx := m.rax);
      var m2 := Popped(m1, Rax);
      ShiftIsOp(right, m2.rax, m2.rcx);
      Chain3(env, MovReg(Rcx, Rax), Pop(Rax), ShiftCl(right, Rax), m, m1, m2,
        Computed(m2, Shift(right, m2.rax, m2.rcx)));
    }
  }

  // ----- the other operators, with a constant -----

  lemma AluConstCode(op: Op, n: nat)
    requires IsAlu(op)
    ensures AppliesConst([AluImm(AluFor(op), Rax, n)], op, n)
  {
    hide Exec, OpWord, AluOf, AluFor;
    forall env: Env, m: State
      ensures Replaces(Exec(env, [AluImm(AluFor(op), Rax, n)], m), OpWord(op, m.rax, Wrap(n)), m, 0)
    {
      var m1 := Computed(m, AluOf(AluFor(op), m.rax, Wrap(n)));
      AluIsOp(op, m.rax, Wrap(n));
      Chain1(env, AluImm(AluFor(op), Rax, n), m, m1);
      Landed(env, [AluImm(AluFor(op), Rax, n)], op, m, Wrap(n), m1);
    }
  }

  lemma MinusConstCode(n: nat)
    ensures AppliesConst([AluImm(Sub, Rax, n)], Minus, n)
  {
    hide Exec;
    forall env: Env, m: State
      ensures Replaces(Exec(env, [AluImm(Sub, Rax, n)], m), OpWord(Minus, m.rax, Wrap(n)), m, 0)
    {
      var m1 := Computed(m, Wrap(m.rax - Wrap(n)));
      Chain1(env, AluImm(Sub, Rax, n), m, m1);
      Landed(env, [AluImm(Sub, Rax, n)], Minus, m, Wrap(n), m1);
    }
  }

  lemma InverseMinus(a: Word, b: Word)
    ensures OpWord(InvMinus, a, b) == Some(Negated(Wrap(a - b)))
  {
    hide Pow2, Word64, DivWord, ModWord;
  }

  lemma MinusInverseCode(n: nat)
    ensures AppliesConst([AluImm(Sub, Rax, n), Instr.Neg(Rax)], InvMinus, n)
  {
    hide Exec, Step;
    forall env: Env, m: State
      ensures Replaces(Exec(env, [AluImm(Sub, Rax, n), Instr.Neg(Rax)], m), OpWord(InvMinus, m.rax, Wrap(n)), m, 0)
    {
      var m1 := Computed(m, Wrap(m.rax - Wrap(n)));
      var m2 := Computed(m1, Negated(m1.rax));
      InverseMinus(m.rax, Wrap(n));
      hide OpWord, Wrap, Negated;
      StepAluImm(env, Sub, n, m);
      StepNeg(env, m1);
      Chain2(env, AluImm(Sub, Rax, n), Instr.Neg(Rax), m, m1, m2);
      Landed(env, [AluImm(Sub, Rax, n), Instr.Neg(Rax)], InvMinus, m, Wrap(n), m2);
    }
  }

  // `x &^ n` with a constant: the mnemonic of the operator table is not an instruction.
  lemma AndNotConstStuck(env: Env, m: State)
    ensures Exec(env, [Raw("andnot")], m) == Stuck
  {
    Last(env, Raw("andnot"), m, Wedged);
  }

  lemma MultConstCode(n: nat)
    ensures AppliesConst([ImulImm(Rax, n)], Mult, n)
  {
    hide Exec, MulLow;
    forall env: Env, m: State
      ensures Replaces(Exec(env, [ImulImm(Rax, n)], m), OpWord(Mult, m.rax, Wrap(n)), m, 0)
    {
      var m1 := Computed(m, MulLow(m.rax, Wrap(n)));
      Chain1(env, ImulImm(Rax, n), m, m1);
      Landed(env, [ImulImm(Rax, n)], Mult, m, Wrap(n), m1);
    }
  }

  lemma ShiftConstCode(right: bool, n: nat)
    requires n <= MAX_LIT
    ensures AppliesConst([ShiftImm(right, Rax, n)], ShiftOp(right), n)
  {
    hide Exec, OpWord, Shift;
    forall env: Env, m: State
      ensures Replaces(Exec(env, [ShiftImm(right, Rax, n)], m), OpWord(ShiftOp(right), m.rax, Wrap(n)), m, 0)
    {
      var m1 := Computed(m, Shift(right, m.rax, n));
      assert Wrap(n) == n;
      ShiftIsOp(right, m.rax, n);
      Chain1(env, ShiftImm(right, Rax, n), m, m1);
      Landed(env, [ShiftImm(right, Rax, n)], ShiftOp(right), m, Wrap(n), m1);
    }
  }

  lemma ShiftInverseCode(right: bool, n: nat)
    ensures AppliesConst([MovReg(Rcx, Rax), MovImm(Rax, n), ShiftCl(right, Rax)], if right then InvShr else InvShl, n)
  {
    hide Exec, OpWord, Shift;
    var c := [MovReg(Rcx, Rax), MovImm(Rax, n), ShiftCl(right, Rax)];
    forall env: Env, m: State
      ensures Replaces(Exec(env, c, m), OpWord(if right then InvShr else InvShl, m.rax, Wrap(n)), m, 0)
    {
      var m1 := m.(rcx := m.rax);
      var m2 := m1.(rax := Wrap(n));
      var m3 := Computed(m2, Shift(right, Wrap(n), m.rax));
      ShiftIsOp(right, Wrap(n), m.rax);
      Chain3(env, MovReg(Rcx, Rax), MovImm(Rax, n), ShiftCl(right, Rax), m, m1, m2, m3);
      Landed(env, c, if right then InvShr else InvShl, m, Wrap(n), m3);
    }
  }

  // ----- comparisons -----

  function CondOf(op: Op): Cond
    requires op.IsCompare()
  {
    match op
    case Eq => E
    case Ne => Cond.Ne
    case Gt => G
    case Le => Cond.Le
    case Ge => Cond.Ge
    case Lt => L
  }

  lemma CondMeans(op: Op, x: Word, y: Word)
    requires op.IsCompare()
    ensures OpWord(op, x, y) == Some(Truth(Holds(CondOf(op), CmpFlags(x, y))))
  {
    WrapSigned(x);
    WrapSigned(y);
  }

  // The code of EmitJumpCond.
  function JumpCond(c: Cond, l: nat): seq<Instr> {
    [MovImm(Rax, 1)] + ([Jcc(c, l)] + [MovImm(Rax, 0), Label(l)])
  }

  lemma JumpCondRuns(env: Env, c: Cond, l: nat, m: State)
    requires m.flags.Compared?
    ensures Exec(env, JumpCond(c, l), m) == Fall(m.(rax := Truth(Holds(c, m.flags))))
  {
    var m1 := m.(rax := 1);
    var m0 := m.(rax := 0);
    var taken := Holds(c, m.flags);
    JumpTaken(env, c, l, m1);
    JumpSkips(env, l, m1);
    hide Step, Exec, Holds;
    var rest := [MovImm(Rax, 0), Label(l)];
    StepMovImm(env, Rax, 1, m);
    First(env, MovImm(Rax, 1), [Jcc(c, l)] + rest, m, m1);
    ExecConcat(env, [Jcc(c, l)], rest, m1);
    Last(env, Jcc(c, l), m1, if taken then Goto(l, m1) else Next(m1));
  }

  lemma JumpTaken(env: Env, c: Cond, l: nat, m: State)
    requires m.flags.Compared?
    ensures Step(env, Jcc(c, l), m) == if Holds(c, m.flags) then Goto(l, m) else Next(m)
  {
  }

  lemma JumpSkips(env: Env, l: nat, m: State)
    ensures Exec(env, [MovImm(Rax, 0), Label(l)], m) == Fall(m.(rax := 0))
    ensures JumpInto(env, l, m, [MovImm(Rax, 0), Label(l)]) == Fall(m)
  {
    var rest := [MovImm(Rax, 0), Label(l)];
    var m0 := m.(rax := 0);
    Chain2(env, MovImm(Rax, 0), Label(l), m, m0, m0);
    Chain1(env, Label(l), m, m);
    hide Step, Exec;
    assert rest[0] != Label(l) && rest[1] == Label(l) && rest[1..] == [Label(l)];
    assert FindLabel(rest, l) == 1;
  }

  lemma CompareCode(op: Op, l: nat)
    requires op.IsCompare()
    ensures AppliesNosTos([Pop(Rbx), Cmp(Rbx, Rax)] + JumpCond(CondOf(op), l), op)
  {
    hide Exec, OpWord, JumpCond, Holds, CondOf;
    var c := [Pop(Rbx), Cmp(Rbx, Rax)];
    forall env: Env, m: State | |m.stack| >= 1
      ensures Replaces(Exec(env, c + JumpCond(CondOf(op), l), m), OpWord(op, m.stack[|m.stack| - 1], m.rax), m, 1)
    {
      var m1 := Popped(m, Rbx);
      var m2 := m1.(flags := CmpFlags(m1.rbx, m1.rax));
      ExecConcat(env, c, JumpCond(CondOf(op), l), m);
      Chain2(env, Pop(Rbx), Cmp(Rbx, Rax), m, m1, m2);
      JumpCondRuns(env, CondOf(op), l, m2);
      CondMeans(op, m1.rbx, m1.rax);
    }
  }

  lemma CompareConstCode(op: Op, n: nat, l: nat)
    requires op.IsCompare()
    ensures AppliesConst([CmpImm(Rax, n)] + JumpCond(CondOf(op), l), op, n)
  {
    hide Exec, OpWord, JumpCond, Holds, CondOf;
    forall env: Env, m: State
      ensures Replaces(Exec(env, [CmpImm(Rax, n)] + JumpCond(CondOf(op), l), m), OpWord(op, m.rax, Wrap(n)), m, 0)
    {
      var m1 := m.(flags := CmpFlags(m.rax, Wrap(n)));
      ExecConcat(env, [CmpImm(Rax, n)], JumpCond(CondOf(op), l), m);
      Chain1(env, CmpImm(Rax, n), m, m1);
      JumpCondRuns(env, CondOf(op), l, m1);
      CondMeans(op, m.rax, Wrap(n));
      Landed(env, [CmpImm(Rax, n)] + JumpCond(CondOf(op), l), op, m, Wrap(n),
        m1.(rax := Truth(Holds(CondOf(op), m1.flags))));
    }
  }
}
