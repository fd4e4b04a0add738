/**
 The part of the x86-64 machine that the generated code uses: four registers, the
 flags set by a comparison, and the stack. The stack is a sequence that grows at its
 end; `bp` is the number of words below the first local variable, so that rsp equals
 rbp - 8 * (|stack| - bp).
 */
module Machine {
  import opened Words

  type Ident = string

  datatype Option<+T> = None | Some(value: T)

  datatype Reg = Rax | Rbx | Rcx | Rdx

  datatype AluOp = Add | Sub | And | Or | Xor

  datatype Cond = E | Ne | G | Le | Ge | L

  datatype Instr =
    | Zero(r: Reg)                             // xor r, r
    | MovImm(r: Reg, imm: nat)
    | MovReg(r: Reg, src: Reg)
    | Load(r: Reg, off: int)                   // mov r, [rbp+off]
    | Store(off: int, src: Reg)                // mov [rbp+off], r
    | StoreImm(off: int, imm: nat)
    | AluMem(op: AluOp, off: int, src: Reg)    // op [rbp+off], r
    | AluMemImm(op: AluOp, off: int, imm: nat)
    | ImulMem(r: Reg, off: int)                // imul r, [rbp+off]
    | Push(r: Reg)
    | Pop(r: Reg)
    | SubRsp(words: nat)
    | AddRsp(words: nat)
    | Alu(op: AluOp, r: Reg, src: Reg)
    | AluImm(op: AluOp, r: Reg, imm: nat)
    | Neg(r: Reg)
    | Not(r: Reg)
    | Mul(r: Reg)                              // rdx:rax = rax * r
    | Imul(r: Reg)                             // the signed product
    | ImulImm(r: Reg, imm: nat)
    | Cqo
    | Idiv(r: Reg)
    | Xchg(r: Reg, src: Reg)
    | ShiftCl(right: bool, r: Reg)
    | ShiftImm(right: bool, r: Reg, imm: nat)
    | Cmp(r: Reg, src: Reg)
    | CmpImm(r: Reg, imm: nat)
    | OrAl                                     // or al, al
    | Jcc(cond: Cond, lbl: nat)
    | Jmp(lbl: nat)
    | Label(lbl: nat)
    | Call(f: Ident, arity: nat)
    | Raw(mnemonic: string)                    // not an x86 instruction

  datatype Flags = Unset | Compared(zero: bool, less: bool)

  datatype State = State(rax: Word, rbx: Word, rcx: Word, rdx: Word, flags: Flags, stack: seq<Word>, bp: nat) {
    function Get(r: Reg): Word {
      match r
      case Rax => rax
      case Rbx => rbx
      case Rcx => rcx
      case Rdx => rdx
    }

    function Set(r: Reg, w: Word): State {
      match r
      case Rax => this.(rax := w)
      case Rbx => this.(rbx := w)
      case Rcx => this.(rcx := w)
      case Rdx => this.(rdx := w)
    }
  }

  /**
   What the machine code does not determine: the functions that are called, which return a word or trap, and the
   words that a call or a stack reservation leaves behind.
   */
  datatype Env = Env(fn: (Ident, seq<Word>) -> Option<Word>, junk: (Ident, State, nat) -> Word)

  function Junk(env: Env, f: Ident, m: State, from: nat, n: nat): (s: seq<Word>)
    ensures |s| == n
    decreases n
  {
    if n == 0 then [] else Junk(env, f, m, from, n - 1) + [env.junk(f, m, from + n - 1)]
  }

  datatype StepResult = Next(m: State) | Goto(lbl: nat, m: State) | Fault | Wedged

  /** The stack index of the word at [rbp+off], for a frame with bp words below it. */
  function SlotIndex(bp: nat, off: int): int {
    bp - 1 - off / 8
  }

  predicate ValidSlot(m: State, off: int) {
    off % 8 == 0 && 0 <= SlotIndex(m.bp, off) < |m.stack|
  }

  function ReadSlot(m: State, off: int): Word
    requires ValidSlot(m, off)
  {
    m.stack[SlotIndex(m.bp, off)]
  }

  function WriteSlot(m: State, off: int, w: Word): State
    requires ValidSlot(m, off)
  {
    m.(stack := m.stack[SlotIndex(m.bp, off) := w])
  }

  function AluOf(op: AluOp, x: Word, y: Word): Word {
    match op
    case Add => Wrap(x + y)
    case Sub => Wrap(x - y)
    case And => Word64(BitAnd, x, y)
    case Or => Word64(BitOr, x, y)
    case Xor => Word64(BitXor, x, y)
  }

  function Word64(op: BitOp, x: Word, y: Word): Word {
    Pow2Values();
    Bits(op, 64, x, y)
  }

  lemma Word64Commutes(op: BitOp, x: Word, y: Word)
    ensures Word64(op, x, y) == Word64(op, y, x)
  {
    BitsCommute(op, 64, x, y);
  }

  function ShiftLeft(x: Word, n: nat): Word {
    Wrap(x * Pow2(n % 64))
  }

  /** The logical shift: zeros enter from the left. */
  function ShiftRight(x: Word, n: nat): Word
  {
    DivBounds(x, Pow2(n % 64));
    x / Pow2(n % 64)
  }

  function TruncDiv(a: int, b: int): int
    requires b != 0
  {
    if a >= 0 && b > 0 then a / b
    else if a >= 0 then -(a / -b)
    else if b > 0 then -(-a / b)
    else -a / -b
  }

  /** The low half of a product, which does not depend on the signs. */
  function MulLow(x: Word, y: Word): Word { Wrap(x * y) }

  function MulHigh(x: Word, y: Word): Word { Wrap(x * y / WORD) }

  function ImulHigh(x: Word, y: Word): Word { Wrap(Signed(x) * Signed(y) / WORD) }

  function Negated(x: Word): Word { Wrap(0 - x) }

  function Complement(x: Word): Word { WORD - 1 - x }

  // The sign of rax, spread over rdx.
  function SignWord(x: Word): Word { if x < HALF then 0 else WORD - 1 }

  // Shifts by register take their count from cl.
  function Shift(right: bool, x: Word, n: nat): Word {
    if right then ShiftRight(x, n % 256) else ShiftLeft(x, n % 256)
  }

  function AlFlags(x: Word): Flags { Compared(x % 256 == 0, x % 256 >= 128) }

  predicate Holds(c: Cond, f: Flags)
    requires f.Compared?
  {
    match c
    case E => f.zero
    case Ne => !f.zero
    case G => !f.zero && !f.less
    case Le => f.zero || f.less
    case Ge => !f.less
    case L => f.less
  }

  function CmpFlags(x: Word, y: Word): Flags {
    Compared(x == y, Signed(x) < Signed(y))
  }

  // 8 + 8 * i, the frame offset of parameter i counted from 1.
  function ParOffset(i: nat): int { 8 + i * 8 }

  // The frame offset of return slot i, counted from 0, of a function with n parameters.
  function RetOffset(n: nat, i: nat): int { 8 * (n + 2 + i) }

  /** The stack index of [rbp+off] in the callee, whose frame starts two words above the stack of its caller. */
  function CalleeSlot(m: State, off: int): int {
    SlotIndex(|m.stack| + 2, off)
  }

  // What the callee reads as its parameters 1 to n.
  function CalleeArgs(m: State, n: nat): (args: seq<Word>)
    requires n <= |m.stack|
    ensures |args| == n
  {
    if n == 0 then [] else CalleeArgs(m, n - 1) + [m.stack[CalleeSlot(m, ParOffset(n))]]
  }

  // The callee reads its parameters and stores its result through its own frame offsets.
  // It may change its parameters, and no register but rsp and rbp keeps its value.
  function CallStep(env: Env, f: Ident, n: nat, m: State): StepResult {
    var ret := CalleeSlot(m, RetOffset(n, 0));
    if ret < 0 then Wedged
    else
      assert ret == |m.stack| - 1 - n;
      match env.fn(f, CalleeArgs(m, n))
      case None => Fault
      case Some(w) =>
        Next(State(env.junk(f, m, 0), env.junk(f, m, 1), env.junk(f, m, 2), env.junk(f, m, 3), Unset,
                   m.stack[..ret] + [w] + Junk(env, f, m, 4, n), m.bp))
  }

  function StoreStep(m: State, off: int, w: Word): StepResult {
    if ValidSlot(m, off) then Next(WriteSlot(m, off, w)) else Wedged
  }

  function AluMemStep(op: AluOp, m: State, off: int, w: Word): StepResult {
    if ValidSlot(m, off) then Next(WriteSlot(m, off, AluOf(op, ReadSlot(m, off), w)).(flags := Unset)) else Wedged
  }

  function IdivStep(m: State, divisor: int): StepResult {
    var dividend := Signed(m.rdx) * WORD + m.rax;
    if divisor == 0 then Fault
    else
      var q := TruncDiv(dividend, divisor);
      if -HALF <= q < HALF then Next(m.(rax := Wrap(q), rdx := Wrap(dividend - q * divisor), flags := Unset)) else Fault
  }

  function Step(env: Env, i: Instr, m: State): StepResult {
    match i
    case Zero(r) => Next(m.Set(r, 0).(flags := Unset))
    case MovImm(r, n) => Next(m.Set(r, Wrap(n)))
    case MovReg(r, s) => Next(m.Set(r, m.Get(s)))
    case Load(r, off) => if ValidSlot(m, off) then Next(m.Set(r, ReadSlot(m, off))) else Wedged
    case Store(off, s) => StoreStep(m, off, m.Get(s))
    case StoreImm(off, n) => StoreStep(m, off, Wrap(n))
    case AluMem(op, off, s) => AluMemStep(op, m, off, m.Get(s))
    case AluMemImm(op, off, n) => AluMemStep(op, m, off, Wrap(n))
    case ImulMem(r, off) =>
      if ValidSlot(m, off) then Next(m.Set(r, MulLow(m.Get(r), ReadSlot(m, off))).(flags := Unset)) else Wedged
    case Push(r) => Next(m.(stack := m.stack + [m.Get(r)]))
    case Pop(r) =>
      if |m.stack| == 0 then Wedged
      else Next(m.Set(r, m.stack[|m.stack| - 1]).(stack := m.stack[..|m.stack| - 1]))
    case SubRsp(n) => Next(m.(stack := m.stack + Junk(env, "", m, 0, n), flags := Unset))
    case AddRsp(n) => if n <= |m.stack| then Next(m.(stack := m.stack[..|m.stack| - n], flags := Unset)) else Wedged
    case Alu(op, r, s) => Next(m.Set(r, AluOf(op, m.Get(r), m.Get(s))).(flags := Unset))
    case AluImm(op, r, n) => Next(m.Set(r, AluOf(op, m.Get(r), Wrap(n))).(flags := Unset))
    case Neg(r) => Next(m.Set(r, Negated(m.Get(r))).(flags := Unset))
    case Not(r) => Next(m.Set(r, Complement(m.Get(r))))
    case Mul(r) => Next(m.(rax := MulLow(m.rax, m.Get(r)), rdx := MulHigh(m.rax, m.Get(r)), flags := Unset))
    case Imul(r) => Next(m.(rax := MulLow(m.rax, m.Get(r)), rdx := ImulHigh(m.rax, m.Get(r)), flags := Unset))
    case ImulImm(r, n) => Next(m.Set(r, MulLow(m.Get(r), Wrap(n))).(flags := Unset))
    case Cqo => Next(m.(rdx := SignWord(m.rax)))
    case Idiv(r) => IdivStep(m, Signed(m.Get(r)))
    case Xchg(r, s) => Next(m.Set(r, m.Get(s)).Set(s, m.Get(r)))
    case ShiftCl(right, r) => Next(m.Set(r, Shift(right, m.Get(r), m.rcx)).(flags := Unset))
    case ShiftImm(right, r, n) => Next(m.Set(r, Shift(right, m.Get(r), n)).(flags := Unset))
    case Cmp(r, s) => Next(m.(flags := CmpFlags(m.Get(r), m.Get(s))))
    case CmpImm(r, n) => Next(m.(flags := CmpFlags(m.Get(r), Wrap(n))))
    case OrAl => Next(m.(flags := AlFlags(m.rax)))
    case Jcc(c, l) => if m.flags.Unset? then Wedged else if Holds(c, m.flags) then Goto(l, m) else Next(m)
    case Jmp(l) => Goto(l, m)
    case Label(_) => Next(m)
    case Call(f, n) => CallStep(env, f, n, m)
    case Raw(_) => Wedged
  }

  /** The position of the first Label(l) in c, or |c|. */
  function FindLabel(c: seq<Instr>, l: nat): (k: nat)
    ensures k <= |c|
    ensures k < |c| ==> c[k] == Label(l)
    ensures forall j :: 0 <= j < k ==> c[j] != Label(l)
  {
    if c == [] || c[0] == Label(l) then 0 else 1 + FindLabel(c[1..], l)
  }

  /** Fall: ran off the end. Escape: jumped to a label that does not follow in the same code. */
  datatype Outcome = Fall(m: State) | Escape(lbl: nat, m: State) | Trap | Stuck

  /** Runs a code fragment, all of whose jumps go forward. */
  function Exec(env: Env, c: seq<Instr>, m: State): Outcome
    decreases |c|, 0
  {
    if c == [] then Fall(m) else Resume(env, Step(env, c[0], m), c[1..])
  }

  // Goes on with the code after an instruction that had result r.
  function Resume(env: Env, r: StepResult, rest: seq<Instr>): Outcome
    decreases |rest|, 2
  {
    match r
    case Next(m) => Exec(env, rest, m)
    case Goto(l, m) => JumpInto(env, l, m, rest)
    case Fault => Trap
    case Wedged => Stuck
  }

  // Goes on at label l of the code that follows.
  function JumpInto(env: Env, l: nat, m: State, rest: seq<Instr>): Outcome
    decreases |rest|, 1
  {
    var k := FindLabel(rest, l);
    if k < |rest| then Exec(env, rest[k..], m) else Escape(l, m)
  }

  /** Continues with code c after a fragment that ended with outcome o. */
  function Then(env: Env, o: Outcome, c: seq<Instr>): Outcome {
    match o
    case Fall(m) => Exec(env, c, m)
    case Escape(l, m) => JumpInto(env, l, m, c)
    case _ => o
  }

  lemma {:induction false} FindLabelConcat(a: seq<Instr>, b: seq<Instr>, l: nat)
    ensures FindLabel(a + b, l) == if FindLabel(a, l) < |a| then FindLabel(a, l) else |a| + FindLabel(b, l)
  {
    if a == [] {
      assert a + b == b;
    } else {
      assert (a + b)[1..] == a[1..] + b;
      FindLabelConcat(a[1..], b, l);
    }
  }

  // Concatenated code runs one fragment after the other.
  lemma {:induction false} ExecConcat(env: Env, a: seq<Instr>, b: seq<Instr>, m: State)
    ensures Exec(env, a + b, m) == Then(env, Exec(env, a, m), b)
    decreases |a|, 0
  {
    hide Step;
    if a == [] {
      assert a + b == b;
    } else {
      var r := Step(env, a[0], m);
      assert (a + b)[1..] == a[1..] + b;
      if r.Next? {
        ExecConcat(env, a[1..], b, r.m);
      } else if r.Goto? {
        JumpIntoConcat(env, r.lbl, r.m, a[1..], b);
      }
    }
  }

  lemma {:induction false} JumpIntoConcat(env: Env, l: nat, m: State, a: seq<Instr>, b: seq<Instr>)
    ensures JumpInto(env, l, m, a + b) == Then(env, JumpInto(env, l, m, a), b)
    decreases |a|, 1
  {
    hide Step, Resume;
    FindLabelConcat(a, b, l);
    var k := FindLabel(a, l);
    if k < |a| {
      DropPrefix(a, b, k);
      ExecConcat(env, a[k..], b, m);
    } else {
      DropConcat(a, b, FindLabel(b, l));
      hide Exec;
    }
  }

  lemma DropPrefix(a: seq<Instr>, b: seq<Instr>, k: nat)
    requires k <= |a|
    ensures (a + b)[k..] == a[k..] + b
  {
  }

  lemma DropConcat(a: seq<Instr>, b: seq<Instr>, k: nat)
    requires k <= |b|
    ensures (a + b)[|a| + k..] == b[k..]
  {
  }

  // ----- the machine with a program counter -----

  datatype Config = At(pc: nat, m: State) | Trapped | Lost

  /**
   One step of the whole program p; a jump goes to the label wherever it stands in p. The machine is lost when the
   label is nowhere or the instruction has no meaning.
   */
  function PcStep(env: Env, p: seq<Instr>, cf: Config): Config {
    if !cf.At? || cf.pc >= |p| then cf
    else match Step(env, p[cf.pc], cf.m)
      case Next(m') => At(cf.pc + 1, m')
      case Goto(l, m') => if FindLabel(p, l) < |p| then At(FindLabel(p, l), m') else Lost
      case Fault => Trapped
      case Wedged => Lost
  }

  function PcRun(env: Env, p: seq<Instr>, cf: Config, n: nat): Config
    decreases n
  {
    if n == 0 then cf else PcRun(env, p, PcStep(env, p, cf), n - 1)
  }

  /** No label is defined twice. */
  ghost predicate UniqueLabels(c: seq<Instr>) {
    forall i, j :: 0 <= i < j < |c| && c[i].Label? && c[j].Label? ==> c[i].lbl != c[j].lbl
  }

  lemma GlobalLabel(p: seq<Instr>, k: nat, l: nat)
    requires UniqueLabels(p) && k <= |p|
    requires FindLabel(p[k..], l) < |p| - k
    ensures FindLabel(p, l) == k + FindLabel(p[k..], l)
    ensures p[k..][FindLabel(p[k..], l)..] == p[FindLabel(p, l)..]
  {
    var j := k + FindLabel(p[k..], l);
    assert p[j] == Label(l);
    var i := FindLabel(p, l);
    assert i <= j;
  }

  lemma PcRunMore(env: Env, p: seq<Instr>, cf: Config, n: nat)
    ensures PcRun(env, p, cf, n + 1) == PcRun(env, p, PcStep(env, p, cf), n)
  {
  }

  // Where the machine stands after the instruction at k, which does not end the run.
  lemma PcFollows(env: Env, p: seq<Instr>, k: nat, m: State) returns (next: nat, m1: State)
    requires UniqueLabels(p) && k < |p|
    requires Exec(env, p[k..], m).Fall? || (Exec(env, p[k..], m).Trap? && !Step(env, p[k], m).Fault?)
    ensures k < next <= |p|
    ensures PcStep(env, p, At(k, m)) == At(next, m1)
    ensures Exec(env, p[next..], m1) == Exec(env, p[k..], m)
  {
    hide Step, Exec, UniqueLabels;
    var r := Step(env, p[k], m);
    ExecResumes(env, p, k, m);
    if r.Next? {
      return k + 1, r.m;
    }
    assert Exec(env, p[k..], m) == JumpInto(env, r.lbl, r.m, p[k + 1..]);
    GlobalLabel(p, k + 1, r.lbl);
    next, m1 := FindLabel(p, r.lbl), r.m;
  }

  lemma ExecResumes(env: Env, p: seq<Instr>, k: nat, m: State)
    requires k < |p|
    ensures Exec(env, p[k..], m) == Resume(env, Step(env, p[k], m), p[k + 1..])
  {
    hide Step;
    assert p[k..][0] == p[k];
    assert p[k..][1..] == p[k + 1..];
  }

  // Running fragments with forward jumps is running the program counter machine:
  // n steps from position k reach the end of the program in the same state.
  lemma {:induction false} ExecIsPcRun(env: Env, p: seq<Instr>, k: nat, m: State, m': State) returns (n: nat)
    requires UniqueLabels(p) && k <= |p|
    requires Exec(env, p[k..], m) == Fall(m')
    ensures PcRun(env, p, At(k, m), n) == At(|p|, m')
    decreases |p| - k
  {
    hide Step;
    if k == |p| {
      n := 0;
    } else {
      var next, m1 := PcFollows(env, p, k, m);
      n := ExecIsPcRun(env, p, next, m1, m');
      PcRunMore(env, p, At(k, m), n);
      n := n + 1;
    }
  }

  // A run that traps also traps the machine with a program counter.
  lemma {:induction false} TrapIsPcTrap(env: Env, p: seq<Instr>, k: nat, m: State) returns (n: nat)
    requires UniqueLabels(p) && k <= |p|
    requires Exec(env, p[k..], m) == Trap
    ensures PcRun(env, p, At(k, m), n) == Trapped
    decreases |p| - k
  {
    hide Step;
    if Step(env, p[k], m).Fault? {
      assert PcStep(env, p, At(k, m)) == Trapped;
      assert PcRun(env, p, Trapped, 0) == Trapped;
      PcRunMore(env, p, At(k, m), 0);
      n := 1;
    } else {
      var next, m1 := PcFollows(env, p, k, m);
      n := TrapIsPcTrap(env, p, next, m1);
      PcRunMore(env, p, At(k, m), n);
      n := n + 1;
    }
  }
}
