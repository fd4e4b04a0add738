# Verification of the JKV compiler

This project models the parts of the JKV compiler and its runtime library in which a mistake would silently give a
wrong program, and proves what they are meant to do. It has five components.

**Code generation** (`Words`, `Machine`, `Source`, `Operators`, `Codegen`, `OpCode`, `Pieces`, `Grammar`, `Calls`,
`ShortCircuit`, `Statements`, `Flow`, `Linked`, `Compiler`). The compiler makes one pass over the tokens and emits x86-64
instructions. The top of the evaluation stack is either in memory, in rax, or not known (`Cache`), and the emitted
text is kept in a stack of fragments that are joined forwards, or backwards for arguments. `Compiler.Generator` is a
class with the compiler's own state: the tokens, `argCode`, `out`, `state`, `localSp`, `labelNo` and the variables.
Its methods are the parse and emit functions. `Machine` runs the emitted instructions, `Source.Eval` and
`Statements.Run` give the meaning of the source, and the contracts of the parse methods say that the two agree:
`Generates` for expressions, `Finished` for statements. A parse method succeeds exactly when the type rules
(`Source.Static`, `Statements.Place`) accept the tree. `Grammar` says which tree that is: tokens have at most one, and
an expression written with the parentheses its operators need is read back as itself. `Operators` says what the
operators compute, bit by bit and as signed numbers. `Flow.CodeRuns` carries the result over to whole runs of a
machine with a program counter and jumps to labels.

The machine has 64-bit wrap-around, signed truncating division that traps on zero and on overflow, logical right
shifts, and shift counts modulo 64. Called functions are arbitrary functions of their arguments, which may trap; a
call leaves arbitrary words in all registers and in the words of its arguments. That this describes generated
callees is a theorem too: `ParseValueBody`, `Flow.FuncRuns` and `Flow.CallDescribed` for one function, and
`Linked.LinkedCodeRuns` for a library of functions that call earlier ones: the machine that runs the code of the
callees computes what the source means when every function symbol stands for its body. `Fragment` and `InFragment`
say for which programs the results hold: I64 variables, literals and folded results from 0 to 2^31 - 1, all
operators, comparisons, `&&` and `||`, unary minus, parentheses, calls with arguments, assignments, blocks, all
forms of `if`, and a `return` at the end of a function.

**Printing floating-point numbers** (`Powers`, `Unrounded`, `Scaling`, `NearMiss`, `Lattice`, `Certificates`,
`TableRows`, `Decimal`, `Logarithms`, `Binary64`, `FixedWidth`, `Format`). Integer arithmetic that is exact or
correctly rounded, stated over real numbers: "unrounded" numbers with a sticky bit, the 64 by 128 bit product with
its early exit, when that product is close enough to the exact one (`NearMiss`; `Certificates` has two vectors for
each of the 597 rows of the table where this needs a bound, and `Lattice` says what they prove), unpacking of IEEE
754 binary64 patterns, n-digit decimal numbers and their text. U64 is arithmetic modulo 2^64, and `>>` on I32 is
floor division.

**Heap strings** (`Strings`). Strings carry length and capacity in a header; capacity 0 marks a literal. A heap of
blocks, the variables that own them, and the global allocation counter. `Meaning` says what a statement does to the
texts, and `CapAfter` to the capacities; runs keep every block owned by exactly one variable and the counter equal to
the sum of capacity + 8.

**Import collection** (`Imports`). The recursive walk over packages whose levels detect cycles.

**UTF-8** (`Utf8`). The table-driven decoder and the encoder, against sections 3 and 4 of RFC 3629.

Where the code does not do what its documentation or its users would expect, the model does what the code does. A
theorem says exactly when it is right, and a concrete input shows that it is not always: `Codegen.FoldAgrees`,
`Flow.DivByExpression`, `NearMiss.ScaledWhen`, `Unrounded.CeilExact` and the other roundings,
`Binary64.PackUnpacked`, `Format.Fmt` (the comment of `fmt` does not say that the last digit is overwritten),
`Imports.GradingOrMisfit` with `Imports.Collector.CollectProgram`, and `Utf8.WrittenIsEncoding`. Four forms are
broken, and lemmas say what they do instead: `OpCode.AndNotConstStuck`, `Flow.MulByCall`, `Flow.ReturnByCall` and
`Strings.Heap.AppendTemp`.

`dafny verify dfyconfig.toml` checks the whole project.

## Model

| member | source | states |
|---|---|---|
| `Codegen.FoldAgrees` | ops.go:54-128 | Folding two constants gives the 64-bit run-time result if and only if, on the operands: an equality test does not fall inside the relative tolerance; a left shift by 64 or more has no bit that the count modulo 64 keeps; and a right shift by 64 or more has no such bit. |
| `Codegen.FoldDiffers` | ops.go:107-110 | A concrete pair: 20000001 == 20000000 folds to true and is false at run time. |
| `Codegen.FoldShiftDiffers` | ops.go:54-128 | 1 << 64, and by every other multiple of 64, folds to 0 and is 1 at run time. |
| `Codegen.RoundedQuotient` | ops.go:107-110 | The rounding of the compiler's floating-point quotient and of the constant 1e-7 cannot change the outcome of the tolerance test on constants below 2^31. |
| `Codegen.ConstEval` | ops.go:15-49 | An expression that folds to a constant has that value in every store. |
| `Codegen.TruthValue` | expression.go:1211-1224 | A boolean that is not constant is 0 or 1 at run time, which is what the jumps of `&&` and `\|\|` test. |
| `Operators.BitOperators` | emit_nasm.go:1167-1205 | For all words and each of the 64 bits: `&`, `\|`, `^` and `&^` set it exactly when both, one, just one, or the first and not the second operand has it. |
| `Operators.BitShifts` | emit_nasm.go:1167-1205 | Shifting moves every bit by the count modulo 64, and zeros enter on both sides. |
| `Operators.BitSums` | emit_nasm.go:1167-1205 | Conjunction and disjunction add up to the sum of the operands, conjunction and exclusive or to the disjunction; exclusive or with the same word twice gives the first one back. |
| `Operators.SameBits` | emit_nasm.go:1167-1205 | The bits determine the word. |
| `Operators.SignedDivision` | emit_nasm.go:1167-1205 | For all words: `/` and `%` trap exactly for the divisor 0 and for -2^63 / -1; otherwise, as signed numbers, dividend = quotient * divisor + remainder, where the remainder is smaller than the divisor in magnitude and has the sign of the dividend. |
| `Operators.SignedComparisons` | emit_nasm.go:1139-1143 | The six comparisons of the words of two signed 64-bit numbers compare the numbers. |
| `Operators.SignedSums` | emit_nasm.go:1167-1205 | Sums, differences and negatives are those of the signed numbers when they fit in 64 bits. |
| `Operators.SignedProducts` | emit_nasm.go:1167-1205 | So are products, although the multiplication is unsigned. |
| `OpCode.DivCode` | emit_nasm.go:1167-1205 | The division and remainder sequences compute the truncating signed quotient and remainder of the next stack entry by rax, and trap exactly on a zero divisor or the quotient 2^63. |
| `OpCode.MinusCode` | emit_nasm.go:1167-1205 | Subtracting and negating gives next entry minus rax, modulo 2^64. |
| `OpCode.AndNotCode` | emit_nasm.go:1167-1205 | `&^` of two computed operands is conjunction with the complement of the second. |
| `OpCode.MultCode` | emit_nasm.go:1167-1205 | The unsigned multiplication leaves the product modulo 2^64. |
| `OpCode.ShiftCode` | emit_nasm.go:1167-1205 | Shifts by a computed count use it modulo 64; a right shift is logical. |
| `OpCode.AluCode` | emit_nasm.go:1167-1205 | `+ & \| ^` on the next stack entry and rax. |
| `OpCode.DivConstCode` | emit_nasm.go:1209-1260 | Division and remainder by a constant, with the sign extension before or after the constant is loaded. |
| `OpCode.DivInverseCode` | emit_nasm.go:1209-1260 | Division and remainder of a constant by rax. |
| `OpCode.MinusInverseCode` | emit_nasm.go:1209-1260 | A constant minus rax. |
| `OpCode.ShiftConstCode` | emit_nasm.go:1209-1260 | Shift by a constant count. |
| `OpCode.ShiftInverseCode` | emit_nasm.go:1209-1260 | Shift of a constant by rax. |
| `OpCode.MultConstCode` | emit_nasm.go:1209-1260 | Product with a constant. |
| `OpCode.AndNotConstStuck` | emit_nasm.go:1252-1257 | `&^` with a constant emits a mnemonic that no machine executes: the code is stuck in every state. |
| `OpCode.CompareCode` | emit_nasm.go:1139-1143 | The signed comparison of the next stack entry with rax, as 0 or 1. |
| `OpCode.CompareConstCode` | emit_nasm.go:1152-1161 | The signed comparison of rax with a constant, as 0 or 1. |
| `OpCode.JumpCondRuns` | emit_nasm.go:263-302 | The conditional jump over the load of 0 leaves the truth value of its condition in rax, on both paths. |
| `Pieces.InverseMeans` | emit_nasm.go:473-496 | The inverse operator on exchanged operands computes what the operator computes, for every operator but `&^`. |
| `Pieces.InverseValue` | ops.go:15-49 | Exchanging the operands does not change what the type rules say. |
| `Codegen.CallTyped` | functions.go:115-142 | A call is well typed exactly when the function is defined with that many parameters, every argument is well typed, and a boolean parameter gets a boolean: an I64 parameter takes both. |
| `Grammar.SameExpr` | expression.go:929-1285 | Tokens begin with at most one expression: two derivations of the same tokens are the same tree with the same rest. |
| `Grammar.TreeIs` | expression.go:929-1285 | Every expression, written with the parentheses that the precedence of its operators calls for and no others, has a derivation that means it. |
| `Grammar.ReadBack` | expression.go:929-1285 | What is written is read back: the tokens of an expression, with any tokens behind it that cannot continue it, have a derivation, and every derivation means that expression. |
| `Grammar.ProdBeforeSum` | expression.go:1091-1183 | `x o1 y o2 z` with o1 one of `+ - \| ^` and o2 one of `* / % << >> &^ &` can only mean x o1 (y o2 z), and with the operators exchanged (x o2 y) o1 z, for all operands. |
| `Grammar.LeftToRight` | expression.go:1091-1183 | Two operators of the same one of these groups associate to the left. |
| `Grammar.ArithmeticBeforeCompare` | expression.go:1185-1224 | Arithmetic binds tighter than a comparison, on both sides. |
| `Grammar.LogicLast` | expression.go:1226-1285 | `&&` binds tighter than `\|\|`, and both looser than a comparison. |
| `Pieces.JoinThree` | code/code.go:186-207 | Joining the fragments of two operands and an operator extends the first fragment by the other two, in order. |
| `Pieces.NosTosGenerates` | ops.go:131-192 | From code for both operands and code for the operator: code for the whole expression, from any cache state. |
| `Pieces.TosConstGenerates` | ops.go:195-257 | The same when the right operand is constant. |
| `Pieces.ConstTosGenerates` | ops.go:15-49 | The same when the left operand is constant: the inverse operator is applied. |
| `Calls.ArgsRun` | expression.go:419-533 | The argument fragments, run from the last to the first, push the values with argument 1 on top. |
| `Calls.CalleeView` | variables.go:62-68 | In the frame of a call, parameter offset 8 + 8 i addresses argument i, for every i, and the return slot offset addresses the word below the arguments. |
| `Calls.CallComputes` | expression.go:601-643 | The whole call (saved rax, return slot, arguments in reverse, call, removal of the arguments) leaves exactly the result on top of what was there, or traps exactly when the function does, and leaves in rax a word that does not depend on the result. |
| `ShortCircuit.Extend` | expression.go:1226-1285 | One more operand of a chain: the code runs through with the value, or jumps to the end label with the deciding truth value; the operand is not executed after the deciding one. |
| `ShortCircuit.Finish` | expression.go:1226-1285 | At the end label both ways meet with the same stack and the logical value in rax. |
| `Machine.ExecIsPcRun` | emit_nasm.go:164-175 | Running fragments with forward jumps is running the machine with a program counter, when every label is placed once. |
| `Machine.TrapIsPcTrap` | emit_nasm.go:164-175 | A fragment that traps traps the machine with a program counter; being lost, at a missing label or a meaningless instruction, is a different outcome. |
| `Compiler.Generator.ConsArgCode` | code/code.go:186-207 | The last fragments, or all if the count is larger than their number, become one, in order or in reverse, and the ones below are untouched. |
| `Compiler.Generator.OutputArgCode` | code/code.go:209-221 | The one open fragment goes to the file and the fragment stack is empty. |
| `Compiler.Generator.Write` | code/code.go:223-239 | Text goes to the last open fragment, or to the file when none is open. |
| `Compiler.Generator.Emit` | emit_nasm.go:36-71 | LocalSp follows every push, pop and change of rsp. |
| `Compiler.Generator.EmitFlushRax` | emit_nasm.go:430-435 | rax is pushed exactly when it is the top of the stack; the stack depth that the compiler counts is kept. |
| `Compiler.Generator.EmitAssertTosInRax` | emit_nasm.go:437-444 | The top of the stack is popped into rax exactly when it is in memory. |
| `Compiler.Generator.EmitLoad` | emit_nasm.go:383-387 | A variable is loaded over a saved rax. |
| `Compiler.Generator.EmitCompareIntegers` | emit_nasm.go:1139-1143 | The emitted code replaces the two operands by the comparison's truth value, with one new label. |
| `Compiler.Generator.EmitIntegerOp` | emit_nasm.go:1167-1205 | The emitted code replaces the two operands by the result, for every operator, and LocalSp drops by one. |
| `Compiler.Generator.EmitOpIntConst` | emit_nasm.go:1209-1260 | The emitted code applies the operator, or its inverse form, to rax and a constant; for `&^` it is stuck. |
| `Compiler.Generator.GenerateTosOpNos` | ops.go:131-192 | Two computed operands: the type check, and code that applies the operator. |
| `Compiler.Generator.GenerateTosOpConst` | ops.go:195-257 | A computed operand and a constant: the type check, and code that applies the operator. |
| `Compiler.Generator.GenerateOp` | ops.go:15-49 | Whichever operand is constant, the code of both operands followed by the new code computes the operator, and the type rules decide success. |
| `Compiler.Generator.ParseUnary` | expression.go:929-1089 | A literal, variable, parenthesis, unary minus or call: success exactly when it is well typed, a boolean being accepted for an I64 parameter, and then code that computes it. |
| `Compiler.Generator.ParseVariable` | expression.go:873-926 | A variable in scope is loaded; a name that is not defined is an error. |
| `Compiler.Generator.ParseProd` | expression.go:1091-1120 | A chain of multiplicative operators: code that computes the left-associated expression from any cache state; the fragment stack keeps its height. |
| `Compiler.Generator.ParseSumTerm` | expression.go:1122-1183 | The same for a chain of additive operators. |
| `Compiler.Generator.ParseCompareTerm` | expression.go:1185-1209 | The same for a comparison. |
| `Compiler.Generator.ParseLogAnd` | expression.go:1226-1253 | The same for an `&&` chain. |
| `Compiler.Generator.ParseExpression` | expression.go:1255-1285 | For every expression of the fragment, every store and every entry cache state: success exactly when it is well typed, and then code that leaves its 64-bit value on top of the evaluation stack and everything below unchanged, or traps exactly when the expression does; no code for a constant. |
| `Compiler.Generator.ParseActualArgList` | expression.go:419-533 | One fragment for each argument, on top of the fragments that were there; each pushes its argument's value, and the values have the arguments' types. |
| `Compiler.Generator.FindFuncDef` | functions.go:123-142 | A definition is found exactly when the number of the arguments is right and each can be assigned to its parameter: a boolean can be given for an I64, and an I64 not for a boolean (`types.go:76-150`). |
| `Compiler.Generator.ParseFuncCall` | expression.go:538-644 | A call with at least one argument, to any depth of nesting, computes the function of the argument values and leaves the fragment stack at its entry height. |
| `Compiler.Generator.CallFunction` | expression.go:538-644 | The part after the arguments: the fragments are joined in reverse behind the saved rax and the return slot, and the call and the removal of the arguments follow. |
| `Compiler.Generator.AddLocalVar` | variables.go:80-89 | A new variable gets the next word below rbp; a known name keeps its place. |
| `Compiler.Generator.FreeBlockVars` | variables.go:136-152 | Exactly the variables of the block end, the others keep their places, and rsp and LocalSp move by their number. |
| `Compiler.Generator.AddLocalPar` | variables.go:62-68 | Parameter i lives at rbp + 8 + 8 i. |
| `Compiler.Generator.EmitAssignVariableConstInt` | emit_nasm.go:1673-1710 | The emitted code assigns the constant to the variable, for each assignment operator, and changes nothing else on the stack. |
| `Compiler.Generator.EmitAssignVariableExpressionInt` | emit_nasm.go:1443-1459 | For =, += and -= the emitted code assigns the top of the stack, wherever it is held, and pops it; for *= it multiplies by rax, and for /= it divides rax by the variable, and nothing is popped. |
| `Compiler.Generator.GenerateAssignment` | expression.go:52-82 | The assignment to a variable of type I64 succeeds for everything but a boolean constant, and emits code that assigns as EmitAssign promises; LocalSp follows what is popped. |
| `Compiler.Generator.ParseLvalue` | expression.go:280-366 | A new name becomes a variable of this block with a zeroed word; an old one is left alone. |
| `Compiler.Generator.ParseExpressions` | expression.go:1290-1309 | The right-hand side, in a fragment of its own. |
| `Compiler.Generator.ParseVar` | expression.go:1815-1855 | `var x I64` creates a variable with value 0. |
| `Compiler.Generator.ParseAssign` | expression.go:648-700 | An assignment, `x++` or `x--`: success exactly when the types fit, computed booleans included, and code that does the update and leaves the frame as computed. |
| `Compiler.Generator.ParseStatement` | statements.go:86-164 | Any statement of the fragment: code that does what the statement means, from a statement boundary to a statement boundary. |
| `Compiler.Generator.ParseStatements` | statements.go:166-182 | The same for a list of statements. |
| `Compiler.Generator.ParseBlock` | expression.go:1312-1339 | The same for a block, which also ends its variables and leaves the names around it as they were. |
| `Compiler.Generator.ParseIfElse` | expression.go:1379-1474 | An if with any chain of else-if branches and an else: exactly the first branch whose condition holds is executed. |
| `Compiler.Generator.ParseElseChain` | expression.go:1379-1474 | The loop over the else branches, with the label of the pending test and the end label of each turn. |
| `Compiler.Generator.ParseColonQmark` | expression.go:1342-1376 | `if c ? a : b` and `if c : a`. |
| `Compiler.Generator.ParseFormalArgList` | expression.go:240-275 | The parameters, in order, at the offsets the callers use. |
| `Compiler.Generator.ParseFuncBody` | expression.go:1529-1658 | A function body without a result: code that does what the body means, after which no local variable is left and LocalSp is 0, so that no stack error is reported, and in which every call is a call of a declared function with the right number of arguments. |
| `Compiler.Generator.ParseReturn` | statements.go:11-82 | `return e` at the end of a function: success exactly when e is well typed, a boolean included, and code that puts its value into the return slot and jumps to the return label; a bare call leaves one more word on the stack. |
| `Compiler.Generator.ParseValueBody` | expression.go:1529-1658 | The body of a function that ends with `return e`: success exactly when the statements and e are well typed and e is not a bare call, which the check of the stack rejects; and then every call of the code, run on the machine with a program counter, is answered by the value that the source means for the call's arguments; the calls in it are calls of declared functions with the right number of arguments. |
| `Compiler.Generator.EndFunction` | expression.go:1605-1639 | The function is accepted exactly when nothing but its local variables is left on the stack that the compiler counts. |
| `Compiler.Generator.MulByCallBody` | expression.go:1635-1639 | A body that is just `x *= f(y)` is rejected: the word that is not popped is reported as a stack error. |
| `Flow.NewVarPerforms` | emit_nasm.go:409-412 | Pushing a zeroed word creates a variable with value 0. |
| `Flow.UpdatePerforms` | emit_nasm.go:1443-1459 | The code of a value and a store does the assignment, changes no other variable, no word around the frame, and leaves rsp = rbp - 8 LocalSp. |
| `Flow.CreatePerforms` | expression.go:648-700 | The same when the assignment creates the variable. |
| `Flow.StoreConstStores` | emit_nasm.go:1673-1710 | The store of a constant, for all five assignment operators, division traps included. |
| `Flow.StoreCodeStores` | emit_nasm.go:1443-1459 | The store of rax for =, +=, -= and *=. |
| `Flow.AroundWritten` | variables.go:62-68 | Writing a variable leaves the return address, the saved rbp, the return slots and the callers' frames alone. |
| `Flow.SeqPerforms` | statements.go:166-182 | The code of two statements, one after the other, does both. |
| `Flow.BlockPerforms` | variables.go:136-152 | Removing the words of a block restores the frame, and the variables around keep their values. |
| `Flow.BranchOpens` | emit_nasm.go:391-396 | Condition, test and branch: either the branch has been executed, or control is at the label with the store unchanged. |
| `Flow.ChainElseIf` | expression.go:1379-1474 | One more else-if, with its jump to an end label that immediately follows: still exactly one branch is executed. |
| `Flow.CloseElse` | expression.go:1379-1474 | The last else completes the chain. |
| `Flow.CloseIf` | expression.go:1379-1474 | Without an else, the label of the last test completes the chain. |
| `Flow.StartLayout` | variables.go:62-68 | At the start of a function the parameters have distinct words above rbp. |
| `Flow.CodeRuns` | expression.go:1529-1658 | The generated code on the machine with a program counter: it reaches its end with the store that the source means, the stack height the compiler has computed and the words around the frame unchanged, or traps exactly when the source divides by zero or overflows a quotient. |
| `Flow.EntryBoundary` | variables.go:62-68 | When a call enters the function, the parameters of the callee hold the arguments. |
| `Flow.ReturnReturns` | statements.go:11-82 | The code of e, the store at 8 (n + 2) and the jump put the value of e into the return slot and change no other word. |
| `Flow.FuncRuns` | expression.go:1529-1658 | A compiled function entered by a call: its run ends with the value in the return slot, on top of the caller's stack, and with the return address and the saved rbp as they were, or traps exactly when the source does. |
| `Flow.CallDescribed` | expression.go:601-643 | So the model of a call, which leaves the value of a function symbol or traps with it, describes the generated callee. |
| `Flow.ReturnByCall` | statements.go:55-57 | The code of `return f(x)` returns a word that has nothing to do with the result of f, and leaves a word on the stack; the compiler then rejects the function, as ParseValueBody states. |
| `Flow.SameQuotients` | emit_nasm.go:1448-1453 | The quotient of two words and the quotient the other way round are equal if and only if the operands have the same magnitude. |
| `Flow.DivByExpression` | emit_nasm.go:1448-1453 | `x /= e` stores the source's quotient if and only if e and x have the same magnitude. |
| `Flow.DivTenByThree` | emit_nasm.go:1448-1453 | With x = 10, `x /= 3` for a computed 3 stores 0. |
| `Linked.MeansBody` | expression.go:1529-1658 | A function symbol of a library means the body of its function, in which the functions before it mean theirs. |
| `Linked.CallIsCode` | emit_nasm.go:203-216 | What the model of a call says of a function of the library is what the generated code of its body does, entered with two more words on the stack and left with leave and ret: registers, stack and traps. |
| `Linked.Simulates` | emit_nasm.go:185-201 | For code that calls only earlier functions, a run in which calls are single steps is a run of the machine that enters and leaves the code of the callees, to any depth. |
| `Linked.LinkedCall` | emit_nasm.go:659-692 | A call on that machine leaves, below the arguments, the value that the body means when every function symbol of the library stands for its body, or traps exactly when the body does. |
| `Linked.LinkedCodeRuns` | expression.go:1529-1658 | The code of any command compiled when the functions of the library are declared (each was compiled when the earlier ones and itself were, and does not call itself), on that machine: it reaches its end with the store that the command means when every function symbol stands for its body, or traps exactly when the command does. |
| `Flow.MulByCall` | emit_nasm.go:1443-1459 | `x *= f(y)` multiplies x by a word that does not depend on the result of f, and leaves the result on the stack, so no statement boundary follows. |
| `Flow.MulByOne` | emit_nasm.go:1443-1459 | A concrete case: f returns 1 and leaves 0 in rax, and x becomes 0. |
| `Unrounded.FloorExact` | lib/fmt/fmt.jkv:720 | ufloor of the unrounded form of v is the floor of v. |
| `Unrounded.CeilExact` | lib/fmt/fmt.jkv:721 | uceil is the ceiling of v if and only if the addition does not wrap. |
| `Unrounded.HalfDownExact` | lib/fmt/fmt.jkv:722 | roundHalfDown is v rounded to nearest, ties down, if and only if the addition does not wrap. |
| `Unrounded.RoundExact` | lib/fmt/fmt.jkv:723 | round is v rounded to nearest, ties to even, if and only if the addition does not wrap. |
| `Unrounded.HalfUpExact` | lib/fmt/fmt.jkv:724 | roundHalfUp is v rounded to nearest, ties up, if and only if the addition does not wrap. |
| `Unrounded.RoundingsWrap` | lib/fmt/fmt.jkv:720-724 | A concrete value for which three of the roundings wrap to 0. |
| `Unrounded.DivExact` | lib/fmt/fmt.jkv:726-730 | Dividing an unrounded number by any d >= 1 gives the unrounded form of v / d, for every real v: no double rounding. |
| `Unrounded.RshExact` | lib/fmt/fmt.jkv:732-736 | Shifting right by s < 64 gives the unrounded form of v / 2^s. |
| `Unrounded.NudgeDown` | lib/fmt/fmt.jkv:738-740 | ufloor after nudge by -1 is ceil(v) - 1, for every v > 0. |
| `Unrounded.NudgeUp` | lib/fmt/fmt.jkv:738-740 | uceil after nudge by +1 is floor(v) + 1 if and only if the sum does not wrap. |
| `Scaling.UScale` | lib/fmt/fmt.jkv:764-774 | The fast product, which mostly skips the low half, is K when the full product is within 2^64 of K 2^(128+s), and otherwise the floor of the quotient with the sticky bit set. |
| `Scaling.ProductWords` | lib/fmt/fmt.jkv:764-774 | The high and low words bracket the full product; the high word of the second multiplication is at most 2^64 - 2, so that the wrapped difference hides no borrow. |
| `Scaling.RowExact` | lib/fmt/fmt.jkv:354-381 | Each of the rows 1e0 to 1e27 is exactly the power of ten it is documented to be, normalised and even. |
| `NearMiss.ScaledWhen` | lib/fmt/fmt.jkv:761-774 | The documented result of uscale, unround(x 2^e 10^p), is what the code computes if and only if the product is not within 2^64 of an even multiple of 2^(128+s) that the exact product x 10^p misses; for every x and every row that holds its power of ten rounded up. |
| `Lattice.Row` | lib/fmt/fmt.jkv:3-702 | Two vectors that span a lattice bound from below how close a 53-bit multiple of a row comes to a multiple of 2^119; from one row, known to eight more bits, to the next ones. |
| `Certificates.TableClear` | lib/fmt/fmt.jkv:3-702 | In all rows from 1e-307 to 1e344 but those from 1e-27 to 1e27, no 53-bit multiple of the row is within 2^53 of a multiple of 2^119. |
| `TableRows.RowServes` | lib/fmt/fmt.jkv:761-774 | So no significand of a binary64 number meets a near miss in a row that the printing can choose; near 1e0 this is shown by exactness and by divisibility. |
| `TableRows.UScaleServes` | lib/fmt/fmt.jkv:761-774 | For the significands of binary64 numbers and the rows and shifts that the printing uses, uscale is unround(x 2^e 10^p). |
| `TableRows.UScaleExact` | lib/fmt/fmt.jkv:354-381 | For the rows 1e0 to 1e27 it is so for every 64-bit x. |
| `TableRows.UScaleDiffers` | lib/fmt/fmt.jkv:398 | A concrete left-justified 64-bit x for which uscale in row 1e44 is not unround(x 2^-154 10^44). |
| `Decimal.Len64` | lib/fmt/fmt.jkv:789-819 | The bit length: 2^(n-1) <= x < 2^n for x > 0, and 0 for 0. |
| `Decimal.TrimZeros` | lib/fmt/fmt.jkv:936-968 | The value x 10^p is kept, and no trailing zero is left if and only if 10^17 does not divide the input. |
| `Decimal.TableIsPow10` | lib/fmt/fmt.jkv:842-845 | Every entry of the table of small powers is that power of ten. |
| `Decimal.Digits` | lib/fmt/fmt.jkv:1028-1031 | The number of decimal digits: 10^(k-1) <= d < 10^k for every d > 0 below 2^64. |
| `Binary64.Unpack64` | lib/fmt/fmt.jkv:824-838 | Every positive finite binary64 pattern, normal or subnormal, is unpacked to m 2^e of exactly its value with the top bit of m set. |
| `Binary64.PackUnpacked` | unrounded.go:12-17 | Packing the unpacked number gives back the pattern if and only if it is a normal number. |
| `Binary64.SmallestIsLost` | unrounded.go:12-17 | The smallest subnormal number is not packed back. |
| `Logarithms.NearLog` | lib/fmt/fmt.jkv:848-851 | 10^205 < 2^681 and 2^485 < 10^146: two fractions that enclose the logarithm of 2 tightly enough. |
| `Logarithms.LogIsFloor` | lib/fmt/fmt.jkv:848-851 | log10Pow2(x) is the floor of log10(2^x), as its comment says, for every x from -1124 to 1124, which covers every exponent of a binary64 number. |
| `FixedWidth.FixedWidth` | lib/fmt/fmt.jkv:855-873 | With n digits, 1 <= n <= 18, every positive finite number, normal or subnormal: the result has exactly n digits and is the number divided by the power of ten of the returned exponent, rounded once, ties to even, also when the first rounding has a digit too many; and one exponent less would give more than n digits. |
| `FixedWidth.OneExponent` | lib/fmt/fmt.jkv:855-873 | There is one such exponent: every smaller one gives more than n digits, and for every greater one the next smaller would do. |
| `FixedWidth.BothRoundings` | lib/fmt/fmt.jkv:855-873 | Dividing the unrounded form by ten and rounding is rounding v / 10 once. |
| `Format.FormatBase10` | lib/fmt/fmt.jkv:876-886 | The buffer holds the last w digits of the number, each at its place, with room for 8 characters. |
| `Format.Fmt` | lib/fmt/fmt.jkv:891-922 | The text has nd + 5 characters within the capacity: the digits of d but the last, or the only one, a point behind the first, e, - exactly when the exponent p + nd - 1 is negative and + otherwise, and the last three digits of its magnitude. It reads back as the digits without the last one, or the only digit, with the exponent modulo 1000; it stands for d 10^p if and only if the last digit is 0, or the only one, and the exponent has at most three digits. |
| `Format.ShownExactly` | lib/fmt/fmt.jkv:891-922 | The arithmetic of that condition, for every d >= 10 and every p. |
| `Format.LastDigitLost` | lib/fmt/fmt.jkv:891-922 | 1234 is printed as a text that stands for 1230. |
| `Format.ReadBack` | lib/fmt/fmt.jkv:891-922 | A parser of the printed form recovers the mantissa and the exponent. |
| `Format.FormatFloat` | lib/fmt/fmt.jkv:926-931 | Every positive finite number printed with dp digits, 0 <= dp <= 17: the characters of d 10^q, where q is the least exponent with dp + 1 digits and d is the number correctly rounded to them; the text reads back as its correct rounding to dp + 1 digits with the last digit cut off, unless it is the only one, and the right exponent; with more digits the text stands for 0. |
| `Strings.Heap.Alloc` | lib/sys.asm:179-190 | Zeroed memory at an unused address; allocation_count grows by the size. |
| `Strings.Heap.FreeString` | lib/sys.asm:250-282 | Exactly a heap string is freed, and allocation_count falls by its capacity + 8; nil and literals are left alone. |
| `Strings.Heap.NewString` | emit_nasm.go:776-793 | A new empty string of the given capacity; nothing else changes. |
| `Strings.Heap.CopyStringToRam` | emit_nasm.go:877-904 | A literal is copied to a writeable block with 24 bytes to spare; a heap string is returned as it is. |
| `Strings.Heap.AssignChar` | emit_nasm.go:923-931 | `x[i] = c` copies a literal to RAM first and overwrites one character; the variable owns the copy. |
| `Strings.Heap.Concat` | emit_nasm.go:1750-1814 | The new string is the concatenation; exactly the flagged arguments that are heap strings are freed. |
| `Strings.Heap.ExtendStringCapacity` | emit_nasm.go:1825-1876 | The text is kept and there is room; the block is replaced, and the old one freed, exactly when the room was missing. |
| `Strings.Heap.StoreAppended` | emit_nasm.go:1886-1909 | The appended characters go behind the text, inside the block, and only the length half of the header changes. |
| `Strings.Heap.AppendString` | emit_nasm.go:1886-1909 | Appending a string is concatenation, to nil, a literal or a heap string; the block is kept when the length stays below the capacity, otherwise it is freed and the new one has 8 bytes to spare. |
| `Strings.Heap.AppendChar` | emit_nasm.go:2138-2154 | Appending a character, with the same rule for the block. |
| `Strings.Heap.ConcatChain` | expression.go:1133-1162 | s1 + ... + sk of variables and literals leaves exactly one new block, with the concatenation, and allocation_count has grown by the total length + 40. |
| `Strings.Heap.AssignTemp` | emit_nasm.go:2046-2067 | A temporary becomes the variable's string, and the old string is freed. |
| `Strings.Heap.AssignLiteral` | emit_nasm.go:2007-2015 | A literal becomes the variable's string, and the old string is freed. |
| `Strings.Heap.AppendLiteral` | emit_nasm.go:1968-1978 | Appending a literal by concatenation keeps every block owned. |
| `Strings.Heap.Execute` | expression.go:100-189 | Every string statement does to the texts what it means, and afterwards every block is owned by exactly one variable. The capacity of its string is 0 for a literal, c for new(String, c), the length + 32 after a concatenation or appending a literal; an append keeps a block with room and otherwise takes the length + 8; writing a character keeps a heap string and copies a literal with 24 bytes to spare. A string with room has not moved, the other capacities stay, and allocation_count changes by the new capacity + 8 less the old one + 8. |
| `Strings.Heap.Run` | expression.go:100-189 | For every sequence of string statements: texts, owners and capacities are those that the statements call for one after the other, and allocation_count is the sum of capacity + 8 over the variables with a heap string. |
| `Strings.Heap.FreeVars` | variables.go:91-117 | Freeing the variables leaves no block, and allocation_count is 0. |
| `Strings.Heap.AppendTemp` | emit_nasm.go:1886-1909 | `x += t` for a temporary t loses t: allocation_count keeps its capacity + 8 for ever. |
| `Strings.HeapIsOccupied` | lib/sys.asm:179-190 | When every block has one owner, the sum over the blocks is the sum over the variables: capacity + 8 for each heap string, nothing for nil and literals. |
| `Strings.TotalSet` | lib/sys.asm:179-190 | How the sum of the capacities changes with one block. |
| `Imports.Collector.AddPackage` | compile.go:43-58 | Success exactly when the package is registered at no smaller level, or is new and exists; registered packages keep their level. |
| `Imports.Collector.CollectFileImports` | compile.go:152-159 | Success exactly when each import is registered at this level or above, or is new and exists; exactly the new ones are registered, at this level. |
| `Imports.Collector.CollectPackageImports` | compile.go:161-192 | The recursion terminates on every finite graph, cyclic or not, in any map order; on success every package above the level has all its imports at greater levels; with a grading it succeeds, and the levels are the grades. |
| `Imports.Collector.CollectProgram` | compile.go:161-192 | A program with a grading, in which every import stands one level above its importer, is accepted in every map order; along a misfit it is rejected; on success every import of every registered package has a greater level. |
| `Imports.GradingOrMisfit` | compile.go:161-192 | A program has a grading if and only if it has no misfit: no chain of imports to a missing package, and no two chains of different lengths to one package. So it is accepted in every map order if and only if it has a grading. |
| `Imports.Shortcut` | compile.go:43-58 | A concrete program without a cycle that is rejected in every order. |
| `Imports.TwoChains` | compile.go:161-192 | A concrete program without a cycle that is rejected when the shorter of two chains is followed first. |
| `Imports.EnoughPackages` | compile.go:161-192 | Levels 1 to n in use need n packages, which bounds the depth. |
| `Imports.LevelsGrow` | compile.go:43-58 | Levels grow along every chain of imports of an accepted program. |
| `Imports.NoCycle` | compile.go:43-58 | The import graph of an accepted program has no cycle, through the root or not. |
| `Utf8.EncodingDecodes` | utf8.go:115-157 | Every scalar value has a well-formed encoding, whose code point it is. |
| `Utf8.DecodingEncodes` | utf8.go:63-72 | Every well-formed sequence is the encoding of its code point, which is a scalar value: no overlong forms and no surrogates. |
| `Utf8.PrefixFree` | utf8.go:63-72 | No well-formed sequence is the beginning of another one. |
| `Utf8.LeadBitsAre` | utf8.go:86-113 | The mask that depends on the kind of the lead byte keeps exactly its value bits. |
| `Utf8.LaterByte` | utf8.go:63-113 | Every later step of the automaton: it accepts, goes on or rejects exactly as the bytes so far do in RFC 3629 section 4. |
| `Utf8.Decode` | utf8.go:86-113 | Decoding stops within 4 bytes; it returns the code point exactly when these bytes are well-formed, and otherwise U+FFFD at the first byte that cannot continue a well-formed sequence; an index out of range occurs only on an unfinished sequence. |
| `Utf8.WellFormedIsDecoded` | utf8.go:86-113 | A well-formed sequence is decoded to its code point whatever follows it. |
| `Utf8.Encode` | utf8.go:133-157 | Exactly the encoding is written, and nothing else in the buffer changes. |
| `Utf8.WrittenIsEncoding` | utf8.go:133-157 | What is written for a scalar value is its encoding if and only if it is not 10FFFF. |
| `Utf8.GreatestIsLost` | utf8.go:133-157 | 10FFFF is written as U+FFFD. |
| `Utf8.ReEncoded` | utf8.go:133-157 | Encoding reproduces every well-formed sequence from its code point, except that of 10FFFF. |
| `Utf8.EncodeAll` | utf8.go:133-157 | Several values, one after the other. |
| `Utf8.DecodeAll` | utf8.go:86-113 | Decoding the stream again and again recovers the values and ends exactly at its end. |

## Left out

Code generation:

- Token streams that no tree of the fragment produces: the syntax errors of the parser. The type and name errors are modelled.
- Calls with no argument, calls that return nothing or several values, and a call at the beginning of a later operand of `&&` or `||`: there the fragments do not line up with the operands (`expression.go:603-618`).
- `&^` with one constant operand, constant operands of `&&` and `||`, constant conditions, unary minus on constants, and constants outside 0 to 2^31 - 1: known gaps or other code paths of the compiler (`expression.go:16-31`, `expression.go:1389`).
- `x /= e` for a computed e and `x *= f(y)` are outside of the fragment; `Flow.DivByExpression` and `Flow.MulByCall` say what they do.
- Overloading: a function has one definition, found by its name, and one result of type I64.
- A second declaration of a variable, a new variable whose first value is a constant (it gets a narrower type) or a boolean, several targets or values in one assignment.
- Else-if conditions that are not boolean: the compiler does not check their type, and the fragment asks for booleans.
- `for`, `loop`, `break`, `continue`, `fail`, a `return` that is not the last statement of a function, `else` after a call, cleanup code after calls, structs, slices, floats, and integers narrower than 64 bits.
- The instructions of the prologue and the epilogue are not emitted: a function is entered with the return address and the saved rbp on the stack, two words that may depend on the state of the caller, and is left when both are as they were.
- Linked.LinkedCodeRuns: recursive functions; `NeverCalls` asks that the code of a function does not call the function itself.
- Registers beyond the four, the flags of arithmetic instructions (which are taken as unknown), addresses and the size of the stack.
- Compiler.Generator.EmitOpIntConst: constants from 0 to 2^31 - 1 only; the path for wide constants through rbx is not modelled.
- Compiler.Generator.GenerateTosOpConst: the same constants, and not for `&^`.
- Compiler.Generator.GenerateOp: operands of the fragment only.
- Compiler.Generator.ParseUnary: characters, strings, `!`, `new` and unary minus on constants are left out.
- Compiler.Generator.ParseVariable: the ten predefined global names (`err`, `argc`, `envc`, `tick_count` and others, `variables.go:30-41`), which the source loads, are not names of the model.
- Compiler.Generator.ParseSumTerm: the concatenation of strings in this function is modelled by `Strings.Heap.ConcatChain`.
- Compiler.Generator.ParseLogAnd: operands that are computed at run time, the later ones not beginning with a call.
- Compiler.Generator.ParseExpression: the fragment only, as the lines above say.
- Compiler.Generator.ParseActualArgList: no string, float or printf arguments.
- Compiler.Generator.ParseFuncCall: one definition for each name, and no cleanup of arguments.
- Compiler.Generator.GenerateAssignment: variables of type I64; a new variable with a boolean value, strings and floats are left out.
- Compiler.Generator.FindFuncDef: one definition for each name; of the types only I64 and Bool.
- Compiler.Generator.ParseLvalue: no fields, indices or lists of targets.
- Compiler.Generator.ParseExpressions: one expression on the right-hand side.
- Compiler.Generator.ParseVar: type I64 without an initial value.
- Compiler.Generator.ParseAssign: a single variable of type I64 as the target.
- Compiler.Generator.ParseStatement: the statements of the fragment.
- Compiler.Generator.ParseColonQmark: neither branch creates a variable; such a variable would have a word only on one path.
- Compiler.Generator.ParseFormalArgList: the parameters as a list of names; their tokens and types are left out.
- Compiler.Generator.ParseFuncBody: the header of the function is left out.
- Compiler.Generator.ParseReturn: one result, at the end of a function, outside of a loop.
- Compiler.Generator.ParseValueBody: the header of the function is left out, and `return e` is the last statement.

Floating point:

- FixedWidth.FixedWidth: the 1392 constants of the table are described, not listed: `PowerTable` says that each row is its power of ten, scaled to 128 bits and rounded up.
- Widths below 1 in `fixed_width`, which the source does not check for.
- `shortest` and `skewed`: the three exits of `shortest` disagree about the sign of the exponent. Its parts are modelled.
- `unround` on floating-point numbers: the model defines the unrounded form on real numbers.
- Zero, negative numbers, infinities and NaN in `unpack64`.

Strings:

- Strings.Heap.Run: lengths and capacities that do not fit the 32-bit halves of the header, reading through nil, writing a character outside of the text (the source does not check the index), appending a string to itself, and the compile-time rejection of character constants above 128 are outside of `Meaning`.
- Strings reached through pointers, struct fields or slices, assignments from one variable to another (ownership is not consistent there), and the error code of a failed HeapFree.
- Running out of memory; addresses are numbers, and the data of a block is separate from its header.

Imports and UTF-8:

- Directory listings and the reading of package files; an import is the name of a package that exists or not. Alias names and the reset of the usage marks are not part of this model.
- The decoder's index error at the end of a string is an outcome of the model; what the caller does with it is not.
