# A verified model of a small stack language and its two back ends

The repository implements a Forth-like stack language in Python. It has three parts:

- **An instruction set.** `definitions.py` numbers the opcodes with an `iota` counter. It builds instructions as tuples `(opcode, operands...)` and reads a source file into instructions (`tokenize_file`).
- **An interpreter.** `interpreter.py` (`simulate`) runs the instructions on a Python list. It keeps the operand stack, the suspended caller stack and the function table in module globals.
- **A native-code generator.** `compiler.py` (`Codegen`) lowers the instructions to LLVM IR. Every function of the generated code keeps its operand stack in a 1024-cell `i32` array with a stack pointer.

`slang.py` is the earlier, self-contained version of the language. It has its own numbering, its own simulator on one global stack, and its own reader (`compile_file`).

This Dafny project models the following. Each item is a pure function; the properties are stated as contracts and lemmas.

- **Opcode numbering and tuple form** (`opcodes.dfy`). The `iota` run, the opcode constants, and the encoding of instructions as tuples together with its inverse.
- **Word splitting and the reader of `definitions.py`** (`tokenizer.dfy`). Integer literals as `int()` reads them (`numerals.dfy`).
- **Block recovery** (`blocks.dfy`). `extract_block`, including a method that mirrors its loop.
- **The interpreter** (`stack_ops.dfy`, `interpreter.dfy`). The process-wide globals become an explicit `VM` value. CALL and RETURN move values through the `suspended` register exactly as the globals do.
- **The code generator at compile time** (`lowering.dfy`). Which opcodes each context accepts, what it emits, where BREAK and RETURN stop lowering, and how functions are registered. The emitted code is a small structured instruction set (`LInstr`) that stands for the builder calls.
- **The generated code at run time** (`int32.dfy`, `array_stack.dfy`, `native.dfy`). `i32` wrap-around, truncating `sdiv`, and the stack array and its helpers. An access outside the array, which is undefined behaviour in the generated code, is modelled as a fault.
- **How the back ends relate** (`agreement.dfy`). On straight-line programs the native code prints the 32-bit images of what the interpreter prints.
- **`slang.py`** (`slang.dfy`). Its numbering, simulator and reader, and how they relate to the later files.

## Conventions

- **Faults.** Exceptions become `Err` values of `Outcomes.Fault`. Printed values are collected in an output sequence.
- **Fuel.** Every nested run of a body and every call costs one unit of `fuel`. When the fuel runs out the result is `OutOfFuel`.
- **Python `/`.** It produces a float, so in both Python simulators DIV ends the integer model. A zero divisor gives `DivisionByZero`; any other divisor gives `FloatQuotient`.

## Model

| member | source | states |
|---|---|---|
| Opcodes.IotaCounts | definitions.py:2-9 | n plain `iota()` calls starting from counter c return c, c+1, ..., c+n-1 |
| Opcodes.IotaAfterReset | definitions.py:2-41 | after the reset call, the declarations that follow are numbered 0, 1, 2, ...; the reset call itself yields None |
| Opcodes.Code | definitions.py:12-41 | the value of each opcode constant: None for PUSH, then the declaration order counted from 0; `Opcodes.CodeIsIota` and `Opcodes.CodesDistinct` state what it satisfies |
| Opcodes.CodeIsIota | definitions.py:12-41 | each opcode constant equals the value `iota` produced at that kind's declaration: PUSH is None, POP is 0, ..., ELSE is 28 |
| Opcodes.CodesDistinct | definitions.py:12-41 | two opcode constants are equal exactly for the same kind of instruction; every integer constant is below 29 |
| Opcodes.Encode | definitions.py:46-134 | the tuple each instruction constructor builds; `Opcodes.DecodeEncode` states that nothing is lost |
| Opcodes.Decode | interpreter.py:62-152 | reading a tuple by its first element, as the simulators dispatch on `opcode[0]`; `Opcodes.DecodeEncode` states that it inverts `Opcodes.Encode` |
| Opcodes.DecodeEncode | definitions.py:46-134 | decoding the tuple a constructor builds (`(PUSH, x)`, `(FUNCTION, name, argcount)`, `(CALL, name)`, `(OP,)`) by its first element gives back the instruction |
| Opcodes.HoldsDuality | interpreter.py:29-41 | `!=` is the negation of `==`, `>=` of `<`, `<=` of `>`; `>` and `>=` become `<` and `<=` when the operands are exchanged |
| StackOps.StackOp | interpreter.py:64-105 | the list operations each stack opcode performs; `StackOps.StackEffect` and the shape lemmas below state their effect |
| StackOps.StackEffect | interpreter.py:64-105 | every stack opcode fails with underflow exactly when fewer than its needed operands are present; it replaces that many top elements by a fixed number of elements, and all but FLIP leave the rest untouched |
| StackOps.ArithmeticShapes | interpreter.py:68-87 | ADD, SUB and MUL turn `[.., b, a]` into `[.., a OP b]`, where the old top `a` is the left operand |
| StackOps.SubExample | interpreter.py:70-71 | `[3, 4]` with SUB becomes `[1]` |
| StackOps.ShaperShapes | interpreter.py:72-105 | SWAP, ROT, OVER, DUP, INCREMENT and DECREMENT act on the top elements as their comments describe (ROT: `[.., c, b, a]` to `[.., a, c, b]`) |
| StackOps.FlipExchanges | interpreter.py:93-98 | on two or more values, FLIP exchanges the first and the last element and keeps the middle |
| StackOps.SwapInvolutive | interpreter.py:72-76 | SWAP twice restores the stack |
| StackOps.FlipInvolutive | interpreter.py:93-98 | FLIP twice restores a stack of two or more values |
| StackOps.RotThrice | interpreter.py:77-83 | three ROTs restore the stack |
| StackOps.IncrementDupInverses | interpreter.py:90-105 | DECREMENT undoes INCREMENT, and POP undoes DUP |
| Blocks.ScanEnd | interpreter.py:45-59 | the depth-counting scan of `extract_block` stops at or after its start, and within the list when it starts within it |
| Blocks.ExtractBlock | interpreter.py:45-59 | the body is the slice from the start to where the scan stopped, or empty when the start lies beyond the list; `Blocks.ExtractBlockSpec` states which END that is |
| Blocks.ExtractBlockSpec | interpreter.py:45-59 | the recovered body runs from the start index to the first END reached with every nested IF, WHILE and FUNCTION closed, or to the end of the list if there is no such END |
| Blocks.StopUnique | interpreter.py:45-59 | the stop index that description names is unique |
| Blocks.ClosedBodyBalanced | interpreter.py:45-59 | a body that ends before the list does is balanced: its openers and ENDs match |
| Blocks.ExtractBlockLoop | interpreter.py:45-59 | the loop with its depth counter, its accumulated block and its `break` computes the body and stop index that `Blocks.ExtractBlockSpec` describes |
| Interpreter.Exec | interpreter.py:8-153 | the main loop of `simulate` from an index, with the globals made an explicit state; the lemmas below state what each opcode does in it |
| Interpreter.EvalCond | interpreter.py:29-43 | `evaluate_condition`; `Interpreter.EvalCondSpec` states its faults and its relation |
| Interpreter.Branch | interpreter.py:137-150 | IF and WHILE: the tag, the body after DO recovered by `extract_block`, and resumption after its END; `Interpreter.IfSkipsBody` and `Interpreter.IfRunsBody` state the IF cases |
| Interpreter.Once | interpreter.py:137-143 | one conditional run of an IF body, never as a function body |
| Interpreter.Loop | interpreter.py:144-150 | the WHILE loop, with the condition read before every run; `Interpreter.CountdownIterations` and `Interpreter.WhileFalseRunsNothing` state how often the body runs |
| Interpreter.Invoke | interpreter.py:125-136 | CALL through the shared suspended register; `Interpreter.InvokeFaults`, `Interpreter.InvokeSingleLevel` and `Interpreter.NestedCallLosesCaller` state what it does |
| Interpreter.Args | interpreter.py:129-131 | the callee's stack, taken by repeated `pop` and `append`, holds the caller's top values with the old top first |
| Interpreter.ArgsReverse | interpreter.py:129-131 | reversing the argument list gives the caller's top n values in stack order |
| Interpreter.Enter | interpreter.py:125-131 | on a call, the suspended register followed by the reversed callee stack is exactly the caller's stack |
| Interpreter.Straight | interpreter.py:64-105 | a straight-line instruction touches neither the suspended register nor the function table; only DUMP prints, and it prints the top without popping it; DIV never completes |
| Interpreter.ReturnFrom | interpreter.py:118-124 | RETURN succeeds exactly inside a function body with a value on the stack; the popped value is appended to the suspended stack, which becomes the live stack; outside a function it raises |
| Interpreter.EvalCondSpec | interpreter.py:29-43 | `evaluate_condition` raises on a non-relation tag, underflows exactly below two values, and otherwise compares the top (left) with the one beneath (right) |
| Interpreter.SubDumpExample | interpreter.py:64-103 | `push 3, push 4, sub, dump` prints 1 and leaves `[1]` |
| Interpreter.DumpTwice | interpreter.py:102-103 | two DUMPs print the same top twice and leave the stack as it was |
| Interpreter.IfSkipsBody | interpreter.py:137-143 | a false IF condition skips the body and resumes after its END with the state unchanged |
| Interpreter.IfRunsBody | interpreter.py:137-143 | a true IF condition runs the body once, not as a function body, then resumes after its END; a fault in the body ends the run |
| Interpreter.WhileFalseRunsNothing | interpreter.py:144-150 | a WHILE whose condition is false at the start runs its body zero times |
| Interpreter.CountdownIterations | interpreter.py:144-150 | `while > do -- end` on `[.., 0, n]` runs its body exactly n times and leaves `[.., 0, 0]`; with less than n units of fuel it runs out |
| Interpreter.BreakEndsBlock | interpreter.py:106-107 | BREAK ends the list being run with the state unchanged |
| Interpreter.BreakDoesNotExitLoop | interpreter.py:144-150 | a WHILE body that starts with BREAK ends each pass without changing the stack, so a true condition never becomes false and the loop does not terminate |
| Interpreter.FunctionRegisters | interpreter.py:108-117 | FUNCTION records its arity and body under its name, replacing any earlier entry, without running the body; it resumes after the END |
| Interpreter.InvokeFaults | interpreter.py:125-136 | CALL of an unregistered name raises "not found"; with fewer values than the arity it underflows |
| Interpreter.InvokeSingleLevel | interpreter.py:125-136 | a call whose body makes no call leaves the caller's stack minus its arguments, plus at most one returned value (none if the body has no RETURN), and clears the suspended register |
| Interpreter.SquareExample | interpreter.py:108-136 | `function sq 1 do dup mul return end 5 call sq` leaves `[25]` |
| Interpreter.NestedCallLosesCaller | interpreter.py:125-136 | the suspended register is shared by all activations: `1`, then a call of f, which calls g (returning 7) and returns, leaves `[7]`, not `[1, 7]` |
| Interpreter.ReturnFaults | interpreter.py:118-124 | RETURN outside a function body raises |
| Interpreter.ReturnInIfBodyFaults | interpreter.py:137-143 | RETURN first in a taken IF body raises even inside a function, because IF bodies never run as function bodies |
| Interpreter.UnhandledOpcodeFaults | interpreter.py:151-152 | END, BEGIN, DO, ELSE and a relation tag raise "Unknown opcode" when they are reached |
| Int32.Wrap | compiler.py:258-259 | the `i32` image of a literal lies in range and differs from it by a multiple of 2^32 |
| Int32.WrapCharacterised | compiler.py:258-259 | wrapping is the identity exactly on in-range values, and it is idempotent |
| Int32.WrapAdd | compiler.py:274-275 | `add` on wrapped operands gives the wrapped exact sum |
| Int32.WrapSub | compiler.py:283-284 | `sub` on wrapped operands gives the wrapped exact difference |
| Int32.WrapMul | compiler.py:285-286 | `mul` on wrapped operands gives the wrapped exact product |
| Int32.WrapBoundary | compiler.py:291-296 | incrementing the largest `i32` gives the least one, and decrementing the least gives the largest |
| Int32.SDivSpec | compiler.py:287-288 | `sdiv` is undefined exactly for a zero divisor or the least value divided by -1; otherwise the quotient fits, and the remainder is smaller than the divisor in magnitude and has the dividend's sign |
| Int32.SDivTruncates | compiler.py:287-288 | `sdiv` rounds toward zero (-7 by 2 is -3), unlike floor division (-4) |
| ArrayStack.PopStack | compiler.py:35-40 | `pop_stack`: decrement the pointer, then load; `ArrayStack.PopRefines` relates it to `list.pop()` |
| ArrayStack.PushStack | compiler.py:47-51 | `push_stack`: store at the pointer, then increment; `ArrayStack.PushRefines` relates it to `list.append` |
| ArrayStack.CopyPop | compiler.py:42-45 | `copy_pop(offset)`: a load at the pointer plus the offset; `ArrayStack.CopyPopRefines` relates it to `stack[-k]` |
| ArrayStack.LoadBottom | compiler.py:53-55 | `pop_bottom`: a load of cell 0 that leaves the pointer alone; its use in FLIP is stated by `NativeCode.NOpFlip` and `NativeCode.FlipSingleIsIdentity` |
| ArrayStack.StoreBottom | compiler.py:57-59 | `push_bottom`: a store to cell 0 that leaves the pointer alone; its use in FLIP is stated by `NativeCode.NOpFlip` |
| ArrayStack.PopRefines | compiler.py:35-40 | `pop_stack` on the array removes and returns the last live value, as `list.pop()` does; on an empty stack it faults |
| ArrayStack.PushRefines | compiler.py:47-51 | `push_stack` appends to the live part exactly while a free cell is left |
| ArrayStack.PushThenPop | compiler.py:35-51 | a pop after a push returns the pushed value and restores the pointer and the live part |
| ArrayStack.CopyPopRefines | compiler.py:42-45 | `copy_pop(-k)` reads `stack[-k]`, and succeeds exactly when k values are live |
| ArrayStack.ViewOnly | compiler.py:35-59 | cells at or above the pointer are unobservable by the helpers: on two arrays with the same live part, `pop_stack`, `copy_pop(-k)` and `push_stack` fail alike, read the same values and leave the same live part, and `pop_bottom` reads the same cell 0 while a value is live |
| Lowering.Lower | compiler.py:258-298 | the opcodes `compile` turns into one instruction each, PUSH keeping the low 32 bits of its literal; `Agreement.LowerStraight` states which they are |
| Lowering.FnAccepts | compiler.py:168-203 | the same opcodes without INCREMENT and DECREMENT, which the loop of `compile_function` has no branch for; `Lowering.FunctionTopRejects` states the rejection |
| Lowering.Header | compiler.py:318-321 | an IF or WHILE header succeeds exactly when a relation tag and a following instruction exist; the body is lowered exactly when that instruction is DO |
| Lowering.LowerSeq | compiler.py:241-347 | `compile` only adds to the function table, never emits a return, and (outside a function) sends no DUMP elsewhere; inside a function's block the redirected DUMPs are prints only |
| Lowering.LowerFunction | compiler.py:118-127 | `compile_function` registers a name that was not registered before, keeps every earlier registration, and emits nothing in place |
| Lowering.LowerFnBody | compiler.py:166-239 | a function body lowers to code that ends in its only return; `Lowering.FnBodyReturn` states which return that is |
| Lowering.LowerFnBranch | compiler.py:209-235 | an IF or WHILE at the top level of a function body lowers to code that ends in its only return, with the body lowered by `compile` and the loop continuing after its END |
| Lowering.FnBodyReturn | compiler.py:166-239 | a function body ends in the return of the popped top exactly when the loop meets a top-level RETURN (stepping over IF and WHILE bodies), and in `ret 0` when it stops at a BREAK or at the end of the body |
| Lowering.Generate | compiler.py:8-31 | the main function ends in its only return, and that return is `ret 0` |
| Lowering.CompileAccepts | compiler.py:291-317 | `compile` accepts INCREMENT, DECREMENT, a CALL of a registered name (passing the callee's parameter count) and FUNCTION of a fresh name; a CALL of an unknown name fails |
| Lowering.FunctionTopRejects | compiler.py:166-237 | the top level of a function body rejects INCREMENT, DECREMENT, CALL and FUNCTION as unknown opcodes |
| Lowering.ReturnContexts | compiler.py:206-208 | RETURN is accepted only at the top level of a function body; in `compile`, including IF and WHILE bodies inside functions, it is an unknown opcode |
| Lowering.FunctionRegistration | compiler.py:118-121 | a FUNCTION whose name is already a global fails; otherwise the name is registered with the next number and `max(argcount, 0)` parameters |
| Lowering.HeaderWithoutDoFails | compiler.py:318-346 | IF or WHILE not followed by DO makes lowering reach the relation tag, which is an unknown opcode |
| Lowering.BreakTruncates | compiler.py:299-300 | in `compile`, when no IF, WHILE or FUNCTION comes before a BREAK, nothing after the BREAK is lowered or checked |
| Lowering.BreakTruncatesBody | compiler.py:204-205 | at the top level of a function body, when no IF or WHILE comes before a BREAK, nothing after the BREAK is lowered or checked |
| Lowering.ReturnTruncates | compiler.py:206-208 | at the top level of a function body, when no IF or WHILE comes before a RETURN, nothing after the RETURN is lowered or checked |
| NativeCode.NOp | compiler.py:258-298 | the builder calls each lowered stack instruction emits, run on the array; the lemmas below relate it to the interpreter |
| NativeCode.NOpViewOnly | compiler.py:258-298 | every lowered stack instruction, FLIP on a single value included, fails alike and leaves the same live part on two arrays with the same live part, so the cells above the pointer are never observed |
| NativeCode.NOpRefines | compiler.py:258-298 | each stack opcode, lowered and run on an array holding the `i32` images of the interpreter's stack with a free cell left, leaves the images of what the interpreter leaves |
| NativeCode.NOpFaultsAgree | compiler.py:258-298 | where the interpreter underflows, the native code faults too, with one exception: FLIP on a single value |
| NativeCode.FlipSingleIsIdentity | compiler.py:276-280 | FLIP on one value raises in the interpreter but leaves the native array unchanged |
| NativeCode.TopShape | compiler.py:272-296 | on the array, POP drops the top, and INCREMENT and DECREMENT replace it with its wrapped successor or predecessor |
| NativeCode.ArithShape | compiler.py:274-286 | on the array, `[.., b, a]` becomes `[.., wrap(a OP b)]` |
| NativeCode.SwapShape | compiler.py:260-264 | on the array, SWAP exchanges the top two |
| NativeCode.RotShape | compiler.py:265-271 | on the array, ROT turns `[.., c, b, a]` into `[.., a, c, b]` |
| NativeCode.NOpFlip | compiler.py:276-280 | where the interpreter's FLIP succeeds, the lowered FLIP on the images leaves the images of its result |
| NativeCode.NOpCopies | compiler.py:281-298 | DUP and OVER copy the interpreter's behaviour on the array, including the underflow |
| NativeCode.CallArgs | compiler.py:307-315 | the call's argument list, popped and then reversed; `NativeCode.CallArgsLayout` states its layout |
| NativeCode.PopArgsLayout | compiler.py:312 | popping n arguments succeeds exactly when n values are live; it lowers the pointer by n and returns them top first |
| NativeCode.CallArgsLayout | compiler.py:307-315 | the argument list of a call is the caller's top n values deepest first, and the caller keeps everything below them |
| NativeCode.EntryLayout | compiler.py:118-127 | a generated function starts with an empty stack whatever it is passed; the corrected entry starts it with its arguments |
| NativeCode.SquareLowers | compiler.py:118-239 | `function sq 1 do dup mul return end` lowers to a one-parameter function DUP, MUL, return of the top |
| NativeCode.SquareBodyReturns | compiler.py:179-208 | that body, run on a stack holding x alone, returns the `i32` square of x |
| NativeCode.RunSeq | compiler.py:241-347 | the run-time meaning of the emitted code: prints, stack instructions, calls, branches and returns, each nested run costing fuel; `NativeCode.SquareBodyReturns` and `Agreement.FlatRuns` state runs of it |
| NativeCode.Execute | compiler.py:8-31 | a module runs `main` on a fresh array; code that falls off its end is malformed; `Agreement.StraightLineAgrees` states its result on flat programs |
| NativeCode.SquareCallAsWritten | compiler.py:118-127 | as generated, a call of the squaring function faults whatever the caller holds: the callee's DUP reads below its empty stack |
| NativeCode.SquareCallCorrected | compiler.py:307-315 | with the parameters pushed on entry, the call replaces the caller's top x by the `i32` square of x |
| Agreement.LowerStraight | compiler.py:258-298 | in the main program, DUMP lowers to a print and every other straight-line opcode lowers to a stack-array instruction |
| Agreement.FlatLowering | compiler.py:255-347 | a flat main program lowers instruction by instruction, registers nothing and redirects nothing |
| Agreement.FlatGenerates | compiler.py:27-31 | the main function of a flat program is its lowered instructions followed by the return of 0 |
| Agreement.FlatStep | compiler.py:258-298 | one straight-line step on both back ends keeps the native stack and output equal to the `i32` images of the interpreter's |
| Agreement.FlatRuns | compiler.py:241-298 | from any index of a flat program, while the array cannot fill up, a run the interpreter completes is matched by the generated main function, which returns 0 having printed the `i32` images of the interpreter's output |
| Agreement.StraightLineAgrees | compiler.py:241-298 | a flat program of fewer than 1024 instructions that the interpreter completes is generated, runs to completion, returns 0, and prints the `i32` images of what the interpreter prints |
| Agreement.ConditionsAgree | compiler.py:61-75 | on an array holding the interpreter's values, the emitted comparison agrees with `evaluate_condition` on every tag, failing exactly when the interpreter's does |
| Agreement.WrapChangesCondition | compiler.py:61-75 | wrap-around changes decisions: above `[0, 2^31]` the interpreter finds `>` true and the native code, seeing -2^31, false |
| Agreement.ArgumentOrder | compiler.py:307-315 | the native call passes the same values the interpreter's callee starts with, but in the opposite order |
| Numerals.ParseInt | definitions.py:207-211 | `int(token)`, None where Python raises; `Numerals.ParseIntSpec` states the grammar it accepts and the value |
| Numerals.ScanGroupSpec | definitions.py:207-211 | the digit scan accepts exactly digit groups (digits with single underscores between them) and computes their value |
| Numerals.ParseIntSpec | definitions.py:207-211 | `int(token)` accepts exactly an optional sign followed by a digit group, and yields the group's value with the sign applied |
| Numerals.ParseShow | definitions.py:207-211 | reading back the decimal rendering of any integer gives that integer |
| Numerals.ParseExamples | definitions.py:207-211 | a bare sign is refused, signs and leading zeros are accepted, and underscores are accepted only between digits |
| Tokenizer.Words | definitions.py:139 | `content.split()`; `Tokenizer.WordsAreWords` and `Tokenizer.WordsJoin` state its result |
| Tokenizer.WordsAreWords | definitions.py:139 | every word of the split is non-empty and has no whitespace, so the `if x` filter keeps them all |
| Tokenizer.WordsJoin | definitions.py:139 | splitting words joined by spaces gives the words back |
| Tokenizer.Keyword | definitions.py:143-206 | the keyword table of `tokenize_file`; `Tokenizer.KeywordSpelling` and `Tokenizer.SpellingKeyword` state that it is a bijection |
| Tokenizer.KeywordSpelling | definitions.py:143-206 | every bare instruction's keyword reads back as that instruction |
| Tokenizer.SpellingKeyword | definitions.py:143-206 | every keyword names a bare instruction whose keyword it is, so the table is a bijection |
| Tokenizer.NumeralIsNoKeyword | definitions.py:143-211 | no rendered integer is a keyword, `call` or `function` |
| Tokenizer.ReadWith | definitions.py:143-211 | one token read against a keyword table (the later one, or slang's at slang.py:249-287): a keyword gives its instruction; any other token is pushed exactly when it is an optionally signed digit group, with the group's value and the sign applied; otherwise the fault is an unknown token naming it |
| Tokenizer.Tokenize | definitions.py:136-214 | the main loop of `tokenize_file`, never producing more instructions than tokens; the lemmas below state how each token is read |
| Tokenizer.TokenizeCall | definitions.py:169-171 | `call` consumes the next word, whatever it is, as the name |
| Tokenizer.TokenizeFunction | definitions.py:186-188 | `function` consumes a name and an integer arity |
| Tokenizer.TokenizeRender | definitions.py:141-214 | reading the tokens of a program gives back the program |
| Tokenizer.TokenizeTextRender | definitions.py:136-214 | a program written as words separated by spaces reads back as the same program |
| Tokenizer.RenderTokenize | definitions.py:141-214 | reading tokens loses only the spelling of integers: writing out what was read gives back the same tokens, apart from how integers were written |
| Tokenizer.TokenizeSignExamples | definitions.py:143-211 | `-` alone is subtraction, `-5` is an integer, and `dump` is no keyword of this reader |
| Tokenizer.TokenizeOperandExamples | definitions.py:169-188 | after `call` even an integer or a keyword is a name; a trailing `call` or `function` has no operand, and a non-integer arity is refused |
| Slang.SlangNumbering | slang.py:4-34 | slang's constants equal the later ones of the same name; its integer constants are exactly 0 to COUNT_OPCODES - 1 |
| Slang.SlangCodesCounted | slang.py:15-34 | each integer below COUNT_OPCODES is the constant of a bare slang kind |
| Slang.Exec | slang.py:95-240 | slang's `simulate` from an index on one shared stack; the lemmas below state what each opcode does in it |
| Slang.Branch | slang.py:123-239 | IF and WHILE: the tag is read first, then a body exists only when BEGIN follows the tag |
| Slang.Body | slang.py:151-237 | the body up to the first END is run once or repeatedly, then the main loop resumes; `Slang.BranchWithBody` states this |
| Slang.Loop | slang.py:203-234 | `while truth: simulate(block)`, the tag re-read after every run; `Slang.Countdown` states how often the body runs |
| Slang.Flat | slang.py:109-122 | PUSH appends its literal, DUMP prints the top without popping it, DIV never completes, and only DUMP prints |
| Slang.Cond | slang.py:123-149 | a relation tag compares the top with the one beneath, and fails only below two values; any other tag reads False |
| Slang.FindEnd | slang.py:151-157 | the body ends at the first END after BEGIN, without regard to nesting; there is none exactly when no END follows |
| Slang.BranchWithBody | slang.py:123-162 | IF and WHILE with a body: the condition is read, the body runs on the shared stack, and the main loop resumes after the END |
| Slang.IfSkips | slang.py:151-162 | a false IF condition skips the body |
| Slang.IfRuns | slang.py:151-162 | a true IF condition runs the body once |
| Slang.NoBodySkips | slang.py:163-165 | IF or WHILE without BEGIN still evaluates its condition and then continues past the tag |
| Slang.NestingUnsupported | slang.py:151-162 | a nested IF inside a body finds no END of its own and faults |
| Slang.WhileNeedsTag | slang.py:166-204 | a WHILE whose tag is not a relation never runs its body |
| Slang.Countdown | slang.py:195-234 | the WHILE tag is checked again after every run: counting the top down to the 0 beneath it by adding -1 takes exactly n runs, and runs out with less than n units of fuel |
| Slang.IfThenRest | slang.py:151-165 | an IF over a body followed by `rest`: with the corrected resumption, all of `rest` runs afterwards; as written, the first instruction of `rest` is skipped |
| Slang.SkipAsWritten | slang.py:159-165 | as written, `1 1 if == begin end 7 dump` and `1 1 if == 7 dump` print 1, skipping the 7 |
| Slang.SkipCorrected | slang.py:159-165 | with the corrected resumption, both programs print 7 |
| Slang.FlatAgrees | slang.py:106-122 | on programs of PUSH, POP, ADD, SUB, MUL, DIV and DUMP, slang's simulator and the later interpreter give the same faults, stack and output |
| Slang.CondAgrees | slang.py:123-149 | on a relation tag both simulators decide alike; on any other tag slang reads False where the later interpreter raises |
| Slang.UnknownOpcodes | slang.py:238-239 | DUP, BREAK and a stray END are unknown to slang's simulator |
| Slang.Keyword | slang.py:248-282 | the keyword table of `compile_file`; `Slang.KeywordSpelling`, `Slang.SpellingKeyword` and `Slang.ReadersDiffer` state it |
| Slang.KeywordSpelling | slang.py:248-282 | every spelled slang instruction's word reads back as that instruction |
| Slang.SpellingKeyword | slang.py:248-282 | every slang word names the instruction whose spelling it is |
| Slang.Compile | slang.py:247-288 | `compile_file` succeeds exactly when every token is readable, and then gives one instruction per token, each read on its own; otherwise the fault names the first unreadable token |
| Slang.CompiledSpelled | slang.py:247-288 | no compiled program contains DUP or BREAK |
| Slang.NumeralIsNoKeyword | slang.py:283-287 | no rendered integer is a slang keyword |
| Slang.CompileRender | slang.py:247-288 | reading the tokens of a slang program gives back the program |
| Slang.ReadRendered | slang.py:249-287 | the word of each readable instruction reads back as that instruction |
| Slang.ReadersDiffer | slang.py:248-282 | the two readers share `if`, `begin`, `end`, `while` and the relations but spell arithmetic and printing differently |

## Left out

- File reading (`open`/`read` in `tokenize_file` and `compile_file`), `print`, the command line of `slang.py`, and `compile_to_executable` (writing `temp.ll`, running `clang`, deleting files). These are I/O or calls into external tools. The file content is a parameter and printed values are an output sequence.
- The output already printed when a run later fails. A failed run returns only its fault.
- The LLVM IR itself. Basic blocks, `alloca`s, the `printf` format string and its `bitcast`, and llvmlite's builder are abstracted to the structured `LInstr` code and its run-time semantics.
- The uninitialised contents of a fresh `alloca`. Cells start at zero. `NativeCode.NOpViewOnly` shows that no lowered stack instruction observes cells at or above the pointer, so their first contents do not matter.
- The float quotient of Python `/`. DIV ends the integer model in both Python simulators with `FloatQuotient`, or with `DivisionByZero` for a zero divisor.
- Non-termination. Every nested run and call costs fuel, so the model cannot express that a program runs forever; it reports `OutOfFuel` instead.
- Numerals.ParseInt, Numerals.ParseIntSpec: the limit of recent CPython releases on converting between `int` and decimal strings (4300 digits by default, `sys.set_int_max_str_digits`) is not modelled. Such a token is read, and DUMP of such a value prints it, where those releases raise `ValueError`. The limit depends on the Python release and its configuration, so the model follows the language's unbounded integers.
- Python's recursion limit, and the `call_stack` global of interpreter.py, which is never used.
- Unicode. `str.split()` whitespace beyond ASCII, and `int()` on non-ASCII digits or with surrounding whitespace. Tokens never contain whitespace.
- The second `"."` branch of `tokenize_file` and the second `"dump"` branch of `compile_file`. Each follows an identical earlier test and is unreachable.
- The 32-bit stack pointer itself. It stays within 0 to 1024 in the model, since any access beyond the array already faults.
- Interpreter.InvokeSingleLevel: proved only for callee bodies that make no call. With nested calls the source itself loses the caller's stack (`Interpreter.NestedCallLosesCaller`).
- Agreement.StraightLineAgrees and Agreement.FlatRuns: proved for flat programs (stack opcodes, PUSH and DUMP) of fewer than 1024 instructions. Control flow and calls differ between the back ends (see `Agreement.ArgumentOrder` and `NativeCode.SquareCallAsWritten`), and wrap-around can change branch decisions (`Agreement.WrapChangesCondition`).

## Findings

| source | as written | input that shows it | evidently intended | confidence | as-written member | corrected member |
|---|---|---|---|---|---|---|
| compiler.py:118-127 | `compile_function` declares `argcount` `i32` parameters, but its code starts on a fresh stack array with pointer 0 and never reads them | `function sq 1 do dup mul return end 5 call sq .` — the callee's DUP reads cell -1 of its empty array | the callee starts with its arguments on its stack, as in the interpreter | not executed | NativeCode.SquareCallAsWritten | NativeCode.SquareCallCorrected |
| slang.py:159-165 | after IF or WHILE, `i = j + 1` (or `i += 2`) and then the shared `i += 1` advance one instruction too far | `1 1 if == begin end 7 dump` prints 1: the `7` is skipped | execution resumes right after the END (or after the tag), printing 7 | not executed | Slang.SkipAsWritten | Slang.SkipCorrected |
