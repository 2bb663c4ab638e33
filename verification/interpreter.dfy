/** The current interpreter (interpreter.py, `simulate`). The source keeps
    its operand stack, the suspended caller stack and the function table in
    module globals; here they are the fields of an explicit `VM` value that
    every step takes and returns. CALL and RETURN move values through the
    `suspended` register exactly as the globals do, so the model also shows
    what that register does to nested calls. */
module Interpreter {
  import opened Outcomes
  import opened Opcodes
  import opened Blocks
  import opened StackOps

  /** A function-table entry: the declared argument count and the body. */
  datatype Fn = Fn(arity: int, body: seq<Instr>)

  /** The interpreter state: the live operand stack, the suspended stack of
      the caller of the running function, the function table, and the values
      DUMP has printed, in order. */
  datatype VM = VM(stack: seq<int>, suspended: seq<int>, functions: map<string, Fn>, output: seq<int>)

  /** A fresh interpreter: empty stacks, no functions, nothing printed. */
  const Initial: VM := VM([], [], map[], [])

  /** `evaluate_condition`: an unknown tag raises; otherwise reads, without
      popping, the top and the element beneath it and applies the tag's
      relation as `top OP second`. */
  function EvalCond(tag: Instr, s: seq<int>): Result<bool> {
    if !IsCondition(tag) then Err(UnknownCondition)
    else
      var top :- Peek(s, 1);
      var second :- Peek(s, 2);
      Ok(Holds(tag, top, second))
  }

  /** The callee's initial stack: `arity` values popped from the caller one
      at a time and appended, so the caller's old top lands at index 0. */
  function Args(s: seq<int>, n: nat): (args: seq<int>)
    requires n <= |s|
    ensures |args| == n
    ensures forall j :: 0 <= j < n ==> args[j] == s[|s| - 1 - j]
  {
    if n == 0 then [] else [s[|s| - 1]] + Args(s[..|s| - 1], n - 1)
  }

  /** The elements of `s` in the opposite order. */
  function Reverse(s: seq<int>): (r: seq<int>)
    ensures |r| == |s|
    ensures forall j :: 0 <= j < |s| ==> r[j] == s[|s| - 1 - j]
  {
    if s == [] then [] else Reverse(s[1..]) + [s[0]]
  }

  /** The arguments are the top `n` values of the caller, reversed. */
  lemma ArgsReverse(s: seq<int>, n: nat)
    requires n <= |s|
    ensures Reverse(Args(s, n)) == s[|s| - n..]
  {
  }

  /** `range(number_of_args)` runs no iteration for a negative count. */
  function Arity(f: Fn): nat {
    if f.arity < 0 then 0 else f.arity
  }

  /** The instructions that act on the state without transferring control:
      the stack opcodes, PUSH, DIV and DUMP. */
  predicate IsStraight(op: Instr) {
    IsStackOp(op) || op.Push? || op.Div? || op.Dump?
  }

  /** One straight-line instruction: a stack opcode reshapes the stack, PUSH
      appends its literal, DUMP prints the top without popping it, and DIV
      always ends the integer model with a fault. */
  function Straight(op: Instr, vm: VM): (r: Result<VM>)
    requires IsStraight(op)
    ensures r.Ok? ==> r.value.suspended == vm.suspended && r.value.functions == vm.functions
    ensures r.Ok? && !op.Dump? ==> r.value.output == vm.output
    ensures r.Ok? && op.Dump? ==> |vm.stack| > 0 && r.value.stack == vm.stack && r.value.output == vm.output + [vm.stack[|vm.stack| - 1]]
    ensures op.Div? ==> r.Err?
  {
    if IsStackOp(op) then
      var s :- StackOp(op, vm.stack);
      Ok(vm.(stack := s))
    else
      match op
      case Push(n) => Ok(vm.(stack := vm.stack + [n]))
      case Div => Err(DivFault(vm.stack))
      case Dump =>
        var top :- Peek(vm.stack, 1);
        Ok(vm.(output := vm.output + [top]))
  }

  /** `simulate(program, using_functions)` continued from index `i`.
      `inFunction` is the `using_functions` flag: true only for a function
      body run by CALL, never for the body of an IF or WHILE. Each nested
      run of a body costs one unit of `fuel`. */
  function Exec(fuel: nat, p: seq<Instr>, i: nat, inFunction: bool, vm: VM): Result<VM>
    decreases fuel, 1, |p| - i, 1
  {
    if i >= |p| then Ok(vm)
    else
      var op := p[i];
      if IsStraight(op) then
        var next :- Straight(op, vm);
        Exec(fuel, p, i + 1, inFunction, next)
      else if op.Break? then Ok(vm)
      else if op.Return? then ReturnFrom(inFunction, vm)
      else if op.Function? then
        var (body, k) := ExtractBlock(p, i + 2);
        Exec(fuel, p, k + 1, inFunction, vm.(functions := vm.functions[op.name := Fn(op.arity, body)]))
      else if op.Call? then
        var after :- Invoke(fuel, op.name, vm);
        Exec(fuel, p, i + 1, inFunction, after)
      else if op.If? || op.While? then Branch(fuel, p, i, inFunction, vm)
      else Err(UnknownOpcode)
  }

  /** RETURN: only legal in a function body; pops the result onto the
      suspended caller stack, which becomes the live stack, and ends the
      body. */
  function ReturnFrom(inFunction: bool, vm: VM): (r: Result<VM>)
    ensures r.Ok? <==> inFunction && |vm.stack| > 0
    ensures !inFunction ==> r == Err(ReturnOutsideFunction)
    ensures r.Ok? ==> r.value.stack == r.value.suspended == vm.suspended + [vm.stack[|vm.stack| - 1]]
    ensures r.Ok? ==> r.value.functions == vm.functions && r.value.output == vm.output
  {
    if !inFunction then Err(ReturnOutsideFunction)
    else
      var top :- PopTop(vm.stack);
      var resumed := vm.suspended + [top.value];
      Ok(vm.(suspended := resumed, stack := resumed))
  }

  /** IF and WHILE: read the condition tag after the opener, find the body
      that starts after the tag and its `do`, run it once or repeatedly, and
      resume after the body's `end`. */
  function Branch(fuel: nat, p: seq<Instr>, i: nat, inFunction: bool, vm: VM): Result<VM>
    requires i < |p| && (p[i].If? || p[i].While?)
    decreases fuel, 1, |p| - i, 0
  {
    if i + 1 >= |p| then Err(MissingInstruction)
    else
      var (body, k) := ExtractBlock(p, i + 3);
      var after :- if p[i].If? then Once(fuel, p[i + 1], body, vm) else Loop(fuel, p[i + 1], body, vm);
      Exec(fuel, p, k + 1, inFunction, after)
  }

  /** `if evaluate_condition(...): simulate(block)`. */
  function Once(fuel: nat, tag: Instr, body: seq<Instr>, vm: VM): Result<VM>
    decreases fuel, 0, 0, 0
  {
    var truth :- EvalCond(tag, vm.stack);
    if !truth then Ok(vm)
    else if fuel == 0 then Err(OutOfFuel)
    else Exec(fuel - 1, body, 0, false, vm)
  }

  /** `while evaluate_condition(...): simulate(block)`: the condition is
      checked before every run of the body. */
  function Loop(fuel: nat, tag: Instr, body: seq<Instr>, vm: VM): Result<VM>
    decreases fuel, 0, 0, 0
  {
    var truth :- EvalCond(tag, vm.stack);
    if !truth then Ok(vm)
    else if fuel == 0 then Err(OutOfFuel)
    else
      var after :- Exec(fuel - 1, body, 0, false, vm);
      Loop(fuel - 1, tag, body, after)
  }

  /** CALL: the current stack becomes the suspended one, the arguments are
      popped from it into a fresh stack, the body runs as a function, and
      afterwards whatever the suspended register holds becomes the stack
      again while the register is cleared. */
  function Invoke(fuel: nat, name: string, vm: VM): Result<VM>
    decreases fuel, 0, 0, 0
  {
    if name !in vm.functions then Err(FunctionNotFound(name))
    else
      var f := vm.functions[name];
      var n := Arity(f);
      if |vm.stack| < n then Err(StackUnderflow)
      else if fuel == 0 then Err(OutOfFuel)
      else
        var done :- Exec(fuel - 1, f.body, 0, true, Enter(vm, n));
        Ok(Leave(done))
  }

  /** The callee's state on entry: the caller's stack minus `n` arguments is
      suspended and the arguments, old top first, form the new stack. */
  function Enter(vm: VM, n: nat): (callee: VM)
    requires n <= |vm.stack|
    ensures callee.suspended + Reverse(callee.stack) == vm.stack
    ensures callee.functions == vm.functions && callee.output == vm.output
  {
    ArgsReverse(vm.stack, n);
    assert vm.stack == vm.stack[..|vm.stack| - n] + vm.stack[|vm.stack| - n..];
    vm.(suspended := vm.stack[..|vm.stack| - n], stack := Args(vm.stack, n))
  }

  /** The caller's state after the body: the suspended register becomes the
      stack and is cleared. */
  function Leave(done: VM): VM {
    done.(stack := done.suspended, suspended := [])
  }

  /** A top-level run of a program. */
  function Run(fuel: nat, p: seq<Instr>, vm: VM): Result<VM> {
    Exec(fuel, p, 0, false, vm)
  }

  // ---------------------------------------------------------------------
  // Conditions

  /** The condition fails on an unknown tag, and otherwise exactly when
      fewer than two values are present; it compares the top with the
      element beneath it, in that order. */
  lemma EvalCondSpec(tag: Instr, s: seq<int>)
    ensures EvalCond(tag, s).Ok? <==> IsCondition(tag) && |s| >= 2
    ensures !IsCondition(tag) ==> EvalCond(tag, s) == Err(UnknownCondition)
    ensures IsCondition(tag) && |s| < 2 ==> EvalCond(tag, s) == Err(StackUnderflow)
    ensures EvalCond(tag, s).Ok? ==> EvalCond(tag, s).value == Holds(tag, s[|s| - 1], s[|s| - 2])
  {
  }

  // ---------------------------------------------------------------------
  // Straight-line instructions

  /** A stack opcode transforms the stack and execution goes on with the
      next instruction; PUSH appends its literal; DUMP prints the top and
      leaves the stack as it is. */
  lemma StepStackOp(fuel: nat, p: seq<Instr>, i: nat, inFunction: bool, vm: VM)
    requires i < |p|
    ensures IsStackOp(p[i]) ==>
      (Exec(fuel, p, i, inFunction, vm) ==
       match StackOp(p[i], vm.stack)
       case Ok(s) => Exec(fuel, p, i + 1, inFunction, vm.(stack := s))
       case Err(f) => Err(f))
    ensures p[i].Push? ==>
      Exec(fuel, p, i, inFunction, vm) == Exec(fuel, p, i + 1, inFunction, vm.(stack := vm.stack + [p[i].n]))
    ensures p[i].Dump? && |vm.stack| > 0 ==>
      Exec(fuel, p, i, inFunction, vm) ==
      Exec(fuel, p, i + 1, inFunction, vm.(output := vm.output + [vm.stack[|vm.stack| - 1]]))
  {
  }

  /** `[push 3, push 4, sub, dump]` prints 1 and leaves `[1]`. */
  lemma SubDumpExample(fuel: nat)
    ensures Run(fuel, [Push(3), Push(4), Sub, Dump], Initial) == Ok(VM([1], [], map[], [1]))
  {
    var p := [Push(3), Push(4), Sub, Dump];
    var vm0 := Initial;
    var vm1 := VM([3], [], map[], []);
    var vm2 := VM([3, 4], [], map[], []);
    var vm3 := VM([1], [], map[], []);
    var vm4 := VM([1], [], map[], [1]);
    assert [] + [3] == [3] && [3] + [4] == [3, 4];
    SubExample();
    assert Exec(fuel, p, 4, false, vm4) == Ok(vm4);
    StepStackOp(fuel, p, 3, false, vm3);
    StepStackOp(fuel, p, 2, false, vm2);
    StepStackOp(fuel, p, 1, false, vm1);
    StepStackOp(fuel, p, 0, false, vm0);
  }

  /** DUMP twice on an unchanged stack prints the same value twice and keeps
      the stack depth. */
  lemma DumpTwice(fuel: nat, p: seq<Instr>, i: nat, inFunction: bool, vm: VM)
    requires i + 1 < |p| && p[i].Dump? && p[i + 1].Dump? && |vm.stack| > 0
    ensures var top := vm.stack[|vm.stack| - 1];
      Exec(fuel, p, i, inFunction, vm) ==
      Exec(fuel, p, i + 2, inFunction, vm.(output := vm.output + [top, top]))
  {
    var top := vm.stack[|vm.stack| - 1];
    assert vm.output + [top] + [top] == vm.output + [top, top];
  }

  // ---------------------------------------------------------------------
  // Control flow

  /** IF with a false condition skips its body: execution resumes after the
      body's `end` with the state untouched. */
  lemma IfSkipsBody(fuel: nat, p: seq<Instr>, i: nat, inFunction: bool, vm: VM)
    requires i + 1 < |p| && p[i].If?
    requires EvalCond(p[i + 1], vm.stack) == Ok(false)
    ensures Exec(fuel, p, i, inFunction, vm) ==
      Exec(fuel, p, ExtractBlock(p, i + 3).1 + 1, inFunction, vm)
  {
    var body := ExtractBlock(p, i + 3).0;
    assert Once(fuel, p[i + 1], body, vm) == Ok(vm);
    assert Exec(fuel, p, i, inFunction, vm) == Branch(fuel, p, i, inFunction, vm);
  }

  /** IF with a true condition runs `p[i+3..k)` once, not as a function
      body, and then resumes at `k + 1`. */
  lemma IfRunsBody(fuel: nat, p: seq<Instr>, i: nat, inFunction: bool, vm: VM)
    requires i + 1 < |p| && p[i].If? && fuel > 0
    requires EvalCond(p[i + 1], vm.stack) == Ok(true)
    ensures var (body, k) := ExtractBlock(p, i + 3);
      Exec(fuel, p, i, inFunction, vm) ==
      match Exec(fuel - 1, body, 0, false, vm)
      case Ok(after) => Exec(fuel, p, k + 1, inFunction, after)
      case Err(f) => Err(f)
  {
    var body := ExtractBlock(p, i + 3).0;
    assert Once(fuel, p[i + 1], body, vm) == Exec(fuel - 1, body, 0, false, vm);
    assert Exec(fuel, p, i, inFunction, vm) == Branch(fuel, p, i, inFunction, vm);
  }

  /** WHILE with a false initial condition runs its body zero times. */
  lemma WhileFalseRunsNothing(fuel: nat, tag: Instr, body: seq<Instr>, vm: VM)
    requires EvalCond(tag, vm.stack) == Ok(false)
    ensures Loop(fuel, tag, body, vm) == Ok(vm)
  {
  }

  /** A countdown: with `[.., 0, n]` on the stack, `while > do -- end` runs its
      body exactly `n` times, so it finishes precisely when at least `n`
      units of fuel are available. */
  lemma {:induction false} CountdownIterations(fuel: nat, n: nat, s: seq<int>, vm: VM)
    requires vm.stack == s + [0, n]
    ensures Loop(fuel, IsGrt, [Decrement], vm) ==
      (if fuel >= n then Ok(vm.(stack := s + [0, 0])) else Err(OutOfFuel))
  {
    EvalCondSpec(IsGrt, vm.stack);
    if n > 0 && fuel > 0 {
      ShaperShapes(s + [0], 0, 0, n);
      assert s + [0] + [n] == s + [0, n];
      assert s + [0] + [n - 1] == s + [0, n - 1];
      var after := vm.(stack := s + [0, n - 1]);
      assert Exec(fuel - 1, [Decrement], 0, false, vm) == Exec(fuel - 1, [Decrement], 1, false, after);
      CountdownIterations(fuel - 1, n - 1, s, after);
    }
  }

  /** BREAK ends the block being run, and only that block. */
  lemma BreakEndsBlock(fuel: nat, p: seq<Instr>, i: nat, inFunction: bool, vm: VM)
    requires i < |p| && p[i].Break?
    ensures Exec(fuel, p, i, inFunction, vm) == Ok(vm)
  {
  }

  /** BREAK does not leave a WHILE loop: a body that starts with BREAK ends
      each pass unchanged, the condition stays true, and the loop never
      finishes however much fuel it is given. */
  lemma {:induction false} BreakDoesNotExitLoop(fuel: nat, tag: Instr, body: seq<Instr>, vm: VM)
    requires |body| > 0 && body[0].Break?
    requires EvalCond(tag, vm.stack) == Ok(true)
    ensures Loop(fuel, tag, body, vm) == Err(OutOfFuel)
  {
    if fuel > 0 {
      BreakEndsBlock(fuel - 1, body, 0, false, vm);
      BreakDoesNotExitLoop(fuel - 1, tag, body, vm);
    }
  }

  // ---------------------------------------------------------------------
  // Functions

  /** FUNCTION records `(arity, body)` under its name, replacing any earlier
      entry, without running the body or touching the stack, and resumes
      after the body's `end`. */
  lemma FunctionRegisters(fuel: nat, p: seq<Instr>, i: nat, inFunction: bool, vm: VM)
    requires i < |p| && p[i].Function?
    ensures var (body, k) := ExtractBlock(p, i + 2);
      Exec(fuel, p, i, inFunction, vm) ==
      Exec(fuel, p, k + 1, inFunction, vm.(functions := vm.functions[p[i].name := Fn(p[i].arity, body)]))
  {
  }

  /** A CALL to an unregistered name raises, and so does a CALL with fewer
      values on the stack than the callee's arity. */
  lemma InvokeFaults(fuel: nat, name: string, vm: VM)
    ensures name !in vm.functions ==> Invoke(fuel, name, vm) == Err(FunctionNotFound(name))
    ensures name in vm.functions && |vm.stack| < Arity(vm.functions[name]) ==>
      Invoke(fuel, name, vm) == Err(StackUnderflow)
  {
  }

  /** No CALL anywhere in the instructions. */
  predicate CallFree(p: seq<Instr>) {
    forall j :: 0 <= j < |p| ==> !p[j].Call?
  }

  /** No RETURN anywhere in the instructions. */
  predicate ReturnFree(p: seq<Instr>) {
    forall j :: 0 <= j < |p| ==> !p[j].Return?
  }

  lemma BlockInherits(p: seq<Instr>, s: nat)
    ensures CallFree(p) ==> CallFree(ExtractBlock(p, s).0)
    ensures ReturnFree(p) ==> ReturnFree(ExtractBlock(p, s).0)
  {
  }

  /** What a run without CALL does to the suspended register: it leaves it
      alone, except that a RETURN in a function body appends one value to it
      and makes the result the live stack. */
  ghost predicate SuspendedKept(vm: VM, r: VM, inFunction: bool, returnFree: bool) {
    || r.suspended == vm.suspended
    || (&& inFunction && !returnFree
        && |r.suspended| == |vm.suspended| + 1
        && r.suspended[..|vm.suspended|] == vm.suspended
        && r.stack == r.suspended)
  }

  lemma {:induction false} ExecKeepsSuspended(fuel: nat, p: seq<Instr>, i: nat, inFunction: bool, vm: VM)
    requires CallFree(p)
    ensures Exec(fuel, p, i, inFunction, vm).Ok? ==>
      SuspendedKept(vm, Exec(fuel, p, i, inFunction, vm).value, inFunction, ReturnFree(p))
    decreases fuel, 1, |p| - i, 1
  {
    if i < |p| {
      var op := p[i];
      if IsStraight(op) {
        match Straight(op, vm)
        case Ok(next) => ExecKeepsSuspended(fuel, p, i + 1, inFunction, next);
        case Err(_) =>
      } else if op.Return? {
        assert !ReturnFree(p);
      } else if op.Function? {
        var (body, k) := ExtractBlock(p, i + 2);
        ExecKeepsSuspended(fuel, p, k + 1, inFunction, vm.(functions := vm.functions[op.name := Fn(op.arity, body)]));
      } else if op.If? || op.While? {
        BranchKeepsSuspended(fuel, p, i, inFunction, vm);
      }
    }
  }

  lemma {:induction false} BranchKeepsSuspended(fuel: nat, p: seq<Instr>, i: nat, inFunction: bool, vm: VM)
    requires CallFree(p) && i < |p| && (p[i].If? || p[i].While?)
    ensures Branch(fuel, p, i, inFunction, vm).Ok? ==>
      SuspendedKept(vm, Branch(fuel, p, i, inFunction, vm).value, inFunction, ReturnFree(p))
    decreases fuel, 1, |p| - i, 0
  {
    if i + 1 < |p| {
      var (body, k) := ExtractBlock(p, i + 3);
      BlockInherits(p, i + 3);
      var inner := if p[i].If? then Once(fuel, p[i + 1], body, vm) else Loop(fuel, p[i + 1], body, vm);
      if p[i].If? {
        OnceKeepsSuspended(fuel, p[i + 1], body, vm);
      } else {
        LoopKeepsSuspended(fuel, p[i + 1], body, vm);
      }
      if inner.Ok? {
        ExecKeepsSuspended(fuel, p, k + 1, inFunction, inner.value);
      }
    }
  }

  lemma {:induction false} OnceKeepsSuspended(fuel: nat, tag: Instr, body: seq<Instr>, vm: VM)
    requires CallFree(body)
    ensures Once(fuel, tag, body, vm).Ok? ==> Once(fuel, tag, body, vm).value.suspended == vm.suspended
    decreases fuel, 0, 0, 0
  {
    if fuel > 0 {
      ExecKeepsSuspended(fuel - 1, body, 0, false, vm);
    }
  }

  lemma {:induction false} LoopKeepsSuspended(fuel: nat, tag: Instr, body: seq<Instr>, vm: VM)
    requires CallFree(body)
    ensures Loop(fuel, tag, body, vm).Ok? ==> Loop(fuel, tag, body, vm).value.suspended == vm.suspended
    decreases fuel, 0, 0, 0
  {
    if fuel > 0 {
      ExecKeepsSuspended(fuel - 1, body, 0, false, vm);
      var r := Exec(fuel - 1, body, 0, false, vm);
      if r.Ok? {
        LoopKeepsSuspended(fuel - 1, tag, body, r.value);
      }
    }
  }

  /** A call whose body makes no further call behaves as a call frame: the
      caller's stack minus the arguments is restored, with exactly one value
      added when the body ended by RETURN and none otherwise; the suspended
      register is cleared. A body with no RETURN adds nothing. */
  lemma InvokeSingleLevel(fuel: nat, name: string, vm: VM)
    requires name in vm.functions && CallFree(vm.functions[name].body)
    requires Invoke(fuel, name, vm).Ok?
    ensures var r := Invoke(fuel, name, vm).value;
      var rest := vm.stack[..|vm.stack| - Arity(vm.functions[name])];
      && r.suspended == []
      && (|| r.stack == rest
          || (|r.stack| == |rest| + 1 && r.stack[..|rest|] == rest))
      && (ReturnFree(vm.functions[name].body) ==> r.stack == rest)
  {
    var f := vm.functions[name];
    var n := Arity(f);
    var callee := vm.(suspended := vm.stack[..|vm.stack| - n], stack := Args(vm.stack, n));
    ExecKeepsSuspended(fuel - 1, f.body, 0, true, callee);
  }

  /** CALL runs the callee and resumes with the state it leaves. */
  lemma StepCall(fuel: nat, p: seq<Instr>, i: nat, inFunction: bool, vm: VM)
    requires i < |p| && p[i].Call?
    ensures Exec(fuel, p, i, inFunction, vm) ==
      match Invoke(fuel, p[i].name, vm)
      case Ok(after) => Exec(fuel, p, i + 1, inFunction, after)
      case Err(f) => Err(f)
  {
  }

  /** A call that finds its function and enough arguments runs the body as
      a function on the entry state and hands back the suspended stack. */
  lemma InvokeRuns(fuel: nat, name: string, vm: VM)
    requires name in vm.functions && |vm.stack| >= Arity(vm.functions[name]) && fuel > 0
    ensures Invoke(fuel, name, vm) ==
      match Exec(fuel - 1, vm.functions[name].body, 0, true, Enter(vm, Arity(vm.functions[name])))
      case Ok(done) => Ok(Leave(done))
      case Err(f) => Err(f)
  {
  }

  /** The body of `sq` run as a function on `[5]` returns `[25]`. */
  lemma SquareBody(body: seq<Instr>, table: map<string, Fn>)
    requires body == [Dup, Mul, Return]
    ensures Exec(0, body, 0, true, VM([5], [], table, [])) == Ok(VM([25], [25], table, []))
  {
    var c0 := VM([5], [], table, []);
    var c1 := VM([5, 5], [], table, []);
    var c2 := VM([25], [], table, []);
    assert Exec(0, body, 0, true, c0) == Exec(0, body, 1, true, c1) by {
      ShaperShapes([], 0, 0, 5);
      assert [] + [5] == [5] && [] + [5, 5] == [5, 5];
      StepStackOp(0, body, 0, true, c0);
    }
    assert Exec(0, body, 1, true, c1) == Exec(0, body, 2, true, c2) by {
      ArithmeticShapes([], 5, 5);
      assert [] + [5, 5] == [5, 5] && [] + [25] == [25];
      StepStackOp(0, body, 1, true, c1);
    }
    assert [25][..0] == [] && [] + [25] == [25];
    assert Exec(0, body, 2, true, c2) == Ok(VM([25], [25], table, []));
  }

  /** `call sq` on `[5]` resumes the caller with `[25]`. */
  lemma SquareCall(body: seq<Instr>, table: map<string, Fn>)
    requires body == [Dup, Mul, Return] && table == map["sq" := Fn(1, body)]
    ensures Invoke(1, "sq", VM([5], [], table, [])) == Ok(VM([25], [], table, []))
  {
    var vm := VM([5], [], table, []);
    SquareBody(body, table);
    InvokeRuns(1, "sq", vm);
    assert Enter(vm, 1) == vm by {
      assert Args([5], 1) == [5];
      assert [5][..0] == [];
    }
  }

  /** The squaring example: `function sq 1 do dup mul return end`, then
      `5 call sq`, leaves 25 on the resumed caller stack. */
  lemma SquareExample(p: seq<Instr>)
    requires p == [Function("sq", 1), Do, Dup, Mul, Return, End, Push(5), Call("sq")]
    ensures Run(1, p, Initial) == Ok(VM([25], [], map["sq" := Fn(1, [Dup, Mul, Return])], []))
  {
    var body := [Dup, Mul, Return];
    var table := map["sq" := Fn(1, body)];
    var vm1 := VM([], [], table, []);
    var vm2 := VM([5], [], table, []);
    var res := VM([25], [], table, []);
    assert Exec(1, p, 6, false, vm1) == Ok(res) by {
      SquareCall(body, table);
      StepCall(1, p, 7, false, vm2);
      assert Exec(1, p, 8, false, res) == Ok(res);
      assert [] + [5] == [5];
      StepStackOp(1, p, 6, false, vm1);
    }
    assert ExtractBlock(p, 2) == (body, 5) by {
      assert ScanEnd(p, 5, 0) == 5;
      assert ScanEnd(p, 4, 0) == 5;
      assert ScanEnd(p, 3, 0) == 5;
      assert ScanEnd(p, 2, 0) == 5;
      assert p[2..5] == body;
    }
    FunctionRegisters(1, p, 0, false, Initial);
  }

  /** `g` (push 7, return), called from inside `f` when the suspended
      register still holds the main program's `[1]`: the call overwrites
      the register with `f`'s empty stack, so `g` hands back `[7]` alone. */
  lemma NestedInner(g: seq<Instr>, table: map<string, Fn>)
    requires g == [Push(7), Return] && "g" in table && table["g"] == Fn(0, g)
    ensures Invoke(1, "g", VM([], [1], table, [])) == Ok(VM([7], [], table, []))
  {
    var inF := VM([], [1], table, []);
    var inG := VM([], [], table, []);
    var res := VM([7], [], table, []);
    assert Enter(inF, 0) == inG by {
      assert Args([], 0) == [];
    }
    assert Exec(0, g, 0, true, inG) == Exec(0, g, 1, true, res) by {
      assert [] + [7] == [7];
      StepStackOp(0, g, 0, true, inG);
    }
    assert [7][..0] == [] && [] + [7] == [7];
    assert Exec(0, g, 1, true, res) == Ok(VM([7], [7], table, []));
    InvokeRuns(1, "g", inF);
  }

  /** `f` (call g, return) called on `[1]`: it returns 7 onto the register
      that `g`'s call left holding `[]`, not onto the caller's `[1]`. */
  lemma NestedOuter(f: seq<Instr>, g: seq<Instr>, table: map<string, Fn>)
    requires f == [Call("g"), Return] && g == [Push(7), Return]
    requires table == map["g" := Fn(0, g), "f" := Fn(0, f)]
    ensures Invoke(2, "f", VM([1], [], table, [])) == Ok(VM([7], [], table, []))
  {
    var vm := VM([1], [], table, []);
    var inF := VM([], [1], table, []);
    var res := VM([7], [], table, []);
    NestedInner(g, table);
    assert Enter(vm, 0) == inF by {
      assert Args([1], 0) == [] && [1][..1] == [1];
    }
    StepCall(1, f, 0, true, inF);
    assert [7][..0] == [] && [] + [7] == [7];
    assert Exec(1, f, 1, true, res) == Ok(VM([7], [7], table, []));
    InvokeRuns(2, "f", vm);
  }

  /** The suspended register is shared by every activation: when a function
      itself calls a function, its own caller's stack is lost. Here the main
      program pushes 1 and calls `f`, which calls `g` (returning 7) and
      returns that value; the caller ends with `[7]` instead of `[1, 7]`. */
  lemma NestedCallLosesCaller(p: seq<Instr>)
    requires p == [Function("g", 0), Do, Push(7), Return, End,
                   Function("f", 0), Do, Call("g"), Return, End,
                   Push(1), Call("f")]
    ensures Run(2, p, Initial).Ok? && Run(2, p, Initial).value.stack == [7]
  {
    var g := [Push(7), Return];
    var f := [Call("g"), Return];
    var table1 := map["g" := Fn(0, g)];
    var table := table1["f" := Fn(0, f)];
    var vm1 := VM([], [], table1, []);
    var vm2 := VM([], [], table, []);
    var vm3 := VM([1], [], table, []);
    var res := VM([7], [], table, []);
    assert Exec(2, p, 10, false, vm2) == Ok(res) by {
      NestedOuter(f, g, table);
      StepCall(2, p, 11, false, vm3);
      assert Exec(2, p, 12, false, res) == Ok(res);
      assert [] + [1] == [1];
      StepStackOp(2, p, 10, false, vm2);
    }
    assert ExtractBlock(p, 2) == (g, 4) by {
      assert ScanEnd(p, 4, 0) == 4;
      assert ScanEnd(p, 3, 0) == 4;
      assert ScanEnd(p, 2, 0) == 4;
      assert p[2..4] == g;
    }
    assert ExtractBlock(p, 7) == (f, 9) by {
      assert ScanEnd(p, 9, 0) == 9;
      assert ScanEnd(p, 8, 0) == 9;
      assert ScanEnd(p, 7, 0) == 9;
      assert p[7..9] == f;
    }
    FunctionRegisters(2, p, 5, false, vm1);
    FunctionRegisters(2, p, 0, false, Initial);
  }

  // ---------------------------------------------------------------------
  // Faults

  /** RETURN outside a function body raises. */
  lemma ReturnFaults(fuel: nat, p: seq<Instr>, i: nat, inFunction: bool, vm: VM)
    requires i < |p| && p[i].Return?
    ensures !inFunction ==> Exec(fuel, p, i, inFunction, vm) == Err(ReturnOutsideFunction)
  {
  }

  /** RETURN as the first instruction of an IF body whose condition holds
      raises even inside a function, because IF bodies never run as
      function bodies. */
  lemma ReturnInIfBodyFaults(fuel: nat, p: seq<Instr>, i: nat, inFunction: bool, vm: VM)
    requires i + 1 < |p| && p[i].If? && fuel > 0
    requires EvalCond(p[i + 1], vm.stack) == Ok(true)
    requires var body := ExtractBlock(p, i + 3).0; |body| > 0 && body[0].Return?
    ensures Exec(fuel, p, i, inFunction, vm) == Err(ReturnOutsideFunction)
  {
    IfRunsBody(fuel, p, i, inFunction, vm);
    var body := ExtractBlock(p, i + 3).0;
    assert Exec(fuel - 1, body, 0, false, vm) == Err(ReturnOutsideFunction);
  }

  /** Instructions no branch handles raise "Unknown opcode" when reached:
      `end`, `begin`, `do`, `else` and a relation tag outside a header. */
  lemma UnhandledOpcodeFaults(fuel: nat, p: seq<Instr>, i: nat, inFunction: bool, vm: VM)
    requires i < |p|
    requires p[i].End? || p[i].Begin? || p[i].Do? || p[i].Else? || IsCondition(p[i])
    ensures Exec(fuel, p, i, inFunction, vm) == Err(UnknownOpcode)
  {
  }
}
