/** How the two back ends relate. The interpreter computes with unbounded
    Python integers on a list; the generated code computes with `i32`
    values on a 1024-cell array. On straight-line programs the native code
    prints the 32-bit images of what the interpreter prints; conditions
    agree while the values fit; and a call hands the callee its arguments
    in the opposite order. */
module Agreement {
  import opened Outcomes
  import opened Opcodes
  import opened StackOps
  import opened ArrayStack
  import opened Int32
  import opened Lowering
  import I = Interpreter
  import N = NativeCode

  /** A program of straight-line instructions only: stack opcodes, PUSH,
      DIV and DUMP. */
  predicate Flat(p: seq<Instr>) {
    forall j :: 0 <= j < |p| ==> I.IsStraight(p[j])
  }

  /** What `compile` emits for one straight-line instruction of the main
      program. */
  function LowerStraight(op: Instr): (x: LInstr)
    requires I.IsStraight(op)
    ensures op.Dump? <==> x == LPrint
    ensures !op.Dump? ==> N.IsStackInstr(x)
  {
    if op.Dump? then LPrint else Lower(op).value
  }

  /** A flat main program lowers instruction by instruction, registers
      nothing and sends nothing elsewhere. */
  lemma {:induction false} FlatLowering(p: seq<Instr>, i: nat, g: Gen)
    requires Flat(p) && i <= |p|
    ensures LowerSeq(p, i, false, g).Ok?
    ensures var r := LowerSeq(p, i, false, g).value;
      && r.gen == g && r.stray == [] && |r.code| == |p| - i
      && forall j :: i <= j < |p| ==> r.code[j - i] == LowerStraight(p[j])
    decreases |p| - i
  {
    if i < |p| {
      FlatLowering(p, i + 1, g);
      var rest := LowerSeq(p, i + 1, false, g).value;
      var x := LowerStraight(p[i]);
      FlatLowerStep(p, i, g);
      forall j | i < j < |p| ensures ([x] + rest.code)[j - i] == LowerStraight(p[j]) {
        assert ([x] + rest.code)[j - i] == rest.code[j - (i + 1)];
      }
    }
  }

  lemma FlatLowerStep(p: seq<Instr>, i: nat, g: Gen)
    requires i < |p| && I.IsStraight(p[i]) && LowerSeq(p, i + 1, false, g).Ok?
    ensures var rest := LowerSeq(p, i + 1, false, g).value;
      LowerSeq(p, i, false, g) == Ok(rest.(code := [LowerStraight(p[i])] + rest.code))
  {
    if p[i].Dump? {
      assert Lower(p[i]).None?;
    } else {
      assert Lower(p[i]).Some?;
    }
  }

  /** The generated main function of a flat program: its instructions in
      order, then the return of 0. */
  predicate MainOf(code: seq<LInstr>, p: seq<Instr>)
    requires Flat(p)
  {
    && |code| == |p| + 1 && code[|p|] == LRetZero
    && forall j :: 0 <= j < |p| ==> code[j] == LowerStraight(p[j])
  }

  lemma FlatGenerates(p: seq<Instr>)
    requires Flat(p)
    ensures Generate(p).Ok? && Generate(p).value.defs == []
    ensures MainOf(Generate(p).value.main, p)
  {
    FlatLowering(p, 0, Gen(map[], []));
  }

  /** One instruction of the simulation: a stack opcode, PUSH or DUMP that
      the interpreter completes is matched by its lowered form, keeping
      the native stack and output the 32-bit images of the interpreter's. */
  lemma FlatStep(op: Instr, vm: I.VM, st: N.State)
    requires I.IsStraight(op) && I.Straight(op, vm).Ok?
    requires Valid(st.frame) && N.Mirrors(View(st.frame), vm.stack) && N.Mirrors(st.output, vm.output)
    requires |vm.stack| < Capacity
    ensures |I.Straight(op, vm).value.stack| <= |vm.stack| + 1
    ensures op.Dump? ==>
      && CopyPop(st.frame, -1).Ok?
      && N.Mirrors(st.output + [CopyPop(st.frame, -1).value], I.Straight(op, vm).value.output)
      && I.Straight(op, vm).value.stack == vm.stack
    ensures !op.Dump? ==>
      && N.NOp(LowerStraight(op), st.frame).Ok?
      && Valid(N.NOp(LowerStraight(op), st.frame).value)
      && N.Mirrors(View(N.NOp(LowerStraight(op), st.frame).value), I.Straight(op, vm).value.stack)
      && I.Straight(op, vm).value.output == vm.output
  {
    var next := I.Straight(op, vm).value;
    if IsStackOp(op) {
      N.NOpRefines(op, st.frame, vm.stack);
      StackEffect(op, vm.stack);
    } else if op.Push? {
      PushRefines(st.frame, Wrap(op.n));
      N.MirrorsAppend(View(st.frame), vm.stack, Wrap(op.n), op.n);
    } else {
      assert op.Dump?;
      CopyPopRefines(st.frame, 1);
      var top := vm.stack[|vm.stack| - 1];
      N.MirrorsAppend(st.output, vm.output, Wrap(top), top);
    }
  }

  /** Whenever the interpreter completes a flat program from index `i`,
      the generated main function completes from `i` too, returns 0, and
      has printed the 32-bit images of what the interpreter printed, as
      long as the stack array cannot fill up. */
  lemma {:induction false} FlatRuns(fuel: nat, passArgs: bool, defs: seq<FnCode>, p: seq<Instr>, code: seq<LInstr>,
                                    i: nat, vm: I.VM, st: N.State)
    requires Flat(p) && MainOf(code, p) && i <= |p|
    requires Valid(st.frame) && N.Mirrors(View(st.frame), vm.stack) && N.Mirrors(st.output, vm.output)
    requires |vm.stack| + (|p| - i) < Capacity
    requires I.Exec(fuel, p, i, false, vm).Ok?
    ensures var r := N.RunSeq(fuel, passArgs, defs, code, i, st);
      && r.Ok? && r.value.Returned? && r.value.value == 0
      && N.Mirrors(r.value.output, I.Exec(fuel, p, i, false, vm).value.output)
    decreases |p| - i
  {
    if i == |p| {
      assert N.RunSeq(fuel, passArgs, defs, code, i, st) == Ok(N.Returned(0, st.output));
    } else {
      var op := p[i];
      assert I.Straight(op, vm).Ok?;
      assert I.Exec(fuel, p, i, false, vm) == I.Exec(fuel, p, i + 1, false, I.Straight(op, vm).value);
      var next := I.Straight(op, vm).value;
      FlatStep(op, vm, st);
      var x := code[i];
      if x == LPrint {
        var v := CopyPop(st.frame, -1).value;
        var st' := st.(output := st.output + [v]);
        N.StepPrint(fuel, passArgs, defs, code, i, st);
        FlatRuns(fuel, passArgs, defs, p, code, i + 1, next, st');
      } else {
        var st' := st.(frame := N.NOp(x, st.frame).value);
        N.StepOp(fuel, passArgs, defs, code, i, st);
        FlatRuns(fuel, passArgs, defs, p, code, i + 1, next, st');
      }
    }
  }

  /** The straight-line agreement theorem: for a flat program of fewer than
      1024 instructions that the interpreter runs to completion from the
      initial state, the generated module runs to completion, returns 0,
      and prints the 32-bit images of the values the interpreter prints. */
  lemma StraightLineAgrees(fuel: nat, passArgs: bool, p: seq<Instr>)
    requires Flat(p) && |p| < Capacity
    requires I.Run(fuel, p, I.Initial).Ok?
    ensures Generate(p).Ok?
    ensures var r := N.Execute(fuel, passArgs, Generate(p).value);
      && r.Ok? && r.value.0 == 0
      && N.Mirrors(r.value.1, I.Run(fuel, p, I.Initial).value.output)
  {
    FlatGenerates(p);
    var m := Generate(p).value;
    assert Valid(Fresh) && View(Fresh) == [];
    FlatRuns(fuel, passArgs, m.defs, p, m.main, 0, I.Initial, N.State(Fresh, []));
  }

  // ---------------------------------------------------------------------
  // Conditions

  /** The emitted comparison reads the same two cells as
      `evaluate_condition`: on a stack array holding exactly the
      interpreter's values the two agree on every tag, and both fail for
      want of two values, with the array's fault for the list's. */
  lemma ConditionsAgree(tag: Instr, f: Frame)
    requires Valid(f)
    ensures N.NCond(tag, f).Ok? <==> I.EvalCond(tag, View(f)).Ok?
    ensures N.NCond(tag, f).Ok? ==> N.NCond(tag, f) == I.EvalCond(tag, View(f))
    ensures !IsCondition(tag) ==> N.NCond(tag, f) == I.EvalCond(tag, View(f)) == Err(UnknownCondition)
  {
    CopyPopRefines(f, 1);
    CopyPopRefines(f, 2);
  }

  /** Wrap-around changes decisions: after `push 0, push 2147483647,
      increment` the interpreter's top, 2^31, is greater than the 0 beneath
      it, while the native top, -2^31, is not. */
  lemma WrapChangesCondition(s: seq<int>, t: seq<int>)
    requires s == [0, Half] && N.Mirrors(t, s)
    ensures I.EvalCond(IsGrt, s) == Ok(true)
    ensures I.EvalCond(IsGrt, t) == Ok(false)
  {
    assert t[1] == Wrap(Half) == -Half;
    assert t[0] == Wrap(0) == 0;
  }

  // ---------------------------------------------------------------------
  // Calls

  /** The interpreter's callee starts with the caller's top `n` values,
      top first; the generated call passes the same values deepest first. */
  lemma ArgumentOrder(f: Frame, n: nat)
    requires Valid(f) && n <= f.sp
    ensures N.CallArgs(f, n).Ok?
    ensures N.CallArgs(f, n).value.1 == I.Reverse(I.Args(View(f), n))
  {
    N.CallArgsLayout(f, n);
    I.ArgsReverse(View(f), n);
  }
}
