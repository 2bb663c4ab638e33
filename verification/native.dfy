/** What the generated native code does when it runs: each function works
    on its own 1024-cell stack array, arithmetic wraps at 32 bits, division
    truncates, and a call pops its arguments, passes them deepest first,
    and pushes the callee's return value. */
module NativeCode {
  import opened Outcomes
  import opened Opcodes
  import opened StackOps
  import opened ArrayStack
  import opened Lowering
  import opened Int32
  import Interpreter

  /** The running function's stack and everything printed so far. */
  datatype State = State(frame: Frame, output: seq<int>)

  /** How a piece of code ends: by running off its end, or by a return. */
  datatype Stop = Fell(st: State) | Returned(value: int, output: seq<int>)

  /** The emitted comparison: loads the top (`copy_pop()`) and the cell
      beneath it (`copy_pop(-2)`) and compares them with `icmp_signed`, top
      on the left, without moving the pointer. */
  function NCond(tag: Instr, f: Frame): Result<bool> {
    if !IsCondition(tag) then Err(UnknownCondition)
    else
      var a :- CopyPop(f, -1);
      var b :- CopyPop(f, -2);
      Ok(Holds(tag, a, b))
  }

  /** The lowered instructions that only act on the stack array. */
  predicate IsStackInstr(x: LInstr) {
    x.LPush? || x.LPop? || x.LAdd? || x.LSub? || x.LMul? || x.LDiv? || x.LSwap?
    || x.LRot? || x.LOver? || x.LDup? || x.LFlip? || x.LIncr? || x.LDecr?
  }

  /** One straight-line instruction on the stack array, as the builder
      calls emit it: operands are popped top first, so `a` is the old top,
      and `add`, `sub`, `mul` and `sdiv` take them as `a OP b`. */
  function NOp(x: LInstr, f: Frame): Result<Frame>
    requires IsStackInstr(x)
  {
    match x
    case LPush(v) => PushStack(f, v)
    case LPop =>
      var (g, _) :- PopStack(f);
      Ok(g)
    case LAdd =>
      var (g, a) :- PopStack(f);
      var (h, b) :- PopStack(g);
      PushStack(h, Wrap(a + b))
    case LSub =>
      var (g, a) :- PopStack(f);
      var (h, b) :- PopStack(g);
      PushStack(h, Wrap(a - b))
    case LMul =>
      var (g, a) :- PopStack(f);
      var (h, b) :- PopStack(g);
      PushStack(h, Wrap(a * b))
    case LDiv =>
      var (g, a) :- PopStack(f);
      var (h, b) :- PopStack(g);
      var q :- SDiv(a, b);
      PushStack(h, q)
    case LSwap =>
      var (g, top) :- PopStack(f);
      var (h, second) :- PopStack(g);
      var h1 :- PushStack(h, top);
      PushStack(h1, second)
    case LRot =>
      var (g, top) :- PopStack(f);
      var (h, second) :- PopStack(g);
      var (k, third) :- PopStack(h);
      var k1 :- PushStack(k, top);
      var k2 :- PushStack(k1, third);
      PushStack(k2, second)
    case LOver =>
      var v :- CopyPop(f, -2);
      PushStack(f, v)
    case LDup =>
      var v :- CopyPop(f, -1);
      PushStack(f, v)
    case LFlip =>
      var (g, top) :- PopStack(f);
      var bottom :- LoadBottom(g);
      var h :- StoreBottom(g, top);
      PushStack(h, bottom)
    case LIncr =>
      var (g, top) :- PopStack(f);
      PushStack(g, Wrap(top + 1))
    case LDecr =>
      var (g, top) :- PopStack(f);
      PushStack(g, Wrap(top - 1))
  }

  /** `[pop_stack() for _ in range(argcount)]`: the values in the order they
      were popped, top first. */
  function PopArgs(f: Frame, n: nat): Result<(Frame, seq<int>)>
    decreases n
  {
    if n == 0 then Ok((f, []))
    else
      var (g, v) :- PopStack(f);
      var (h, rest) :- PopArgs(g, n - 1);
      Ok((h, [v] + rest))
  }

  /** The argument list of a call: popped, then reversed with
      `args.reverse()`. */
  function CallArgs(f: Frame, n: nat): Result<(Frame, seq<int>)> {
    var (g, popped) :- PopArgs(f, n);
    Ok((g, Interpreter.Reverse(popped)))
  }

  /** Pushes `args` in order. */
  function PushAll(f: Frame, args: seq<int>): Result<Frame>
    decreases |args|
  {
    if args == [] then Ok(f)
    else
      var g :- PushStack(f, args[0]);
      PushAll(g, args[1..])
  }

  /** The stack array a callee starts with. As generated, it is a fresh
      array with the pointer at 0: the function's code never reads its
      parameters, so the arguments the call passes do not reach it. With
      `passArgs`, the corrected entry block instead pushes the parameters
      in order, so the callee starts with the caller's top `n` values in
      stack order. */
  function Entry(passArgs: bool, args: seq<int>): Result<Frame> {
    if passArgs then PushAll(Fresh, args) else Ok(Fresh)
  }

  /** Runs `code` from index `i`. Each run of a nested body and each call
      costs one unit of `fuel`. */
  function RunSeq(fuel: nat, passArgs: bool, defs: seq<FnCode>, code: seq<LInstr>, i: nat, st: State): Result<Stop>
    decreases fuel, 1, |code| - i
  {
    if i >= |code| then Ok(Fell(st))
    else
      var x := code[i];
      match x
      case LPrint =>
        var v :- CopyPop(st.frame, -1);
        RunSeq(fuel, passArgs, defs, code, i + 1, st.(output := st.output + [v]))
      case LRet =>
        var popped :- PopStack(st.frame);
        Ok(Returned(popped.1, st.output))
      case LRetZero =>
        Ok(Returned(0, st.output))
      case LIf(tag, body) =>
        var truth :- NCond(tag, st.frame);
        if !truth then RunSeq(fuel, passArgs, defs, code, i + 1, st)
        else if fuel == 0 then Err(OutOfFuel)
        else
          var r :- RunSeq(fuel - 1, passArgs, defs, body, 0, st);
          if r.Fell? then RunSeq(fuel, passArgs, defs, code, i + 1, r.st) else Ok(r)
      case LWhile(tag, body) =>
        var r :- NLoop(fuel, passArgs, defs, tag, body, st);
        if r.Fell? then RunSeq(fuel, passArgs, defs, code, i + 1, r.st) else Ok(r)
      case LCall(id, argc) =>
        var passed :- CallArgs(st.frame, argc);
        if id >= |defs| then Err(MalformedModule)
        else if fuel == 0 then Err(OutOfFuel)
        else
          var entry :- Entry(passArgs, passed.1);
          var r :- RunSeq(fuel - 1, passArgs, defs, defs[id].code, 0, State(entry, st.output));
          if r.Fell? then Err(MalformedModule)
          else
            var g :- PushStack(passed.0, r.value);
            RunSeq(fuel, passArgs, defs, code, i + 1, State(g, r.output))
      case _ =>
        var f :- NOp(x, st.frame);
        RunSeq(fuel, passArgs, defs, code, i + 1, st.(frame := f))
  }

  /** The emitted loop: the condition block is entered before every run of
      the body. */
  function NLoop(fuel: nat, passArgs: bool, defs: seq<FnCode>, tag: Instr, body: seq<LInstr>, st: State): Result<Stop>
    decreases fuel, 0, 0
  {
    var truth :- NCond(tag, st.frame);
    if !truth then Ok(Fell(st))
    else if fuel == 0 then Err(OutOfFuel)
    else
      var r :- RunSeq(fuel - 1, passArgs, defs, body, 0, st);
      if r.Fell? then NLoop(fuel - 1, passArgs, defs, tag, body, r.st) else Ok(r)
  }

  /** Runs a generated module: `main` on a fresh stack, with nothing printed
      yet; the result is main's return value and the printed values. */
  function Execute(fuel: nat, passArgs: bool, m: Module): Result<(int, seq<int>)> {
    var r :- RunSeq(fuel, passArgs, m.defs, m.main, 0, State(Fresh, []));
    if r.Fell? then Err(MalformedModule) else Ok((r.value, r.output))
  }

  // ---------------------------------------------------------------------
  // The stack array against the interpreter's list

  /** `t` holds the `i32` images of the unbounded values `s`, element by
      element. */
  predicate Mirrors(t: seq<int>, s: seq<int>) {
    |t| == |s| && forall j :: 0 <= j < |s| ==> t[j] == Wrap(s[j])
  }

  lemma MirrorsPrefix(t: seq<int>, s: seq<int>, k: nat)
    requires Mirrors(t, s) && k <= |s|
    ensures Mirrors(t[..k], s[..k])
  {
  }

  lemma MirrorsAppend(t: seq<int>, s: seq<int>, x: int, v: int)
    requires Mirrors(t, s) && x == Wrap(v)
    ensures Mirrors(t + [x], s + [v])
  {
  }

  /** Two pops from a frame with two live cells give the old top, then the
      one beneath it, and the frame without both. */
  lemma TwoPops(f: Frame)
    requires Valid(f) && f.sp >= 2
    ensures PopStack(f).Ok? && PopStack(PopStack(f).value.0).Ok?
    ensures var (g, a) := PopStack(f).value;
      var (h, b) := PopStack(g).value;
      && Valid(h) && View(h) == View(f)[..f.sp - 2]
      && a == View(f)[f.sp - 1] && b == View(f)[f.sp - 2]
  {
    PopRefines(f);
    var g := PopStack(f).value.0;
    PopRefines(g);
    assert View(f)[..f.sp - 1][..f.sp - 2] == View(f)[..f.sp - 2];
  }

  /** Every stack opcode, lowered and run on a stack array whose live part
      holds the wrapped images of the interpreter's stack, leaves the wrapped
      images of what the interpreter leaves, given one free cell (OVER and
      DUP push without popping). */
  lemma NOpRefines(op: Instr, f: Frame, s: seq<int>)
    requires IsStackOp(op) && Valid(f) && Mirrors(View(f), s) && f.sp < Capacity
    ensures Lower(op).Some? && IsStackInstr(Lower(op).value)
    ensures StackOp(op, s).Ok? ==>
      && NOp(Lower(op).value, f).Ok?
      && Valid(NOp(Lower(op).value, f).value)
      && Mirrors(View(NOp(Lower(op).value, f).value), StackOp(op, s).value)
  {
    LowersToStack(op);
    if StackOp(op, s).Ok? {
      match op {
        case Pop | Increment | Decrement => NOpUnary(op, f, s);
        case Dup | Over => NOpCopies(op, f, s);
        case Flip => NOpFlip(f, s);
        case Add | Sub | Mul => NOpArith(op, f, s);
        case Swap => NOpSwap(f, s);
        case Rot => NOpRot(f, s);
      }
    }
  }

  /** Every stack opcode lowers to one stack-array instruction. */
  lemma LowersToStack(op: Instr)
    requires IsStackOp(op)
    ensures Lower(op).Some? && IsStackInstr(Lower(op).value)
  {
  }

  /** Where the interpreter raises for want of operands, the native code
      faults too, except FLIP on a single value: that reads and writes cell
      0 twice and succeeds. */
  lemma NOpFaultsAgree(op: Instr, f: Frame, s: seq<int>)
    requires IsStackOp(op) && Valid(f) && Mirrors(View(f), s)
    ensures Lower(op).Some? && IsStackInstr(Lower(op).value)
    ensures StackOp(op, s).Err? ==> (NOp(Lower(op).value, f).Err? <==> !(op.Flip? && |s| == 1))
  {
    if op.Flip? && |s| == 1 {
      FlipSingleIsIdentity(f);
    } else if op.Pop? || op.Increment? || op.Decrement? || op.Dup? {
      UnderflowOne(op, f, s);
    } else if op.Rot? {
      UnderflowThree(f, s);
    } else {
      UnderflowTwo(op, f, s);
    }
  }

  lemma UnderflowOne(op: Instr, f: Frame, s: seq<int>)
    requires (op.Pop? || op.Increment? || op.Decrement? || op.Dup?) && Valid(f) && Mirrors(View(f), s)
    ensures StackOp(op, s).Err? ==> NOp(Lower(op).value, f).Err?
  {
    StackEffect(op, s);
    PopRefines(f);
    CopyPopRefines(f, 1);
  }

  lemma UnderflowTwo(op: Instr, f: Frame, s: seq<int>)
    requires (op.Add? || op.Sub? || op.Mul? || op.Swap? || op.Over? || op.Flip?)
    requires Valid(f) && Mirrors(View(f), s) && !(op.Flip? && |s| == 1)
    ensures StackOp(op, s).Err? ==> NOp(Lower(op).value, f).Err?
  {
    StackEffect(op, s);
    PopRefines(f);
    CopyPopRefines(f, 2);
    if |s| == 1 {
      PopRefines(PopStack(f).value.0);
    }
  }

  lemma UnderflowThree(f: Frame, s: seq<int>)
    requires Valid(f) && Mirrors(View(f), s)
    ensures StackOp(Rot, s).Err? ==> NOp(LRot, f).Err?
  {
    StackEffect(Rot, s);
    PopRefines(f);
    if |s| == 2 {
      TwoPops(f);
      PopRefines(PopStack(PopStack(f).value.0).value.0);
    } else if |s| == 1 {
      PopRefines(PopStack(f).value.0);
    }
  }

  /** POP, INCREMENT and DECREMENT on the stack array: the top is dropped,
      or replaced by its wrapped successor or predecessor. */
  lemma TopShape(x: LInstr, f: Frame)
    requires (x.LPop? || x.LIncr? || x.LDecr?) && Valid(f) && f.sp >= 1
    ensures NOp(x, f).Ok? && Valid(NOp(x, f).value)
    ensures var t := View(f);
      var a := t[f.sp - 1];
      View(NOp(x, f).value) == t[..f.sp - 1] + (if x.LPop? then [] else if x.LIncr? then [Wrap(a + 1)] else [Wrap(a - 1)])
  {
    PopRefines(f);
    var (g, a) := PopStack(f).value;
    PushRefines(g, Wrap(a + 1));
    PushRefines(g, Wrap(a - 1));
    assert View(g) + [] == View(g);
  }

  lemma NOpUnary(op: Instr, f: Frame, s: seq<int>)
    requires (op.Pop? || op.Increment? || op.Decrement?)
    requires Valid(f) && Mirrors(View(f), s) && StackOp(op, s).Ok?
    ensures NOp(Lower(op).value, f).Ok?
    ensures Valid(NOp(Lower(op).value, f).value)
    ensures Mirrors(View(NOp(Lower(op).value, f).value), StackOp(op, s).value)
  {
    StackEffect(op, s);
    TopShape(Lower(op).value, f);
    if op.Pop? {
      PopResult(s);
      MirrorsPrefix(View(f), s, |s| - 1);
    } else {
      StepMirrors(op, View(f), s);
    }
  }

  lemma PopResult(s: seq<int>)
    requires |s| >= 1
    ensures StackOp(Pop, s) == Ok(s[..|s| - 1])
  {
  }

  /** INCREMENT and DECREMENT keep the mirror: the wrapped successor of a
      wrapped value is the wrapped successor. */
  lemma StepMirrors(op: Instr, t: seq<int>, s: seq<int>)
    requires (op.Increment? || op.Decrement?) && Mirrors(t, s) && |s| >= 1
    ensures var n := |s|;
      var a := t[n - 1];
      StackOp(op, s).Ok?
      && Mirrors(t[..n - 1] + (if op.Increment? then [Wrap(a + 1)] else [Wrap(a - 1)]), StackOp(op, s).value)
  {
    var n := |s|;
    var rest := s[..n - 1];
    assert s == rest + [s[n - 1]];
    ShaperShapes(rest, 0, 0, s[n - 1]);
    MirrorsPrefix(t, s, n - 1);
    WrapCharacterised(1);
    if op.Increment? {
      WrapAdd(s[n - 1], 1);
      MirrorsAppend(t[..n - 1], rest, Wrap(t[n - 1] + 1), s[n - 1] + 1);
    } else {
      WrapSub(s[n - 1], 1);
      MirrorsAppend(t[..n - 1], rest, Wrap(t[n - 1] - 1), s[n - 1] - 1);
    }
  }

  lemma NOpCopies(op: Instr, f: Frame, s: seq<int>)
    requires (op.Dup? || op.Over?) && Valid(f) && Mirrors(View(f), s) && f.sp < Capacity
    ensures StackOp(op, s).Ok? ==>
      && NOp(Lower(op).value, f).Ok?
      && Valid(NOp(Lower(op).value, f).value)
      && Mirrors(View(NOp(Lower(op).value, f).value), StackOp(op, s).value)
    ensures StackOp(op, s).Err? ==> NOp(Lower(op).value, f).Err?
  {
    var k := if op.Dup? then 1 else 2;
    CopyPopRefines(f, k);
    if |s| >= k {
      var v := CopyPop(f, -k).value;
      assert v == Wrap(s[|s| - k]);
      PushRefines(f, v);
      MirrorsAppend(View(f), s, v, s[|s| - k]);
    }
  }

  /** ADD, SUB and MUL on the stack array: `[.., b, a]` becomes
      `[.., a OP b]`, wrapped. */
  lemma ArithShape(x: LInstr, f: Frame)
    requires (x.LAdd? || x.LSub? || x.LMul?) && Valid(f) && f.sp >= 2
    ensures NOp(x, f).Ok? && Valid(NOp(x, f).value)
    ensures var t := View(f);
      var a, b := t[f.sp - 1], t[f.sp - 2];
      View(NOp(x, f).value) == t[..f.sp - 2] + [if x.LAdd? then Wrap(a + b) else if x.LSub? then Wrap(a - b) else Wrap(a * b)]
  {
    TwoPops(f);
    var (g, a) := PopStack(f).value;
    var (h, b) := PopStack(g).value;
    PushRefines(h, Wrap(a + b));
    PushRefines(h, Wrap(a - b));
    PushRefines(h, Wrap(a * b));
  }

  lemma NOpArith(op: Instr, f: Frame, s: seq<int>)
    requires (op.Add? || op.Sub? || op.Mul?)
    requires Valid(f) && Mirrors(View(f), s) && StackOp(op, s).Ok?
    ensures NOp(Lower(op).value, f).Ok?
    ensures Valid(NOp(Lower(op).value, f).value)
    ensures Mirrors(View(NOp(Lower(op).value, f).value), StackOp(op, s).value)
  {
    StackEffect(op, s);
    ArithShape(Lower(op).value, f);
    ArithMirrors(op, View(f), s);
  }

  /** ADD, SUB and MUL keep the mirror: wrapping the operands first does
      not change the wrapped result. */
  lemma ArithMirrors(op: Instr, t: seq<int>, s: seq<int>)
    requires (op.Add? || op.Sub? || op.Mul?) && Mirrors(t, s) && |s| >= 2
    ensures var n := |s|;
      var a, b := t[n - 1], t[n - 2];
      StackOp(op, s).Ok?
      && Mirrors(t[..n - 2] + [if op.Add? then Wrap(a + b) else if op.Sub? then Wrap(a - b) else Wrap(a * b)],
                 StackOp(op, s).value)
  {
    var n := |s|;
    MirrorsPrefix(t, s, n - 2);
    var rest := s[..n - 2];
    var x, y := s[n - 1], s[n - 2];
    assert s == rest + [y, x];
    ArithmeticShapes(rest, y, x);
    var v := if op.Add? then x + y else if op.Sub? then x - y else x * y;
    var a, b := t[n - 1], t[n - 2];
    var w := if op.Add? then Wrap(a + b) else if op.Sub? then Wrap(a - b) else Wrap(a * b);
    if op.Add? { WrapAdd(x, y); } else if op.Sub? { WrapSub(x, y); } else { WrapMul(x, y); }
    MirrorsAppend(t[..n - 2], rest, w, v);
  }

  lemma NOpSwap(f: Frame, s: seq<int>)
    requires Valid(f) && Mirrors(View(f), s) && StackOp(Swap, s).Ok?
    ensures NOp(LSwap, f).Ok?
    ensures Valid(NOp(LSwap, f).value)
    ensures Mirrors(View(NOp(LSwap, f).value), StackOp(Swap, s).value)
  {
    StackEffect(Swap, s);
    SwapShape(f);
    SwapResult(s);
    var n := |s|;
    var t := View(f);
    assert Mirrors(t[..n - 2] + [t[n - 1], t[n - 2]], s[..n - 2] + [s[n - 1], s[n - 2]]);
  }

  /** SWAP on the stack array: `[.., b, a]` becomes `[.., a, b]`. */
  lemma SwapShape(f: Frame)
    requires Valid(f) && f.sp >= 2
    ensures NOp(LSwap, f).Ok? && Valid(NOp(LSwap, f).value)
    ensures var t := View(f);
      View(NOp(LSwap, f).value) == t[..f.sp - 2] + [t[f.sp - 1], t[f.sp - 2]]
  {
    var t := View(f);
    TwoPops(f);
    var (g, a) := PopStack(f).value;
    var (h, b) := PopStack(g).value;
    PushRefines(h, a);
    var h1 := PushStack(h, a).value;
    PushRefines(h1, b);
    assert t[..f.sp - 2] + [a] + [b] == t[..f.sp - 2] + [a, b];
  }

  lemma SwapResult(s: seq<int>)
    requires |s| >= 2
    ensures var n := |s|;
      StackOp(Swap, s) == Ok(s[..n - 2] + [s[n - 1], s[n - 2]])
  {
    var n := |s|;
    var rest := s[..n - 2];
    assert s == rest + [s[n - 2], s[n - 1]];
    ShaperShapes(rest, 0, s[n - 2], s[n - 1]);
  }

  /** ROT on the stack array: `[.., c, b, a]` becomes `[.., a, c, b]`. */
  lemma RotShape(f: Frame)
    requires Valid(f) && f.sp >= 3
    ensures NOp(LRot, f).Ok? && Valid(NOp(LRot, f).value)
    ensures var t := View(f);
      View(NOp(LRot, f).value) == t[..f.sp - 3] + [t[f.sp - 1], t[f.sp - 3], t[f.sp - 2]]
  {
    var t := View(f);
    var n := f.sp;
    TwoPops(f);
    var (g, a) := PopStack(f).value;
    var (h, b) := PopStack(g).value;
    PopRefines(h);
    var (k, c) := PopStack(h).value;
    assert View(k) == t[..n - 3];
    PushRefines(k, a);
    var k1 := PushStack(k, a).value;
    PushRefines(k1, c);
    var k2 := PushStack(k1, c).value;
    PushRefines(k2, b);
    assert t[..n - 3] + [a] + [c] + [b] == t[..n - 3] + [a, c, b];
  }

  lemma NOpRot(f: Frame, s: seq<int>)
    requires Valid(f) && Mirrors(View(f), s) && StackOp(Rot, s).Ok?
    ensures NOp(LRot, f).Ok?
    ensures Valid(NOp(LRot, f).value)
    ensures Mirrors(View(NOp(LRot, f).value), StackOp(Rot, s).value)
  {
    StackEffect(Rot, s);
    RotShape(f);
    RotResult(s);
    RotMirrors(View(f), s);
  }

  lemma RotResult(s: seq<int>)
    requires |s| >= 3
    ensures var n := |s|;
      StackOp(Rot, s) == Ok(s[..n - 3] + [s[n - 1], s[n - 3], s[n - 2]])
  {
    var n := |s|;
    var rest := s[..n - 3];
    assert s == rest + [s[n - 3], s[n - 2], s[n - 1]];
    ShaperShapes(rest, s[n - 3], s[n - 2], s[n - 1]);
  }

  lemma RotMirrors(t: seq<int>, s: seq<int>)
    requires Mirrors(t, s) && |s| >= 3
    ensures var n := |s|;
      Mirrors(t[..n - 3] + [t[n - 1], t[n - 3], t[n - 2]], s[..n - 3] + [s[n - 1], s[n - 3], s[n - 2]])
  {
  }

  lemma NOpFlip(f: Frame, s: seq<int>)
    requires Valid(f) && Mirrors(View(f), s) && StackOp(Flip, s).Ok?
    ensures NOp(LFlip, f).Ok? && Valid(NOp(LFlip, f).value)
    ensures Mirrors(View(NOp(LFlip, f).value), StackOp(Flip, s).value)
  {
    var n := |s|;
    StackEffect(Flip, s);
    FlipExchanges(s);
    var r := StackOp(Flip, s).value;
    PopRefines(f);
    var (g, top) := PopStack(f).value;
    var bottom := f.cells[0];
    var h := g.(cells := g.cells[0 := top]);
    PushRefines(h, bottom);
    var u := PushStack(h, bottom).value;
    assert View(u) == View(h) + [bottom];
    forall j | 0 <= j < n ensures View(u)[j] == Wrap(r[j]) {
      if j == 0 {
      } else if j < n - 1 {
        assert r[j] == r[1..n - 1][j - 1] == s[1..n - 1][j - 1];
      }
    }
  }

  /** FLIP on a single value: the interpreter raises (it pops the only
      value, then pops from the empty list), the native code leaves the
      array as it was. */
  lemma FlipSingleIsIdentity(f: Frame)
    requires Valid(f) && f.sp == 1
    ensures StackOp(Flip, View(f)).Err?
    ensures NOp(LFlip, f).Ok? && View(NOp(LFlip, f).value) == View(f)
  {
    PopRefines(f);
    var g := PopStack(f).value.0;
    var h := g.(cells := g.cells[0 := f.cells[0]]);
    assert h.cells == f.cells;
    PushRefines(h, f.cells[0]);
  }

  /** Frames that agree on their pointer and on every cell below `n`, the
      pointer lying at or below `n`: after pops the popped cells still lie
      below `n`. */
  predicate Agree(f: Frame, g: Frame, n: int) {
    && |f.cells| == |g.cells| == Capacity && f.sp == g.sp && 0 <= f.sp <= n <= Capacity
    && f.cells[..n] == g.cells[..n]
  }

  /** Two runs that fail together and otherwise leave the same live part. */
  predicate SameOutcome(r: Result<Frame>, s: Result<Frame>) {
    && (r.Ok? <==> s.Ok?)
    && (r.Ok? ==> Valid(r.value) && Valid(s.value) && View(r.value) == View(s.value))
  }

  /** A whole lowered stack instruction cannot observe the cells at or
      above the pointer: run on two arrays with the same live part, it
      fails on both or on neither, and leaves the same live part. This
      holds even for FLIP on a single value, which pops that value and then
      reads cell 0, just above the new pointer. */
  lemma NOpViewOnly(x: LInstr, f: Frame, g: Frame)
    requires IsStackInstr(x) && Valid(f) && Valid(g) && f.sp == g.sp && View(f) == View(g)
    ensures NOp(x, f).Ok? <==> NOp(x, g).Ok?
    ensures NOp(x, f).Ok? ==>
      && Valid(NOp(x, f).value) && Valid(NOp(x, g).value)
      && View(NOp(x, f).value) == View(NOp(x, g).value)
  {
    var n := f.sp;
    assert Agree(f, g, n);
    match x
    case LPush(v) => PushAgree(f, g, n, v);
    case LOver => CopyAgree(f, g, n); if f.sp >= 2 { PushAgree(f, g, n, f.cells[f.sp - 2]); }
    case LDup => CopyAgree(f, g, n); if f.sp >= 1 { PushAgree(f, g, n, f.cells[f.sp - 1]); }
    case LPop => UnaryAgree(x, f, g, n);
    case LIncr => UnaryAgree(x, f, g, n);
    case LDecr => UnaryAgree(x, f, g, n);
    case LAdd => BinaryAgree(x, f, g, n);
    case LSub => BinaryAgree(x, f, g, n);
    case LMul => BinaryAgree(x, f, g, n);
    case LDiv => DivAgree(f, g, n);
    case LSwap => SwapAgree(f, g, n);
    case LRot => RotAgree(f, g, n);
    case LFlip => FlipAgree(f, g, n);
  }

  lemma UnaryAgree(x: LInstr, f: Frame, g: Frame, n: int)
    requires (x.LPop? || x.LIncr? || x.LDecr?) && Agree(f, g, n)
    ensures SameOutcome(NOp(x, f), NOp(x, g))
  {
    if f.sp > 0 {
      PopAgree(f, g, n);
      var (f1, a) := PopStack(f).value;
      var (g1, _) := PopStack(g).value;
      if x.LPop? {
        AgreeView(f1, g1, n);
      } else {
        PushAgree(f1, g1, n, if x.LIncr? then Wrap(a + 1) else Wrap(a - 1));
      }
    }
  }

  lemma BinaryAgree(x: LInstr, f: Frame, g: Frame, n: int)
    requires (x.LAdd? || x.LSub? || x.LMul?) && Agree(f, g, n)
    ensures SameOutcome(NOp(x, f), NOp(x, g))
  {
    if f.sp > 1 {
      PopAgree(f, g, n);
      var (f1, a) := PopStack(f).value;
      var (g1, _) := PopStack(g).value;
      PopAgree(f1, g1, n);
      var (f2, b) := PopStack(f1).value;
      var (g2, _) := PopStack(g1).value;
      match x
      case LAdd => PushAgree(f2, g2, n, Wrap(a + b));
      case LSub => PushAgree(f2, g2, n, Wrap(a - b));
      case LMul => PushAgree(f2, g2, n, Wrap(a * b));
    } else if f.sp == 1 {
      PopAgree(f, g, n);
    }
  }

  lemma DivAgree(f: Frame, g: Frame, n: int)
    requires Agree(f, g, n)
    ensures SameOutcome(NOp(LDiv, f), NOp(LDiv, g))
  {
    if f.sp > 1 {
      PopAgree(f, g, n);
      var (f1, a) := PopStack(f).value;
      var (g1, _) := PopStack(g).value;
      PopAgree(f1, g1, n);
      var (f2, b) := PopStack(f1).value;
      var (g2, _) := PopStack(g1).value;
      if SDiv(a, b).Ok? { PushAgree(f2, g2, n, SDiv(a, b).value); }
    } else if f.sp == 1 {
      PopAgree(f, g, n);
    }
  }

  lemma SwapAgree(f: Frame, g: Frame, n: int)
    requires Agree(f, g, n)
    ensures SameOutcome(NOp(LSwap, f), NOp(LSwap, g))
  {
    if f.sp > 1 {
      PopAgree(f, g, n);
      var (f1, a) := PopStack(f).value;
      var (g1, _) := PopStack(g).value;
      PopAgree(f1, g1, n);
      var (f2, b) := PopStack(f1).value;
      var (g2, _) := PopStack(g1).value;
      PushAgree(f2, g2, n, a);
      var f3, g3 := PushStack(f2, a).value, PushStack(g2, a).value;
      PushAgree(f3, g3, n, b);
    } else if f.sp == 1 {
      PopAgree(f, g, n);
    }
  }

  lemma RotAgree(f: Frame, g: Frame, n: int)
    requires Agree(f, g, n)
    ensures SameOutcome(NOp(LRot, f), NOp(LRot, g))
  {
    if f.sp > 2 {
      PopAgree(f, g, n);
      var (f1, a) := PopStack(f).value;
      var (g1, _) := PopStack(g).value;
      PopAgree(f1, g1, n);
      var (f2, b) := PopStack(f1).value;
      var (g2, _) := PopStack(g1).value;
      PopAgree(f2, g2, n);
      var (f3, c) := PopStack(f2).value;
      var (g3, _) := PopStack(g2).value;
      PushAgree(f3, g3, n, a);
      var f4, g4 := PushStack(f3, a).value, PushStack(g3, a).value;
      PushAgree(f4, g4, n, c);
      var f5, g5 := PushStack(f4, c).value, PushStack(g4, c).value;
      PushAgree(f5, g5, n, b);
    } else if f.sp > 0 {
      PopAgree(f, g, n);
      if f.sp > 1 { PopAgree(PopStack(f).value.0, PopStack(g).value.0, n); }
    }
  }

  lemma FlipAgree(f: Frame, g: Frame, n: int)
    requires Agree(f, g, n)
    ensures SameOutcome(NOp(LFlip, f), NOp(LFlip, g))
  {
    if f.sp > 0 {
      PopAgree(f, g, n);
      var (f1, a) := PopStack(f).value;
      var (g1, _) := PopStack(g).value;
      assert f1.cells[0] == f1.cells[..n][0] == g1.cells[0];
      var h1, k1 := f1.(cells := f1.cells[0 := a]), g1.(cells := g1.cells[0 := a]);
      assert StoreBottom(f1, a) == Ok(h1) && StoreBottom(g1, a) == Ok(k1);
      assert h1.cells[..n] == k1.cells[..n];
      PushAgree(h1, k1, n, f1.cells[0]);
    }
  }

  function Max(a: int, b: int): int {
    if a < b then b else a
  }

  /** A pop from agreeing frames yields agreeing frames and the same value. */
  lemma PopAgree(f: Frame, g: Frame, n: int)
    requires Agree(f, g, n) && f.sp > 0
    ensures PopStack(f).Ok? && PopStack(g).Ok?
    ensures PopStack(f).value.1 == PopStack(g).value.1
    ensures Agree(PopStack(f).value.0, PopStack(g).value.0, n)
  {
    assert f.cells[f.sp - 1] == f.cells[..n][f.sp - 1];
  }

  /** A push of the same value onto agreeing frames fails on both or on
      neither, and the results agree up to the new pointer. */
  lemma PushAgree(f: Frame, g: Frame, n: int, v: int)
    requires Agree(f, g, n)
    ensures SameOutcome(PushStack(f, v), PushStack(g, v))
    ensures PushStack(f, v).Ok? ==> Agree(PushStack(f, v).value, PushStack(g, v).value, Max(n, f.sp + 1))
  {
    if f.sp < Capacity {
      var m := Max(n, f.sp + 1);
      var f1, g1 := PushStack(f, v).value, PushStack(g, v).value;
      forall i | 0 <= i < m ensures f1.cells[i] == g1.cells[i] {
        if i != f.sp { assert f.cells[i] == f.cells[..n][i]; }
      }
      assert f1.cells[..m] == g1.cells[..m];
      assert View(f1) == f1.cells[..m][..f1.sp];
      assert View(g1) == g1.cells[..m][..g1.sp];
    }
  }

  /** Agreeing frames have the same live part. */
  lemma AgreeView(f: Frame, g: Frame, n: int)
    requires Agree(f, g, n)
    ensures SameOutcome(Ok(f), Ok(g))
  {
    assert View(f) == f.cells[..n][..f.sp];
    assert View(g) == g.cells[..n][..g.sp];
  }

  /** Reads of the two cells below the pointer agree on agreeing frames. */
  lemma CopyAgree(f: Frame, g: Frame, n: int)
    requires Agree(f, g, n)
    ensures CopyPop(f, -1) == CopyPop(g, -1) && CopyPop(f, -2) == CopyPop(g, -2)
  {
    if f.sp >= 1 { assert f.cells[f.sp - 1] == f.cells[..n][f.sp - 1]; }
    if f.sp >= 2 { assert f.cells[f.sp - 2] == f.cells[..n][f.sp - 2]; }
  }

  /** Popping `n` arguments succeeds exactly when `n` values are live; it
      lowers the pointer by `n`, writes nothing, and yields the values top
      first. */
  lemma {:induction false} PopArgsLayout(f: Frame, n: nat)
    requires Valid(f)
    ensures PopArgs(f, n).Ok? <==> n <= f.sp
    ensures PopArgs(f, n).Ok? ==>
      var (g, popped) := PopArgs(f, n).value;
      && Valid(g) && g.sp == f.sp - n && g.cells == f.cells && |popped| == n
      && forall j :: 0 <= j < n ==> popped[j] == f.cells[f.sp - 1 - j]
    decreases n
  {
    if n > 0 {
      PopRefines(f);
      if f.sp > 0 {
        var g := PopStack(f).value.0;
        PopArgsLayout(g, n - 1);
      }
    }
  }

  /** The argument list of a call is the top `n` live values in stack
      order, deepest first, and the caller's frame keeps everything below
      them. */
  lemma CallArgsLayout(f: Frame, n: nat)
    requires Valid(f)
    ensures CallArgs(f, n).Ok? <==> n <= f.sp
    ensures CallArgs(f, n).Ok? ==>
      var (g, args) := CallArgs(f, n).value;
      && Valid(g) && View(g) == View(f)[..f.sp - n]
      && args == View(f)[f.sp - n..]
  {
    PopArgsLayout(f, n);
    if n <= f.sp {
      var (g, popped) := PopArgs(f, n).value;
      var args := Interpreter.Reverse(popped);
      assert forall j :: 0 <= j < n ==> args[j] == View(f)[f.sp - n..][j];
    }
  }

  // ---------------------------------------------------------------------
  // What a callee receives

  /** Pushing a list of values appends it to the live part, if it fits. */
  lemma {:induction false} PushAllLayout(f: Frame, args: seq<int>)
    requires Valid(f) && f.sp + |args| <= Capacity
    ensures PushAll(f, args).Ok?
    ensures Valid(PushAll(f, args).value) && View(PushAll(f, args).value) == View(f) + args
    decreases |args|
  {
    if args != [] {
      PushRefines(f, args[0]);
      var g := PushStack(f, args[0]).value;
      PushAllLayout(g, args[1..]);
      assert View(f) + [args[0]] + args[1..] == View(f) + args;
    }
  }

  /** As generated, every callee starts with an empty stack whatever it is
      passed; with the corrected entry block it starts with its arguments. */
  lemma EntryLayout(args: seq<int>)
    requires |args| <= Capacity
    ensures Entry(false, args) == Ok(Fresh) && View(Fresh) == []
    ensures Entry(true, args).Ok? && Valid(Entry(true, args).value)
    ensures View(Entry(true, args).value) == args
  {
    assert Valid(Fresh);
    PushAllLayout(Fresh, args);
  }

  /** `function sq 1 do dup mul return end` lowers to a function of one
      parameter whose code is DUP, MUL, return of the top. */
  lemma SquareLowers()
    ensures LowerFunction("sq", 1, [Dup, Mul, Return], Gen(map[], [])).Ok?
    ensures LowerFunction("sq", 1, [Dup, Mul, Return], Gen(map[], [])).value.gen.defs
      == [FnCode(1, [LDup, LMul, LRet])]
  {
    var g1 := Gen(map["sq" := Callee(0, 1)], [FnCode(1, [])]);
    SquareBodyLowers(g1);
    assert "sq" !in Reserved;
    assert Params(1) == 1;
  }

  lemma SquareBodyLowers(g: Gen)
    ensures LowerFnBody([Dup, Mul, Return], 0, g) == Ok(Lowered([LDup, LMul, LRet], [], g))
  {
    SquareTailLowers(g);
    FnBodyCons([Dup, Mul, Return], 0, g);
    assert [LDup] + [LMul, LRet] == [LDup, LMul, LRet];
  }

  lemma SquareTailLowers(g: Gen)
    ensures LowerFnBody([Dup, Mul, Return], 1, g) == Ok(Lowered([LMul, LRet], [], g))
  {
    var p := [Dup, Mul, Return];
    assert LowerFnBody(p, 2, g) == Ok(Lowered([LRet], [], g));
    FnBodyCons(p, 1, g);
    assert [LMul] + [LRet] == [LMul, LRet];
  }

  /** An opcode the top level of a function body accepts is lowered in
      front of the rest of the body. */
  lemma FnBodyCons(p: seq<Instr>, i: nat, g: Gen)
    requires i < |p| && FnAccepts(p[i]) && LowerFnBody(p, i + 1, g).Ok?
    ensures var rest := LowerFnBody(p, i + 1, g).value;
      LowerFnBody(p, i, g) == Ok(rest.(code := [Lower(p[i]).value] + rest.code))
  {
  }

  /** As generated, calling the squaring function faults: its DUP reads
      cell -1 of the callee's empty stack, whatever the caller passed. */
  lemma SquareCallAsWritten(fuel: nat, defs: seq<FnCode>, st: State)
    requires fuel > 0 && |defs| > 0 && defs[0].code == [LDup, LMul, LRet]
    requires Valid(st.frame) && st.frame.sp >= 1
    ensures RunSeq(fuel, false, defs, [LCall(0, 1)], 0, st) == Err(OutOfBounds)
  {
    CallArgsLayout(st.frame, 1);
    assert RunSeq(fuel - 1, false, defs, defs[0].code, 0, State(Fresh, st.output)) == Err(OutOfBounds);
  }

  /** The squaring body run on a stack holding `x` alone returns the `i32`
      square of `x`. */
  lemma SquareBodyReturns(fuel: nat, passArgs: bool, defs: seq<FnCode>, body: seq<LInstr>, e: Frame, out: seq<int>, x: int)
    requires body == [LDup, LMul, LRet]
    requires Valid(e) && View(e) == [x] && InRange(x)
    ensures RunSeq(fuel, passArgs, defs, body, 0, State(e, out)) == Ok(Returned(Wrap(x * x), out))
  {
    WrapCharacterised(x);
    assert Mirrors(View(e), [x]);
    ShaperShapes([], 0, 0, x);
    NOpCopies(Dup, e, [x]);
    var e1 := NOp(LDup, e).value;
    assert Mirrors(View(e1), [x, x]);
    ArithmeticShapes([], x, x);
    NOpArith(Mul, e1, [x, x]);
    var e2 := NOp(LMul, e1).value;
    assert View(e2)[0] == Wrap(x * x);
    PopRefines(e2);
    StepRet(fuel, passArgs, defs, body, 2, State(e2, out));
    StepOp(fuel, passArgs, defs, body, 1, State(e1, out));
    StepOp(fuel, passArgs, defs, body, 0, State(e, out));
  }

  /** A return ends the code with the popped top. */
  lemma StepRet(fuel: nat, passArgs: bool, defs: seq<FnCode>, code: seq<LInstr>, i: nat, st: State)
    requires i < |code| && code[i] == LRet && PopStack(st.frame).Ok?
    ensures RunSeq(fuel, passArgs, defs, code, i, st) == Ok(Returned(PopStack(st.frame).value.1, st.output))
  {
  }

  /** A call that finds its function and fuel runs the callee's code on
      the entry frame and resumes with the returned value pushed. */
  lemma StepCall(fuel: nat, passArgs: bool, defs: seq<FnCode>, code: seq<LInstr>, i: nat, st: State)
    requires i < |code| && code[i].LCall? && code[i].id < |defs| && fuel > 0
    requires CallArgs(st.frame, code[i].argc).Ok?
    requires Entry(passArgs, CallArgs(st.frame, code[i].argc).value.1).Ok?
    ensures var (g, args) := CallArgs(st.frame, code[i].argc).value;
      var entry := Entry(passArgs, args).value;
      var r := RunSeq(fuel - 1, passArgs, defs, defs[code[i].id].code, 0, State(entry, st.output));
      r.Ok? && r.value.Returned? && PushStack(g, r.value.value).Ok? ==>
        RunSeq(fuel, passArgs, defs, code, i, st)
        == RunSeq(fuel, passArgs, defs, code, i + 1, State(PushStack(g, r.value.value).value, r.value.output))
  {
  }

  /** A print that finds a live top appends it to the output and moves on. */
  lemma StepPrint(fuel: nat, passArgs: bool, defs: seq<FnCode>, code: seq<LInstr>, i: nat, st: State)
    requires i < |code| && code[i] == LPrint && CopyPop(st.frame, -1).Ok?
    ensures RunSeq(fuel, passArgs, defs, code, i, st)
      == RunSeq(fuel, passArgs, defs, code, i + 1, st.(output := st.output + [CopyPop(st.frame, -1).value]))
  {
  }

  /** A stack instruction that succeeds moves on to the next index. */
  lemma StepOp(fuel: nat, passArgs: bool, defs: seq<FnCode>, code: seq<LInstr>, i: nat, st: State)
    requires i < |code| && IsStackInstr(code[i]) && NOp(code[i], st.frame).Ok?
    ensures RunSeq(fuel, passArgs, defs, code, i, st)
      == RunSeq(fuel, passArgs, defs, code, i + 1, st.(frame := NOp(code[i], st.frame).value))
  {
  }

  /** With the parameters pushed on entry, the same call replaces the
      caller's top `x` by the `i32` square of `x`. */
  lemma SquareCallCorrected(fuel: nat, defs: seq<FnCode>, st: State)
    requires fuel > 0 && |defs| > 0 && defs[0].code == [LDup, LMul, LRet]
    requires Valid(st.frame) && 1 <= st.frame.sp < Capacity
    requires InRange(View(st.frame)[st.frame.sp - 1])
    ensures var x := View(st.frame)[st.frame.sp - 1];
      var r := RunSeq(fuel, true, defs, [LCall(0, 1)], 0, st);
      && r.Ok? && r.value.Fell? && Valid(r.value.st.frame)
      && View(r.value.st.frame) == View(st.frame)[..st.frame.sp - 1] + [Wrap(x * x)]
      && r.value.st.output == st.output
  {
    var f := st.frame;
    var x := View(f)[f.sp - 1];
    CallArgsLayout(f, 1);
    var (g, args) := CallArgs(f, 1).value;
    assert args == [x];
    EntryLayout(args);
    var e := Entry(true, args).value;
    SquareBodyReturns(fuel - 1, true, defs, defs[0].code, e, st.output, x);
    PushRefines(g, Wrap(x * x));
    StepCall(fuel, true, defs, [LCall(0, 1)], 0, st);
  }
}
