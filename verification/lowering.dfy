/** The compile-time decisions of the native-code generator (compiler.py):
    which opcodes each lowering context accepts, what each one emits, how
    bodies are recovered, how functions are registered and called, and
    where BREAK and RETURN cut lowering short. The emitted code is a small
    structured instruction set standing for the builder calls; what it does
    at run time is defined in the NativeCode module. */
module Lowering {
  import opened Outcomes
  import opened Opcodes
  import opened Blocks
  import Int32

  /** Lowered code. `LPush` carries an `i32` constant; `LPrint` prints the
      top of the stack of the function whose code contains it; `LIf` and
      `LWhile` carry the relation tag and the lowered body; `LCall` names
      its callee by registration number and passes `argc` arguments;
      `LRet` returns the popped top, `LRetZero` returns 0. */
  datatype LInstr =
    | LPush(v: int) | LPop | LAdd | LSub | LMul | LDiv | LSwap | LRot | LOver | LDup | LFlip
    | LIncr | LDecr | LPrint
    | LIf(tag: Instr, body: seq<LInstr>)
    | LWhile(tag: Instr, body: seq<LInstr>)
    | LCall(id: nat, argc: nat)
    | LRet | LRetZero

  /** A registered function: its number and its parameter count. */
  datatype Callee = Callee(id: nat, params: nat)

  /** A generated function: its parameter count and its code. */
  datatype FnCode = FnCode(params: nat, code: seq<LInstr>)

  /** The generator's state: `self.functions`, as a table from names to
      registration numbers, and the functions generated so far. */
  datatype Gen = Gen(table: map<string, Callee>, defs: seq<FnCode>)

  /** The result of lowering a list of instructions: the code emitted in
      place, the DUMPs that went to the main function instead (see
      `LowerSeq`), and the generator's state afterwards. */
  datatype Lowered = Lowered(code: seq<LInstr>, stray: seq<LInstr>, gen: Gen)

  /** A generated module: the main function's code and every other function,
      indexed by registration number. */
  datatype Module = Module(main: seq<LInstr>, defs: seq<FnCode>)

  /** Global names the module holds before any FUNCTION is lowered. */
  const Reserved: set<string> := {"main", "printf"}

  /** `[ir.IntType(32)] * argcount`: a negative count gives no parameters. */
  function Params(arity: int): nat {
    if arity < 0 then 0 else arity
  }

  /** The opcodes `compile` turns into one instruction each, without
      looking at any other instruction. PUSH keeps the low 32 bits of its
      literal. */
  function Lower(op: Instr): Option<LInstr> {
    match op
    case Push(n) => Some(LPush(Int32.Wrap(n)))
    case Pop => Some(LPop)        case Add => Some(LAdd)      case Sub => Some(LSub)
    case Mul => Some(LMul)        case Div => Some(LDiv)      case Swap => Some(LSwap)
    case Rot => Some(LRot)        case Over => Some(LOver)    case Dup => Some(LDup)
    case Flip => Some(LFlip)      case Increment => Some(LIncr)
    case Decrement => Some(LDecr)
    case _ => None
  }

  /** The same opcodes at the top level of a function body, where
      `compile_function` has no branch for INCREMENT and DECREMENT. */
  predicate FnAccepts(op: Instr) {
    Lower(op).Some? && !op.Increment? && !op.Decrement?
  }

  /** No return anywhere in the code, nested bodies included. */
  predicate Unterminated(code: seq<LInstr>) {
    forall j :: 0 <= j < |code| ==>
      && !code[j].LRet? && !code[j].LRetZero?
      && (code[j].LIf? ==> Unterminated(code[j].body))
      && (code[j].LWhile? ==> Unterminated(code[j].body))
  }

  /** Code made only of prints. */
  predicate OnlyPrints(code: seq<LInstr>) {
    forall j :: 0 <= j < |code| ==> code[j] == LPrint
  }

  /** Code that ends in its one and only return. */
  predicate Terminated(code: seq<LInstr>) {
    && |code| > 0
    && (code[|code| - 1].LRet? || code[|code| - 1].LRetZero?)
    && Unterminated(code[..|code| - 1])
  }

  /** Lowering only ever adds to the generator's state: registered names
      keep their entry and generated functions keep their parameter
      count. */
  predicate Grows(g: Gen, h: Gen) {
    && |g.defs| <= |h.defs|
    && (forall id :: 0 <= id < |g.defs| ==> h.defs[id].params == g.defs[id].params)
    && (forall name :: name in g.table ==> name in h.table && h.table[name] == g.table[name])
  }

  /** The header of IF and WHILE: the relation tag must exist and be a
      relation, the instruction after it must exist, and the body is
      lowered only when that instruction is DO. */
  function Header(p: seq<Instr>, i: nat): (r: Result<bool>)
    ensures r.Ok? <==> i + 2 < |p| && IsCondition(p[i + 1])
    ensures r.Ok? ==> r.value == p[i + 2].Do?
  {
    if i + 1 >= |p| then Err(MissingInstruction)
    else if !IsCondition(p[i + 1]) then Err(UnknownCondition)
    else if i + 2 >= |p| then Err(MissingInstruction)
    else Ok(p[i + 2].Do?)
  }

  /** `compile(program, ...)` from index `i`: the main program when
      `inFunction` is false, or the body of an IF or WHILE inside a
      function when it is true. In the latter case DUMP still goes through
      `self.print_stack_top`, which emits into the main function at the
      point where the enclosing definition appears; such DUMPs are
      collected in `stray`. */
  function LowerSeq(p: seq<Instr>, i: nat, inFunction: bool, g: Gen): (r: Result<Lowered>)
    ensures r.Ok? ==> Grows(g, r.value.gen) && Unterminated(r.value.code)
    ensures r.Ok? ==> OnlyPrints(r.value.stray)
    ensures r.Ok? && !inFunction ==> r.value.stray == []
    decreases |p|, 1, |p| - i
  {
    if i >= |p| then Ok(Lowered([], [], g))
    else
      var op := p[i];
      if Lower(op).Some? then
        var rest :- LowerSeq(p, i + 1, inFunction, g);
        PrependUnterminated(Lower(op).value, rest.code);
        Ok(rest.(code := [Lower(op).value] + rest.code))
      else if op.Dump? then
        var rest :- LowerSeq(p, i + 1, inFunction, g);
        PrependUnterminated(LPrint, rest.code);
        PrintsAppend([LPrint], rest.stray);
        if inFunction then Ok(rest.(stray := [LPrint] + rest.stray))
        else Ok(rest.(code := [LPrint] + rest.code))
      else if op.Break? then Ok(Lowered([], [], g))
      else if op.Function? then
        var (body, k) := ExtractBlock(p, i + 2);
        var f :- LowerFunction(op.name, op.arity, body, g);
        var rest :- LowerSeq(p, k + 1, inFunction, f.gen);
        GrowsTrans(g, f.gen, rest.gen);
        PrintsAppend(f.stray, rest.stray);
        PrintsThenCode(f.stray, rest.code);
        if inFunction then Ok(rest.(stray := f.stray + rest.stray))
        else Ok(rest.(code := f.stray + rest.code))
      else if op.Call? then
        if op.name !in g.table then Err(FunctionNotFound(op.name))
        else
          var c := g.table[op.name];
          var rest :- LowerSeq(p, i + 1, inFunction, g);
          PrependUnterminated(LCall(c.id, c.params), rest.code);
          Ok(rest.(code := [LCall(c.id, c.params)] + rest.code))
      else if op.If? || op.While? then
        var hasBody :- Header(p, i);
        if !hasBody then LowerSeq(p, i + 1, inFunction, g)
        else
          var (block, k) := ExtractBlock(p, i + 3);
          var b :- LowerSeq(block, 0, inFunction, g);
          var rest :- LowerSeq(p, k + 1, inFunction, b.gen);
          var node := if op.If? then LIf(p[i + 1], b.code) else LWhile(p[i + 1], b.code);
          GrowsTrans(g, b.gen, rest.gen);
          PrintsAppend(b.stray, rest.stray);
          PrependUnterminated(node, rest.code);
          Ok(Lowered([node] + rest.code, b.stray + rest.stray, rest.gen))
      else Err(UnknownOpcode)
  }

  lemma PrependUnterminated(x: LInstr, code: seq<LInstr>)
    requires Unterminated(code) && Unterminated([x])
    ensures Unterminated([x] + code)
  {
    assert forall j :: 0 < j <= |code| ==> ([x] + code)[j] == code[j - 1];
  }

  lemma PrintsAppend(a: seq<LInstr>, b: seq<LInstr>)
    requires OnlyPrints(a) && OnlyPrints(b)
    ensures OnlyPrints(a + b)
  {
    assert forall j :: |a| <= j < |a| + |b| ==> (a + b)[j] == b[j - |a|];
  }

  lemma PrintsThenCode(a: seq<LInstr>, code: seq<LInstr>)
    requires OnlyPrints(a) && Unterminated(code)
    ensures Unterminated(a + code)
  {
    assert forall j :: 0 <= j < |a| ==> (a + code)[j] == LPrint;
    assert forall j :: |a| <= j < |a| + |code| ==> (a + code)[j] == code[j - |a|];
  }

  lemma GrowsTrans(g: Gen, h: Gen, k: Gen)
    requires Grows(g, h) && Grows(h, k)
    ensures Grows(g, k)
  {
  }

  /** `compile_function(name, body, argcount)`: the name is registered
      before the body is lowered, so the body's nested blocks may call the
      function itself. The body's stray DUMPs are handed to the caller. */
  function LowerFunction(name: string, arity: int, body: seq<Instr>, g: Gen): (r: Result<Lowered>)
    ensures r.Ok? ==> Grows(g, r.value.gen) && r.value.code == []
    ensures r.Ok? ==> name in r.value.gen.table && name !in g.table
    ensures r.Ok? ==> OnlyPrints(r.value.stray)
    decreases |body|, 2, 0
  {
    if name in g.table || name in Reserved then Err(DuplicateName(name))
    else
      var id := |g.defs|;
      var params := Params(arity);
      var g1 := Gen(g.table[name := Callee(id, params)], g.defs + [FnCode(params, [])]);
      var b :- LowerFnBody(body, 0, g1);
      Ok(Lowered([], b.stray, b.gen.(defs := b.gen.defs[id := FnCode(params, b.code)])))
  }

  /** Whether the loop of `compile_function`, started at `i`, meets a
      RETURN at the top level of the body before a BREAK or the end of the
      body: it steps over every other instruction, and over the whole body
      of an IF or WHILE that has one. */
  predicate ReachesReturn(p: seq<Instr>, i: nat)
    decreases |p| - i
  {
    if i >= |p| then false
    else if p[i].Return? then true
    else if p[i].Break? then false
    else if (p[i].If? || p[i].While?) && i + 2 < |p| && p[i + 2].Do? then
      ReachesReturn(p, ExtractBlock(p, i + 3).1 + 1)
    else ReachesReturn(p, i + 1)
  }

  /** The loop of `compile_function` from index `i`: its own, smaller set of
      opcodes; DUMP prints the function's own top; RETURN emits a return of
      the popped top and stops; BREAK, or the end of the body, emits a
      return of 0. */
  function LowerFnBody(p: seq<Instr>, i: nat, g: Gen): (r: Result<Lowered>)
    ensures r.Ok? ==> Grows(g, r.value.gen) && Terminated(r.value.code)
    ensures r.Ok? ==> OnlyPrints(r.value.stray)
    decreases |p|, 1, |p| - i, 1
  {
    if i >= |p| then Ok(Lowered([LRetZero], [], g))
    else
      var op := p[i];
      if FnAccepts(op) || op.Dump? then
        var rest :- LowerFnBody(p, i + 1, g);
        var x := if op.Dump? then LPrint else Lower(op).value;
        PrependKeepsTerminated(x, rest.code);
        Ok(rest.(code := [x] + rest.code))
      else if op.Break? then Ok(Lowered([LRetZero], [], g))
      else if op.Return? then Ok(Lowered([LRet], [], g))
      else if op.If? || op.While? then LowerFnBranch(p, i, g)
      else Err(UnknownOpcode)
  }

  /** An IF or WHILE at the top level of a function body: the body, when
      there is one, is lowered as nested code, and the loop goes on after
      its END. */
  function LowerFnBranch(p: seq<Instr>, i: nat, g: Gen): (r: Result<Lowered>)
    requires i < |p| && (p[i].If? || p[i].While?)
    ensures r.Ok? ==> Grows(g, r.value.gen) && Terminated(r.value.code)
    ensures r.Ok? ==> OnlyPrints(r.value.stray)
    decreases |p|, 1, |p| - i, 0
  {
    var hasBody :- Header(p, i);
    if !hasBody then LowerFnBody(p, i + 1, g)
    else
      var (block, k) := ExtractBlock(p, i + 3);
      var b :- LowerSeq(block, 0, true, g);
      var rest :- LowerFnBody(p, k + 1, b.gen);
      var node := if p[i].If? then LIf(p[i + 1], b.code) else LWhile(p[i + 1], b.code);
      GrowsTrans(g, b.gen, rest.gen);
      PrintsAppend(b.stray, rest.stray);
      PrependKeepsTerminated(node, rest.code);
      Ok(Lowered([node] + rest.code, b.stray + rest.stray, rest.gen))
  }

  lemma PrependKeepsTerminated(x: LInstr, code: seq<LInstr>)
    requires Terminated(code) && Unterminated([x])
    ensures Terminated([x] + code)
  {
    assert ([x] + code)[..|code|] == [x] + code[..|code| - 1];
  }

  /** Which return a function body ends in: the return of the popped top
      exactly when the loop reaches a top-level RETURN, and `ret 0` when it
      stops at a BREAK or at the end of the body. */
  lemma {:induction false} FnBodyReturn(p: seq<Instr>, i: nat, g: Gen)
    requires LowerFnBody(p, i, g).Ok?
    ensures var c := LowerFnBody(p, i, g).value.code;
      c[|c| - 1] == (if ReachesReturn(p, i) then LRet else LRetZero)
    decreases |p| - i, 1
  {
    if i < |p| && (FnAccepts(p[i]) || p[i].Dump?) {
      FnBodyReturnStep(p, i, g);
    } else if i + 2 < |p| && (p[i].If? || p[i].While?) && p[i + 2].Do? {
      FnBodyReturnBranch(p, i, g);
    } else if i < |p| && (p[i].If? || p[i].While?) {
      FnBodyReturnNoDo(p, i, g);
    } else {
      FnBodyReturnStop(p, i, g);
    }
  }

  lemma {:induction false} FnBodyReturnStep(p: seq<Instr>, i: nat, g: Gen)
    requires i < |p| && (FnAccepts(p[i]) || p[i].Dump?) && LowerFnBody(p, i, g).Ok?
    ensures var c := LowerFnBody(p, i, g).value.code;
      c[|c| - 1] == (if ReachesReturn(p, i) then LRet else LRetZero)
    decreases |p| - i, 0
  {
    var x := FnBodyStepShape(p, i, g);
    FnBodyReturn(p, i + 1, g);
    ReachesStep(p, i);
    LastOfCons(LowerFnBody(p, i, g).value.code, x, LowerFnBody(p, i + 1, g).value.code,
      if ReachesReturn(p, i + 1) then LRet else LRetZero);
  }

  lemma {:induction false} FnBodyReturnBranch(p: seq<Instr>, i: nat, g: Gen)
    requires i + 2 < |p| && (p[i].If? || p[i].While?) && p[i + 2].Do? && LowerFnBody(p, i, g).Ok?
    ensures var c := LowerFnBody(p, i, g).value.code;
      c[|c| - 1] == (if ReachesReturn(p, i) then LRet else LRetZero)
    decreases |p| - i, 0
  {
    var k := ExtractBlock(p, i + 3).1;
    var g1, node := FnBodyBranchShape(p, i, g);
    var c, rest := LowerFnBody(p, i, g).value.code, LowerFnBody(p, k + 1, g1).value.code;
    var last := if ReachesReturn(p, k + 1) then LRet else LRetZero;
    assert |rest| > 0 && rest[|rest| - 1] == last by {
      FnBodyReturn(p, k + 1, g1);
    }
    assert ReachesReturn(p, i) == ReachesReturn(p, k + 1) by {
      ReachesOver(p, i);
    }
    LastOfCons(c, node, rest, last);
  }

  lemma {:induction false} FnBodyReturnNoDo(p: seq<Instr>, i: nat, g: Gen)
    requires i < |p| && (p[i].If? || p[i].While?) && LowerFnBody(p, i, g).Ok?
    requires i + 2 < |p| ==> !p[i + 2].Do?
    ensures var c := LowerFnBody(p, i, g).value.code;
      c[|c| - 1] == (if ReachesReturn(p, i) then LRet else LRetZero)
    decreases |p| - i, 0
  {
    FnBodyNoDo(p, i, g);
    FnBodyReturn(p, i + 1, g);
    assert ReachesReturn(p, i) == ReachesReturn(p, i + 1);
  }

  lemma FnBodyReturnStop(p: seq<Instr>, i: nat, g: Gen)
    requires i < |p| ==> !(FnAccepts(p[i]) || p[i].Dump? || p[i].If? || p[i].While?)
    requires LowerFnBody(p, i, g).Ok?
    ensures var c := LowerFnBody(p, i, g).value.code;
      c[|c| - 1] == (if ReachesReturn(p, i) then LRet else LRetZero)
  {
  }

  /** The loop steps over an opcode it lowers in place. */
  lemma ReachesStep(p: seq<Instr>, i: nat)
    requires i < |p| && (FnAccepts(p[i]) || p[i].Dump?)
    ensures ReachesReturn(p, i) == ReachesReturn(p, i + 1)
  {
  }

  /** The loop steps over the whole body of an IF or WHILE that has one. */
  lemma ReachesOver(p: seq<Instr>, i: nat)
    requires i + 2 < |p| && (p[i].If? || p[i].While?) && p[i + 2].Do?
    ensures ReachesReturn(p, i) == ReachesReturn(p, ExtractBlock(p, i + 3).1 + 1)
  {
  }

  /** Putting an instruction in front keeps the last one. */
  lemma LastOfCons(c: seq<LInstr>, x: LInstr, code: seq<LInstr>, last: LInstr)
    requires c == [x] + code && |code| > 0 && code[|code| - 1] == last
    ensures |c| > 0 && c[|c| - 1] == last
  {
    assert c[|c| - 1] == code[|code| - 1];
  }

  /** An opcode lowered in place is put in front of the rest of the body. */
  lemma FnBodyStepShape(p: seq<Instr>, i: nat, g: Gen) returns (x: LInstr)
    requires i < |p| && (FnAccepts(p[i]) || p[i].Dump?) && LowerFnBody(p, i, g).Ok?
    ensures LowerFnBody(p, i + 1, g).Ok?
    ensures LowerFnBody(p, i, g).value.code == [x] + LowerFnBody(p, i + 1, g).value.code
  {
    x := if p[i].Dump? then LPrint else Lower(p[i]).value;
  }

  /** An IF or WHILE with a body is put in front of the code after its END,
      lowered from the generator state its body leaves. */
  lemma FnBodyBranchShape(p: seq<Instr>, i: nat, g: Gen) returns (g1: Gen, node: LInstr)
    requires i + 2 < |p| && (p[i].If? || p[i].While?) && p[i + 2].Do? && LowerFnBody(p, i, g).Ok?
    ensures LowerFnBody(p, ExtractBlock(p, i + 3).1 + 1, g1).Ok?
    ensures LowerFnBody(p, i, g).value.code == [node] + LowerFnBody(p, ExtractBlock(p, i + 3).1 + 1, g1).value.code
  {
    assert LowerFnBody(p, i, g) == LowerFnBranch(p, i, g);
    var (block, k) := ExtractBlock(p, i + 3);
    var b := LowerSeq(block, 0, true, g).value;
    g1 := b.gen;
    node := if p[i].If? then LIf(p[i + 1], b.code) else LWhile(p[i + 1], b.code);
  }

  /** An IF or WHILE without DO lowers nothing and moves on. */
  lemma FnBodyNoDo(p: seq<Instr>, i: nat, g: Gen)
    requires i < |p| && (p[i].If? || p[i].While?) && LowerFnBody(p, i, g).Ok?
    requires i + 2 < |p| ==> !p[i + 2].Do?
    ensures LowerFnBody(p, i, g) == LowerFnBody(p, i + 1, g)
  {
  }

  /** The whole program: `compile` on the main function, which then returns
      0. */
  function Generate(p: seq<Instr>): (r: Result<Module>)
    ensures r.Ok? ==> Terminated(r.value.main)
    ensures r.Ok? ==> r.value.main[|r.value.main| - 1] == LRetZero
  {
    var m :- LowerSeq(p, 0, false, Gen(map[], []));
    assert (m.code + [LRetZero])[..|m.code|] == m.code;
    Ok(Module(m.code + [LRetZero], m.gen.defs))
  }

  // ---------------------------------------------------------------------
  // Properties of lowering

  /** What `compile` accepts that the top level of a function body does
      not: INCREMENT, DECREMENT, CALL of a registered name and FUNCTION of
      a fresh one. A CALL of an unregistered name fails. */
  lemma CompileAccepts(g: Gen, inFunction: bool, name: string, arity: int)
    ensures LowerSeq([Increment], 0, inFunction, g) == Ok(Lowered([LIncr], [], g))
    ensures LowerSeq([Decrement], 0, inFunction, g) == Ok(Lowered([LDecr], [], g))
    ensures name in g.table ==>
      LowerSeq([Call(name)], 0, inFunction, g) ==
      Ok(Lowered([LCall(g.table[name].id, g.table[name].params)], [], g))
    ensures name !in g.table ==> LowerSeq([Call(name)], 0, inFunction, g) == Err(FunctionNotFound(name))
    ensures name !in g.table && name !in Reserved ==> LowerSeq([Function(name, arity)], 0, inFunction, g).Ok?
  {
    SingleLowers(Increment, inFunction, g);
    SingleLowers(Decrement, inFunction, g);
    CallLowers(g, inFunction, name);
    assert ExtractBlock([Function(name, arity)], 2) == ([], 2);
  }

  /** A one-instruction list whose opcode `Lower` maps lowers to that one
      instruction. */
  lemma SingleLowers(op: Instr, inFunction: bool, g: Gen)
    requires Lower(op).Some?
    ensures LowerSeq([op], 0, inFunction, g) == Ok(Lowered([Lower(op).value], [], g))
  {
    assert LowerSeq([op], 1, inFunction, g) == Ok(Lowered([], [], g));
    assert [Lower(op).value] + [] == [Lower(op).value];
  }

  lemma CallLowers(g: Gen, inFunction: bool, name: string)
    ensures name in g.table ==>
      LowerSeq([Call(name)], 0, inFunction, g) ==
      Ok(Lowered([LCall(g.table[name].id, g.table[name].params)], [], g))
    ensures name !in g.table ==> LowerSeq([Call(name)], 0, inFunction, g) == Err(FunctionNotFound(name))
  {
    assert LowerSeq([Call(name)], 1, inFunction, g) == Ok(Lowered([], [], g));
    if name in g.table {
      var c := g.table[name];
      assert [LCall(c.id, c.params)] + [] == [LCall(c.id, c.params)];
    }
  }

  /** The top level of a function body rejects those four as unknown
      opcodes. */
  lemma FunctionTopRejects(g: Gen, name: string, arity: int)
    ensures LowerFnBody([Increment], 0, g) == Err(UnknownOpcode)
    ensures LowerFnBody([Decrement], 0, g) == Err(UnknownOpcode)
    ensures LowerFnBody([Call(name)], 0, g) == Err(UnknownOpcode)
    ensures LowerFnBody([Function(name, arity)], 0, g) == Err(UnknownOpcode)
  {
  }

  /** RETURN the other way round: only the top level of a function body
      accepts it; in `compile`, inside IF and WHILE bodies too, it is an
      unknown opcode. */
  lemma ReturnContexts(g: Gen, inFunction: bool)
    ensures LowerSeq([Return], 0, inFunction, g) == Err(UnknownOpcode)
    ensures LowerFnBody([Return], 0, g) == Ok(Lowered([LRet], [], g))
  {
  }

  /** A FUNCTION whose name is already a global of the module fails, and a
      successful one registers the name with the next number and the
      declared parameter count (0 for a negative count). */
  lemma FunctionRegistration(name: string, arity: int, body: seq<Instr>, g: Gen)
    ensures name in g.table || name in Reserved ==> LowerFunction(name, arity, body, g) == Err(DuplicateName(name))
    ensures LowerFunction(name, arity, body, g).Ok? ==>
      var h := LowerFunction(name, arity, body, g).value.gen;
      && h.table[name] == Callee(|g.defs|, Params(arity))
      && |g.defs| < |h.defs|
      && h.defs[|g.defs|].params == Params(arity)
  {
    if !(name in g.table || name in Reserved) {
      var g1 := Gen(g.table[name := Callee(|g.defs|, Params(arity))], g.defs + [FnCode(Params(arity), [])]);
      assert g1.table[name] == Callee(|g.defs|, Params(arity));
    }
  }

  /** IF and WHILE need DO after the relation tag: with anything else the
      lowering moves on to the tag itself, which no branch accepts. */
  lemma HeaderWithoutDoFails(p: seq<Instr>, i: nat, inFunction: bool, g: Gen)
    requires i + 2 < |p| && (p[i].If? || p[i].While?)
    requires IsCondition(p[i + 1]) && !p[i + 2].Do?
    ensures LowerSeq(p, i, inFunction, g) == Err(UnknownOpcode)
    ensures LowerFnBody(p, i, g) == Err(UnknownOpcode)
  {
    assert LowerSeq(p, i + 1, inFunction, g) == Err(UnknownOpcode);
    assert LowerFnBody(p, i + 1, g) == Err(UnknownOpcode);
    assert LowerFnBody(p, i, g) == LowerFnBranch(p, i, g);
  }

  /** No IF, WHILE or FUNCTION among the instructions. */
  predicate NoOpeners(p: seq<Instr>) {
    forall j :: 0 <= j < |p| ==> !IsOpener(p[j])
  }

  /** BREAK stops the lowering of the list it is in: whatever follows it,
      even instructions no context accepts, is never looked at. */
  lemma {:induction false} BreakTruncates(p: seq<Instr>, q: seq<Instr>, i: nat, inFunction: bool, g: Gen)
    requires NoOpeners(p) && i <= |p|
    ensures LowerSeq(p + [Break] + q, i, inFunction, g) == LowerSeq(p, i, inFunction, g)
    decreases |p| - i
  {
    var t := p + [Break] + q;
    if i < |p| {
      assert t[i] == p[i];
      BreakTruncates(p, q, i + 1, inFunction, g);
    } else {
      assert t[i] == Break;
    }
  }

  /** The same at the top level of a function body. */
  lemma {:induction false} BreakTruncatesBody(p: seq<Instr>, q: seq<Instr>, i: nat, g: Gen)
    requires NoOpeners(p) && i <= |p|
    ensures LowerFnBody(p + [Break] + q, i, g) == LowerFnBody(p, i, g)
    decreases |p| - i
  {
    var t := p + [Break] + q;
    if i < |p| {
      assert t[i] == p[i];
      BreakTruncatesBody(p, q, i + 1, g);
    } else {
      assert t[i] == Break;
    }
  }

  /** At the top level of a function body, RETURN is the last instruction
      lowered: what follows it is never looked at. */
  lemma {:induction false} ReturnTruncates(p: seq<Instr>, q: seq<Instr>, i: nat, g: Gen)
    requires NoOpeners(p) && i <= |p|
    ensures LowerFnBody(p + [Return] + q, i, g) == LowerFnBody(p + [Return], i, g)
    decreases |p| - i
  {
    var t := p + [Return] + q;
    var u := p + [Return];
    if i < |p| {
      assert t[i] == p[i] && u[i] == p[i];
      ReturnTruncates(p, q, i + 1, g);
    } else {
      assert t[i] == Return && u[i] == Return;
    }
  }
}
