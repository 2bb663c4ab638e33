/** slang.py, the first, self-contained version of the language: its own
    `iota` numbering of PUSH through WHILE, a simulator over one global
    stack shared by every nested run, and `compile_file`, a one-word-per-
    instruction reader with its own keyword table.

    The simulator resumes after an IF or WHILE one instruction too late:
    after a body it sets the index past the END and then, like every other
    instruction, advances it once more, and without a body it advances past
    the tag and then once more. `fixed` selects between the code as written
    (false) and the evidently intended resumption right after the END, or
    right after the tag (true). */
module Slang {
  import opened Outcomes
  import opened Opcodes
  import opened StackOps
  import opened Numerals
  import Tokenizer
  import I = Interpreter

  // ---------------------------------------------------------------------
  // Opcodes

  /** The kinds slang.py declares, PUSH through WHILE, which are the first
      19 in declaration order. */
  const SlangKinds: nat := 19

  predicate IsSlang(op: Instr) {
    Position(op) < SlangKinds
  }

  /** The `COUNT_OPCODES` constant of slang.py (and, unchanged, of
      definitions.py). Nothing reads it. */
  const CountOpcodes: nat := 18

  /** slang.py numbers its kinds with the same `iota` run as definitions.py
      does the first 19 of its own, so every slang opcode constant equals the
      later one of the same name; its integer constants are exactly
      0 .. COUNT_OPCODES - 1, while definitions.py has integer constants
      beyond COUNT_OPCODES. */
  lemma SlangNumbering(op: Instr)
    ensures IsSlang(op) ==> Code(op) == IotaRun(Declarations(SlangKinds), 0)[Position(op)]
    ensures IsSlang(op) && !op.Push? <==> Code(op).Some? && Code(op).value < CountOpcodes
    ensures Code(Else) == Some(KindCount - 2) && KindCount - 2 >= CountOpcodes
  {
    IotaAfterReset(SlangKinds, 0);
  }

  /** The integer constants below COUNT_OPCODES are exactly those of the
      bare slang kinds. */
  lemma SlangCodesCounted(c: nat)
    requires c < CountOpcodes
    ensures Nullary(c).Some? && IsSlang(Nullary(c).value) && Code(Nullary(c).value) == Some(c)
  {
  }

  // ---------------------------------------------------------------------
  // The simulator

  /** The global `stack` and what `print` has written. */
  datatype Machine = Machine(stack: seq<int>, output: seq<int>)

  /** The instructions the main loop carries out in place. */
  predicate IsFlat(op: Instr) {
    op.Push? || op.Pop? || op.Add? || op.Sub? || op.Mul? || op.Div? || op.Dump?
  }

  /** PUSH appends, POP, ADD, SUB and MUL pop their operands top first and
      combine them as `top OP second`, DIV always ends the integer model,
      and DUMP prints `stack[-1]` without removing it. */
  function Flat(op: Instr, m: Machine): (r: Result<Machine>)
    requires IsFlat(op)
    ensures r.Ok? && op.Dump? ==>
      r.value.stack == m.stack && |m.stack| > 0 && r.value.output == m.output + [m.stack[|m.stack| - 1]]
    ensures r.Ok? && !op.Dump? ==> r.value.output == m.output
    ensures op.Push? ==> r == Ok(m.(stack := m.stack + [op.n]))
    ensures op.Div? ==> r.Err?
  {
    if op.Push? then Ok(m.(stack := m.stack + [op.n]))
    else if op.Div? then Err(DivFault(m.stack))
    else if op.Dump? then
      var top :- Peek(m.stack, 1);
      Ok(m.(output := m.output + [top]))
    else
      var s :- StackOp(op, m.stack);
      Ok(m.(stack := s))
  }

  /** The condition after IF or WHILE: a relation tag compares `stack[-1]`
      with `stack[-2]`; anything else leaves `truth` at False. */
  function Cond(tag: Instr, s: seq<int>): (r: Result<bool>)
    ensures !IsCondition(tag) ==> r == Ok(false)
    ensures IsCondition(tag) ==> (r.Ok? <==> |s| >= 2)
    ensures IsCondition(tag) && r.Ok? ==> r.value == Holds(tag, s[|s| - 1], s[|s| - 2])
    ensures r.Err? ==> r.fault == StackUnderflow
  {
    if !IsCondition(tag) then Ok(false)
    else
      var a :- Peek(s, 1);
      var b :- Peek(s, 2);
      Ok(Holds(tag, a, b))
  }

  /** The scan for the END of a body: the first END at or after `j`, with no
      regard for nesting; running off the program is the IndexError of the
      source. */
  function FindEnd(p: seq<Instr>, j: nat): (r: Option<nat>)
    ensures r.Some? ==> j <= r.value < |p| && p[r.value].End?
    ensures r.Some? ==> forall k :: j <= k < r.value ==> !p[k].End?
    ensures r.None? ==> forall k :: j <= k < |p| ==> !p[k].End?
    decreases |p| - j
  {
    if j >= |p| then None
    else if p[j].End? then Some(j)
    else FindEnd(p, j + 1)
  }

  /** Where the main loop continues after an IF or WHILE whose body ended at
      index `j`. */
  function AfterBody(fixed: bool, j: nat): nat {
    if fixed then j + 1 else j + 2
  }

  /** Where the main loop continues after an IF or WHILE at index `i` that
      has no body. */
  function AfterTag(fixed: bool, i: nat): nat {
    if fixed then i + 2 else i + 3
  }

  /** `simulate(program)` continued from index `i`. Each nested run of a
      body costs one unit of `fuel`. */
  function Exec(fuel: nat, fixed: bool, p: seq<Instr>, i: nat, m: Machine): Result<Machine>
    decreases fuel, 1, |p| - i, 2
  {
    if i >= |p| then Ok(m)
    else
      var op := p[i];
      if IsFlat(op) then
        var next :- Flat(op, m);
        Exec(fuel, fixed, p, i + 1, next)
      else if op.If? || op.While? then Branch(fuel, fixed, p, i, m)
      else Err(UnknownOpcode)
  }

  /** IF and WHILE at index `i`: the tag at `i + 1` is evaluated first, then
      `i + 2` must be BEGIN for a body to exist. */
  function Branch(fuel: nat, fixed: bool, p: seq<Instr>, i: nat, m: Machine): Result<Machine>
    requires i < |p| && (p[i].If? || p[i].While?)
    decreases fuel, 1, |p| - i, 1
  {
    if i + 1 >= |p| then Err(MissingInstruction)
    else
      var truth :- Cond(p[i + 1], m.stack);
      if i + 2 >= |p| then Err(MissingInstruction)
      else if p[i + 2].Begin? then Body(fuel, fixed, p, i, truth, m)
      else Exec(fuel, fixed, p, AfterTag(fixed, i), m)
  }

  /** The body after BEGIN runs up to the first END; it is run once or
      repeatedly on the shared stack, and the main loop then resumes. */
  function Body(fuel: nat, fixed: bool, p: seq<Instr>, i: nat, truth: bool, m: Machine): Result<Machine>
    requires i + 2 < |p| && (p[i].If? || p[i].While?)
    decreases fuel, 1, |p| - i, 0
  {
    match FindEnd(p, i + 3)
    case None => Err(MissingInstruction)
    case Some(j) =>
      var after :- RunBody(fuel, fixed, p[i], p[i + 1], p[i + 3..j], truth, m);
      Exec(fuel, fixed, p, AfterBody(fixed, j), after)
  }

  /** IF runs the body once, WHILE as long as its tag holds. */
  function RunBody(fuel: nat, fixed: bool, opener: Instr, tag: Instr, body: seq<Instr>, truth: bool, m: Machine): Result<Machine>
    decreases fuel, 0, 0, 1
  {
    if opener.If? then Once(fuel, fixed, body, truth, m) else Loop(fuel, fixed, tag, body, truth, m)
  }

  /** `if truth: simulate(block)`. */
  function Once(fuel: nat, fixed: bool, body: seq<Instr>, truth: bool, m: Machine): Result<Machine>
    decreases fuel, 0, 0, 0
  {
    if !truth then Ok(m)
    else if fuel == 0 then Err(OutOfFuel)
    else Exec(fuel - 1, fixed, body, 0, m)
  }

  /** `while truth: simulate(block)`, the tag re-evaluated after each run. */
  function Loop(fuel: nat, fixed: bool, tag: Instr, body: seq<Instr>, truth: bool, m: Machine): Result<Machine>
    decreases fuel, 0, 0, 0
  {
    if !truth then Ok(m)
    else if fuel == 0 then Err(OutOfFuel)
    else
      var after :- Exec(fuel - 1, fixed, body, 0, m);
      var again :- Cond(tag, after.stack);
      Loop(fuel - 1, fixed, tag, body, again, after)
  }

  /** A run of a whole program on the global stack. */
  function Run(fuel: nat, fixed: bool, p: seq<Instr>, m: Machine): Result<Machine> {
    Exec(fuel, fixed, p, 0, m)
  }

  // ---------------------------------------------------------------------
  // Control flow

  /** Continuing after `f` unless it failed. */
  function Then(r: Result<Machine>, fuel: nat, fixed: bool, p: seq<Instr>, i: nat): Result<Machine> {
    match r
    case Err(f) => Err(f)
    case Ok(after) => Exec(fuel, fixed, p, i, after)
  }

  /** IF or WHILE over a body ended by an END at `j`: the condition is read,
      the body runs (or not) on the shared stack, and the main loop resumes
      at `AfterBody`; as written that passes over the instruction that
      follows END. */
  lemma BranchWithBody(fuel: nat, fixed: bool, p: seq<Instr>, i: nat, j: nat, m: Machine)
    requires i + 2 < |p| && (p[i].If? || p[i].While?) && p[i + 2].Begin? && FindEnd(p, i + 3) == Some(j)
    ensures Exec(fuel, fixed, p, i, m) ==
      match Cond(p[i + 1], m.stack)
      case Err(f) => Err(f)
      case Ok(truth) => Then(RunBody(fuel, fixed, p[i], p[i + 1], p[i + 3..j], truth, m), fuel, fixed, p, AfterBody(fixed, j))
  {
    assert Exec(fuel, fixed, p, i, m) == Branch(fuel, fixed, p, i, m);
    match Cond(p[i + 1], m.stack) {
      case Err(f) =>
      case Ok(truth) =>
        assert Branch(fuel, fixed, p, i, m) == Body(fuel, fixed, p, i, truth, m);
    }
  }

  /** One instruction of the main loop carried out in place. */
  lemma StepFlat(fuel: nat, fixed: bool, p: seq<Instr>, i: nat, m: Machine, next: Machine)
    requires i < |p| && IsFlat(p[i]) && Flat(p[i], m) == Ok(next)
    ensures Exec(fuel, fixed, p, i, m) == Exec(fuel, fixed, p, i + 1, next)
  {
  }

  /** An IF whose condition fails skips its body. */
  lemma IfSkips(fuel: nat, fixed: bool, p: seq<Instr>, i: nat, j: nat, m: Machine)
    requires i + 2 < |p| && p[i].If? && p[i + 2].Begin? && FindEnd(p, i + 3) == Some(j)
    requires Cond(p[i + 1], m.stack) == Ok(false)
    ensures Exec(fuel, fixed, p, i, m) == Exec(fuel, fixed, p, AfterBody(fixed, j), m)
  {
    BranchWithBody(fuel, fixed, p, i, j, m);
  }

  /** An IF whose condition holds runs the body once. */
  lemma IfRuns(fuel: nat, fixed: bool, p: seq<Instr>, i: nat, j: nat, m: Machine)
    requires i + 2 < |p| && p[i].If? && p[i + 2].Begin? && FindEnd(p, i + 3) == Some(j)
    requires Cond(p[i + 1], m.stack) == Ok(true) && fuel > 0
    ensures Exec(fuel, fixed, p, i, m) == Then(Exec(fuel - 1, fixed, p[i + 3..j], 0, m), fuel, fixed, p, AfterBody(fixed, j))
  {
    BranchWithBody(fuel, fixed, p, i, j, m);
  }

  /** An IF or WHILE without a body still evaluates its condition, and then
      continues at `AfterTag`. */
  lemma NoBodySkips(fuel: nat, fixed: bool, p: seq<Instr>, i: nat, m: Machine)
    requires i + 2 < |p| && (p[i].If? || p[i].While?) && !p[i + 2].Begin?
    ensures Cond(p[i + 1], m.stack).Ok? ==> Exec(fuel, fixed, p, i, m) == Exec(fuel, fixed, p, AfterTag(fixed, i), m)
    ensures Cond(p[i + 1], m.stack).Err? ==> Exec(fuel, fixed, p, i, m) == Err(StackUnderflow)
  {
    assert Exec(fuel, fixed, p, i, m) == Branch(fuel, fixed, p, i, m);
  }

  /** A body is cut at the first END: an inner IF inside it finds no END of
      its own and faults. */
  lemma NestingUnsupported(fuel: nat, fixed: bool, m: Machine)
    requires |m.stack| >= 2 && m.stack[|m.stack| - 1] == m.stack[|m.stack| - 2]
    requires fuel > 0
    ensures Run(fuel, fixed, [If, IsEql, Begin, If, IsEql, Begin, End, End], m) == Err(MissingInstruction)
  {
    var p := [If, IsEql, Begin, If, IsEql, Begin, End, End];
    assert FindEnd(p, 5) == Some(6);
    assert FindEnd(p, 3) == Some(6);
    var body := p[3..6];
    assert body == [If, IsEql, Begin];
    assert FindEnd(body, 3) == None;
    assert Exec(fuel - 1, fixed, body, 0, m) == Branch(fuel - 1, fixed, body, 0, m);
    assert Cond(IsEql, m.stack) == Ok(true);
    assert Branch(fuel - 1, fixed, body, 0, m) == Body(fuel - 1, fixed, body, 0, true, m);
    assert Exec(fuel - 1, fixed, body, 0, m) == Err(MissingInstruction);
    IfRuns(fuel, fixed, p, 0, 6, m);
  }

  /** A tag that is no relation keeps WHILE's body from ever running. */
  lemma WhileNeedsTag(fuel: nat, fixed: bool, p: seq<Instr>, i: nat, j: nat, m: Machine)
    requires i + 2 < |p| && p[i].While? && !IsCondition(p[i + 1]) && p[i + 2].Begin?
    requires FindEnd(p, i + 3) == Some(j)
    ensures Exec(fuel, fixed, p, i, m) == Exec(fuel, fixed, p, AfterBody(fixed, j), m)
  {
    BranchWithBody(fuel, fixed, p, i, j, m);
  }

  /** WHILE re-evaluates its tag after every run of the body: counting the
      top down to the 0 beneath it by adding -1 takes `n` runs. */
  lemma {:induction false} Countdown(fuel: nat, fixed: bool, n: nat, s: seq<int>, o: seq<int>)
    ensures Loop(fuel, fixed, IsGrt, [Push(-1), Add], n > 0, Machine(s + [0, n], o)) ==
      (if fuel >= n then Ok(Machine(s + [0, 0], o)) else Err(OutOfFuel))
  {
    if n > 0 && fuel > 0 {
      var m := Machine(s + [0, n], o);
      var body := [Push(-1), Add];
      var pushed := Machine(s + [0, n] + [-1], o);
      var after := Machine(s + [0, n - 1], o);
      ArithmeticShapes(s + [0], n, -1);
      assert s + [0] + [n as int, -1] == s + [0, n] + [-1];
      assert s + [0] + [-1 + n] == s + [0, n - 1];
      assert Flat(Add, pushed) == Ok(after);
      assert Exec(fuel - 1, fixed, body, 1, pushed) == Exec(fuel - 1, fixed, body, 2, after);
      assert Exec(fuel - 1, fixed, body, 0, m) == Ok(after);
      assert Cond(IsGrt, after.stack) == Ok(n - 1 > 0);
      Countdown(fuel - 1, fixed, n - 1, s, o);
    }
  }

  // ---------------------------------------------------------------------
  // Suffixes

  /** Running a program from index `i + k` is running its suffix from `i`
      on from index `k`: every jump of the simulator is relative. */
  lemma {:induction false} SuffixFrom(fuel: nat, fixed: bool, p: seq<Instr>, i: nat, k: nat, m: Machine)
    requires i <= |p|
    ensures Exec(fuel, fixed, p, i + k, m) == Exec(fuel, fixed, p[i..], k, m)
    decreases |p| - i - k, 3
  {
    var q := p[i..];
    if i + k < |p| {
      var op := p[i + k];
      assert q[k] == op;
      if IsFlat(op) {
        match Flat(op, m) {
          case Err(f) =>
          case Ok(next) => SuffixFrom(fuel, fixed, p, i, k + 1, next);
        }
      } else if op.If? || op.While? {
        SuffixBranch(fuel, fixed, p, i, k, m);
      }
    }
  }

  lemma {:induction false} SuffixBranch(fuel: nat, fixed: bool, p: seq<Instr>, i: nat, k: nat, m: Machine)
    requires i + k < |p| && (p[i + k].If? || p[i + k].While?)
    ensures Branch(fuel, fixed, p, i + k, m) == Branch(fuel, fixed, p[i..], k, m)
    decreases |p| - i - k, 2
  {
    var q := p[i..];
    var n := i + k;
    if n + 2 < |p| {
      assert q[k + 1] == p[n + 1] && q[k + 2] == p[n + 2];
      if p[n + 2].Begin? {
        SuffixBody(fuel, fixed, p, i, k, true, m);
        SuffixBody(fuel, fixed, p, i, k, false, m);
      } else if AfterTag(fixed, n) <= |p| {
        SuffixFrom(fuel, fixed, p, i, AfterTag(fixed, n) - i, m);
      }
    } else if n + 1 < |p| {
      assert q[k + 1] == p[n + 1];
    }
  }

  lemma {:induction false} SuffixBody(fuel: nat, fixed: bool, p: seq<Instr>, i: nat, k: nat, truth: bool, m: Machine)
    requires i + k + 2 < |p| && (p[i + k].If? || p[i + k].While?)
    ensures Body(fuel, fixed, p, i + k, truth, m) == Body(fuel, fixed, p[i..], k, truth, m)
    decreases |p| - i - k, 1
  {
    FindEndShift(p, i, k + 3);
    match FindEnd(p, i + k + 3) {
      case None =>
      case Some(j) => SuffixBodyAt(fuel, fixed, p, i, k, j, truth, m);
    }
  }

  lemma {:induction false} SuffixBodyAt(fuel: nat, fixed: bool, p: seq<Instr>, i: nat, k: nat, j: nat, truth: bool, m: Machine)
    requires i + k + 2 < |p| && (p[i + k].If? || p[i + k].While?)
    requires FindEnd(p, i + k + 3) == Some(j) && FindEnd(p[i..], k + 3) == Some(j - i)
    ensures Body(fuel, fixed, p, i + k, truth, m) == Body(fuel, fixed, p[i..], k, truth, m)
    decreases |p| - i - k, 0
  {
    var q := p[i..];
    var n := i + k;
    SuffixSlice(p, i, k + 3, j - i);
    assert q[k] == p[n] && q[k + 1] == p[n + 1];
    var r := RunBody(fuel, fixed, p[n], p[n + 1], p[n + 3..j], truth, m);
    BodyAt(fuel, fixed, p, n, j, truth, m);
    BodyAt(fuel, fixed, q, k, j - i, truth, m);
    assert AfterBody(fixed, j - i) == AfterBody(fixed, j) - i;
    ThenShift(r, fuel, fixed, p, i, AfterBody(fixed, j));
  }

  lemma {:induction false} ThenShift(r: Result<Machine>, fuel: nat, fixed: bool, p: seq<Instr>, i: nat, a: nat)
    requires i <= |p| && i <= a
    ensures Then(r, fuel, fixed, p, a) == Then(r, fuel, fixed, p[i..], a - i)
    decreases |p| - a, 4
  {
    if r.Ok? && a <= |p| {
      SuffixFrom(fuel, fixed, p, i, a - i, r.value);
    }
  }

  lemma SuffixSlice<T>(p: seq<T>, i: nat, a: nat, b: nat)
    requires i <= |p| && a <= b <= |p| - i
    ensures p[i..][a..b] == p[i + a..i + b]
  {
  }

  /** A body that ends at `j` runs, and the main loop resumes at `AfterBody`. */
  lemma BodyAt(fuel: nat, fixed: bool, p: seq<Instr>, i: nat, j: nat, truth: bool, m: Machine)
    requires i + 2 < |p| && (p[i].If? || p[i].While?) && FindEnd(p, i + 3) == Some(j)
    ensures Body(fuel, fixed, p, i, truth, m) ==
      Then(RunBody(fuel, fixed, p[i], p[i + 1], p[i + 3..j], truth, m), fuel, fixed, p, AfterBody(fixed, j))
  {
  }

  lemma {:induction false} FindEndShift(p: seq<Instr>, i: nat, k: nat)
    requires i <= |p|
    ensures FindEnd(p, i + k) == (match FindEnd(p[i..], k) case None => None case Some(j) => Some(j + i))
    decreases |p| - i - k
  {
    if i + k < |p| {
      assert p[i..][k] == p[i + k];
      FindEndShift(p, i, k + 1);
    }
  }

  lemma FindEndAt(p: seq<Instr>, body: seq<Instr>, s: nat, j: nat)
    requires s + |body| == j < |p| && p[s..j] == body && p[j].End?
    requires forall k :: 0 <= k < |body| ==> !body[k].End?
    ensures FindEnd(p, s) == Some(j)
  {
    forall k | s <= k < j ensures !p[k].End? {
      assert p[k] == body[k - s];
    }
  }

  // ---------------------------------------------------------------------
  // The resumption finding

  /** An IF over a body, followed by the instructions `rest`: the body runs
      (or not) and then, with the resumption corrected, all of `rest` runs as
      a program of its own, while as written the first instruction of `rest`
      is passed over. */
  lemma {:induction false} IfThenRest(fuel: nat, fixed: bool, tag: Instr, body: seq<Instr>, rest: seq<Instr>, m: Machine)
    requires forall k :: 0 <= k < |body| ==> !body[k].End?
    ensures var p := [If, tag, Begin] + body + [End] + rest;
      var skipped := if fixed || rest == [] then 0 else 1;
      Exec(fuel, fixed, p, 0, m) ==
        match Cond(tag, m.stack)
        case Err(f) => Err(f)
        case Ok(truth) => Then(Once(fuel, fixed, body, truth, m), fuel, fixed, rest[skipped..], 0)
  {
    var p := [If, tag, Begin] + body + [End] + rest;
    var j := 3 + |body|;
    assert p[3..j] == body;
    FindEndAt(p, body, 3, j);
    BranchWithBody(fuel, fixed, p, 0, j, m);
    assert p[j + 1..] == rest;
    match Cond(tag, m.stack) {
      case Err(f) =>
      case Ok(truth) =>
        match Once(fuel, fixed, body, truth, m) {
          case Err(f) =>
          case Ok(after) =>
            if fixed || rest == [] {
              SuffixFrom(fuel, fixed, p, j + 1, 0, after);
              if !fixed {
                assert Exec(fuel, fixed, p, j + 2, after) == Ok(after);
              }
            } else {
              assert p[j + 2..] == rest[1..];
              SuffixFrom(fuel, fixed, p, j + 2, 0, after);
            }
        }
    }
  }

  /** `1 1 if == begin end 7 dump`: the condition holds, the empty body
      runs, and the code as written resumes at DUMP, skipping `7`, so it
      prints 1; resuming right after END prints 7. */
  const SkipExample: seq<Instr> := [Push(1), Push(1), If, IsEql, Begin, End, Push(7), Dump]

  /** `1 1 if == 7 dump`: without a body the code as written skips `7` as
      well. */
  const NoBodyExample: seq<Instr> := [Push(1), Push(1), If, IsEql, Push(7), Dump]

  lemma Prefix11(fuel: nat, fixed: bool, p: seq<Instr>)
    requires |p| > 2 && p[0] == Push(1) && p[1] == Push(1)
    ensures Run(fuel, fixed, p, Machine([], [])) == Exec(fuel, fixed, p, 2, Machine([1, 1], []))
  {
    assert [] + [1] == [1] && [1] + [1] == [1, 1];
    StepFlat(fuel, fixed, p, 0, Machine([], []), Machine([1], []));
    StepFlat(fuel, fixed, p, 1, Machine([1], []), Machine([1, 1], []));
  }

  lemma SkipAsWritten(fuel: nat)
    requires fuel > 0
    ensures Run(fuel, false, SkipExample, Machine([], [])) == Ok(Machine([1, 1], [1]))
    ensures Run(fuel, false, NoBodyExample, Machine([], [])) == Ok(Machine([1, 1], [1]))
  {
    var m := Machine([1, 1], []);
    Prefix11(fuel, false, SkipExample);
    assert FindEnd(SkipExample, 5) == Some(5);
    IfRuns(fuel, false, SkipExample, 2, 5, m);
    assert SkipExample[5..5] == [];
    assert [] + [1] == [1];
    StepFlat(fuel, false, SkipExample, 7, m, Machine([1, 1], [1]));
    Prefix11(fuel, false, NoBodyExample);
    NoBodySkips(fuel, false, NoBodyExample, 2, m);
    StepFlat(fuel, false, NoBodyExample, 5, m, Machine([1, 1], [1]));
  }

  lemma SkipCorrected(fuel: nat)
    requires fuel > 0
    ensures Run(fuel, true, SkipExample, Machine([], [])) == Ok(Machine([1, 1, 7], [7]))
    ensures Run(fuel, true, NoBodyExample, Machine([], [])) == Ok(Machine([1, 1, 7], [7]))
  {
    var m := Machine([1, 1], []);
    var m7 := Machine([1, 1, 7], []);
    Prefix11(fuel, true, SkipExample);
    assert FindEnd(SkipExample, 5) == Some(5);
    IfRuns(fuel, true, SkipExample, 2, 5, m);
    assert SkipExample[5..5] == [];
    assert [1, 1] + [7] == [1, 1, 7] && [] + [7] == [7];
    StepFlat(fuel, true, SkipExample, 6, m, m7);
    StepFlat(fuel, true, SkipExample, 7, m7, Machine([1, 1, 7], [7]));
    Prefix11(fuel, true, NoBodyExample);
    NoBodySkips(fuel, true, NoBodyExample, 2, m);
    StepFlat(fuel, true, NoBodyExample, 4, m, m7);
    StepFlat(fuel, true, NoBodyExample, 5, m7, Machine([1, 1, 7], [7]));
  }

  // ---------------------------------------------------------------------
  // Agreement with the later interpreter

  /** A program of PUSH, POP, ADD, SUB, MUL, DIV and DUMP only. */
  predicate FlatProgram(p: seq<Instr>) {
    forall k :: 0 <= k < |p| ==> IsFlat(p[k])
  }

  /** The later interpreter's state with slang's stack and output and no
      functions. */
  function AsVM(m: Machine): I.VM {
    I.VM(m.stack, [], map[], m.output)
  }

  function Project(r: Result<I.VM>): Result<Machine> {
    match r
    case Err(f) => Err(f)
    case Ok(vm) => Ok(Machine(vm.stack, vm.output))
  }

  lemma FlatAgreesStep(op: Instr, m: Machine)
    requires IsFlat(op)
    ensures I.IsStraight(op)
    ensures Project(I.Straight(op, AsVM(m))) == Flat(op, m)
    ensures I.Straight(op, AsVM(m)).Ok? ==> I.Straight(op, AsVM(m)).value == AsVM(Flat(op, m).value)
  {
  }

  /** On straight-line programs the two simulators agree exactly: the same
      faults, the same stack and the same printed values. */
  lemma {:induction false} FlatAgrees(fuel: nat, fixed: bool, p: seq<Instr>, i: nat, m: Machine)
    requires FlatProgram(p)
    ensures Exec(fuel, fixed, p, i, m) == Project(I.Exec(fuel, p, i, false, AsVM(m)))
    decreases |p| - i
  {
    if i < |p| {
      var op := p[i];
      FlatAgreesStep(op, m);
      match Flat(op, m) {
        case Err(f) =>
        case Ok(next) => FlatAgrees(fuel, fixed, p, i + 1, next);
      }
    }
  }

  /** On a relation tag the conditions of the two simulators agree; on any
      other instruction slang reads False where the later interpreter
      raises. */
  lemma CondAgrees(tag: Instr, s: seq<int>)
    ensures IsCondition(tag) ==> Cond(tag, s) == I.EvalCond(tag, s)
    ensures !IsCondition(tag) ==> Cond(tag, s) == Ok(false) && I.EvalCond(tag, s) == Err(UnknownCondition)
  {
  }

  /** DUP and BREAK are declared but the simulator knows neither. */
  lemma UnknownOpcodes(fuel: nat, fixed: bool, m: Machine)
    ensures Run(fuel, fixed, [Dup], m) == Err(UnknownOpcode)
    ensures Run(fuel, fixed, [Break], m) == Err(UnknownOpcode)
    ensures Run(fuel, fixed, [End], m) == Err(UnknownOpcode)
  {
  }

  // ---------------------------------------------------------------------
  // compile_file

  /** The words `compile_file` compares a token against. */
  function Keyword(t: string): Option<Instr> {
    if t == "pop" then Some(Pop)
    else if t == "add" then Some(Add)
    else if t == "sub" then Some(Sub)
    else if t == "mul" then Some(Mul)
    else if t == "div" then Some(Div)
    else if t == "dump" then Some(Dump)
    else if t == "if" then Some(If)
    else if t == "begin" then Some(Begin)
    else if t == "end" then Some(End)
    else if t == "while" then Some(While)
    else if t == "==" then Some(IsEql)
    else if t == "!=" then Some(IsNeq)
    else if t == ">" then Some(IsGrt)
    else if t == "<" then Some(IsLss)
    else if t == ">=" then Some(IsGeq)
    else if t == "<=" then Some(IsLeq)
    else None
  }

  /** The instructions a keyword spells: the slang kinds other than PUSH,
      DUP and BREAK. */
  predicate IsSpelled(op: Instr) {
    IsSlang(op) && !op.Push? && !op.Dup? && !op.Break?
  }

  function Spelling(op: Instr): string
    requires IsSpelled(op)
  {
    match op
    case Pop => "pop"     case Add => "add"     case Sub => "sub"     case Mul => "mul"
    case Div => "div"     case Dump => "dump"   case If => "if"       case Begin => "begin"
    case End => "end"     case While => "while" case IsEql => "=="    case IsNeq => "!="
    case IsGrt => ">"     case IsLss => "<"     case IsGeq => ">="    case IsLeq => "<="
  }

  lemma KeywordSpelling(op: Instr)
    requires IsSpelled(op)
    ensures Keyword(Spelling(op)) == Some(op)
  {
  }

  lemma SpellingKeyword(t: string)
    requires Keyword(t).Some?
    ensures IsSpelled(Keyword(t).value) && Spelling(Keyword(t).value) == t
  {
    match Keyword(t).value {
      case Pop => case Add => case Sub => case Mul => case Div => case Dump =>
      case If => case Begin => case End => case While =>
      case IsEql => case IsNeq => case IsGrt => case IsLss => case IsGeq => case IsLeq =>
      case _ => assert false;
    }
  }

  /** One token of `compile_file`, read against slang's keywords. */
  function ReadWord(t: string): Result<Instr> {
    Tokenizer.ReadWith(Keyword(t), t)
  }

  /** The loop of `compile_file`: one instruction per token, the first
      unreadable token raising. */
  function Compile(ts: seq<string>): (r: Result<seq<Instr>>)
    ensures r.Ok? ==> |r.value| == |ts|
    ensures r.Ok? ==> forall k :: 0 <= k < |ts| ==> ReadWord(ts[k]) == Ok(r.value[k])
    ensures r.Err? <==> exists k :: 0 <= k < |ts| && ReadWord(ts[k]).Err?
    ensures r.Err? ==> exists k ::
      && 0 <= k < |ts| && r == Err(UnknownToken(ts[k]))
      && forall j :: 0 <= j < k ==> ReadWord(ts[j]).Ok?
  {
    if ts == [] then Ok([])
    else
      var op :- ReadWord(ts[0]);
      var rest :- Compile(ts[1..]);
      Ok([op] + rest)
  }

  /** `compile_file` on the file's content. */
  function CompileText(content: string): Result<seq<Instr>> {
    Compile(Tokenizer.Words(content))
  }

  /** The script's entry point: compile the file, then simulate it on the
      empty global stack; the values printed, or the fault. */
  function Script(fuel: nat, fixed: bool, content: string): Result<seq<int>> {
    var p :- CompileText(content);
    var m :- Run(fuel, fixed, p, Machine([], []));
    Ok(m.output)
  }

  /** Every compiled instruction is a slang one other than DUP and BREAK. */
  lemma CompiledSpelled(ts: seq<string>)
    requires Compile(ts).Ok?
    ensures forall k :: 0 <= k < |ts| ==> IsSpelled(Compile(ts).value[k]) || Compile(ts).value[k].Push?
  {
    forall k | 0 <= k < |ts|
      ensures IsSpelled(Compile(ts).value[k]) || Compile(ts).value[k].Push?
    {
      if Keyword(ts[k]).Some? { SpellingKeyword(ts[k]); }
    }
  }

  /** The tokens of a program. */
  function Render(p: seq<Instr>): (ts: seq<string>)
    requires forall k :: 0 <= k < |p| ==> IsSpelled(p[k]) || p[k].Push?
    ensures |ts| == |p|
    ensures forall k :: 0 <= k < |p| ==> ts[k] == (if p[k].Push? then Show(p[k].n) else Spelling(p[k]))
  {
    if p == [] then [] else [if p[0].Push? then Show(p[0].n) else Spelling(p[0])] + Render(p[1..])
  }

  lemma NumeralIsNoKeyword(n: int)
    ensures Keyword(Show(n)) == None
  {
    ShowEndsInDigit(n);
  }

  /** Reading the tokens of a program gives the program back. */
  lemma CompileRender(p: seq<Instr>)
    requires forall k :: 0 <= k < |p| ==> IsSpelled(p[k]) || p[k].Push?
    ensures Compile(Render(p)) == Ok(p)
  {
    var ts := Render(p);
    forall k | 0 <= k < |p| ensures ReadWord(ts[k]) == Ok(p[k]) {
      ReadRendered(p[k]);
    }
    CompileExact(ts, p);
  }

  /** Tokens that each read as the matching instruction compile to exactly
      those instructions. */
  lemma {:induction false} CompileExact(ts: seq<string>, p: seq<Instr>)
    requires |ts| == |p| && forall k :: 0 <= k < |p| ==> ReadWord(ts[k]) == Ok(p[k])
    ensures Compile(ts) == Ok(p)
  {
    if ts != [] {
      assert ReadWord(ts[0]) == Ok(p[0]);
      assert forall k :: 0 <= k < |p| - 1 ==> ts[1..][k] == ts[k + 1] && p[1..][k] == p[k + 1];
      CompileExact(ts[1..], p[1..]);
      assert p == [p[0]] + p[1..];
    }
  }

  lemma ReadRendered(op: Instr)
    requires IsSpelled(op) || op.Push?
    ensures ReadWord(if op.Push? then Show(op.n) else Spelling(op)) == Ok(op)
  {
    if op.Push? {
      NumeralIsNoKeyword(op.n);
      ParseShow(op.n);
    } else {
      KeywordSpelling(op);
    }
  }

  /** The two readers share the spellings `if`, `begin`, `end`, `while` and
      the six relations but not the rest: slang's `pop` and `add` are
      unknown to definitions.py, and its `+` and `.` unknown to slang. */
  lemma ReadersDiffer()
    ensures Keyword("pop") == Some(Pop) && Tokenizer.Keyword("pop") == None
    ensures Keyword("+") == None && Tokenizer.Keyword("+") == Some(Add)
    ensures Keyword(".") == None && Tokenizer.Keyword(".") == Some(Dump)
    ensures forall t: string ::
      (Keyword(t).Some? && !IsStackOp(Keyword(t).value) && !Keyword(t).value.Div? && !Keyword(t).value.Dump?)
      ==> Tokenizer.Keyword(t) == Keyword(t)
  {
  }
}
