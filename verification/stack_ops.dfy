/** The operand-stack operations the two Python simulators share, written
    as the sequence of list operations the source performs (`stack.pop()`,
    `stack.pop(0)`, `stack.insert(0, x)`, `stack[-k]`, `stack.append(x)`).
    Values are Python integers, so nothing wraps. */
module StackOps {
  import opened Outcomes
  import opened Opcodes

  /** A value removed from the stack and what remains. */
  datatype Popped = Popped(rest: seq<int>, value: int)

  /** `stack.pop()`: removes and returns the last element. */
  function PopTop(s: seq<int>): Result<Popped> {
    if |s| == 0 then Err(StackUnderflow) else Ok(Popped(s[..|s| - 1], s[|s| - 1]))
  }

  /** `stack.pop(0)`: removes and returns the first element. */
  function PopBottom(s: seq<int>): Result<Popped> {
    if |s| == 0 then Err(StackUnderflow) else Ok(Popped(s[1..], s[0]))
  }

  /** `stack[-k]` for k >= 1: reads without removing. */
  function Peek(s: seq<int>, k: nat): Result<int>
    requires k >= 1
  {
    if |s| < k then Err(StackUnderflow) else Ok(s[|s| - k])
  }

  /** The opcodes that only reshape or combine stack values. */
  predicate IsStackOp(op: Instr) {
    op.Pop? || op.Add? || op.Sub? || op.Mul? || op.Swap? || op.Rot? || op.Over?
    || op.Dup? || op.Flip? || op.Increment? || op.Decrement?
  }

  /** The effect of one stack opcode, as the interpreter's branches perform
      it: operands are popped top first, so `a` is the old top. */
  function StackOp(op: Instr, s: seq<int>): Result<seq<int>>
    requires IsStackOp(op)
  {
    match op
    case Pop =>
      var a :- PopTop(s);
      Ok(a.rest)
    case Add =>
      var a :- PopTop(s);
      var b :- PopTop(a.rest);
      Ok(b.rest + [a.value + b.value])
    case Sub =>
      var a :- PopTop(s);
      var b :- PopTop(a.rest);
      Ok(b.rest + [a.value - b.value])
    case Mul =>
      var a :- PopTop(s);
      var b :- PopTop(a.rest);
      Ok(b.rest + [a.value * b.value])
    case Swap =>
      var top :- PopTop(s);
      var second :- PopTop(top.rest);
      Ok(second.rest + [top.value, second.value])
    case Rot =>
      var top :- PopTop(s);
      var second :- PopTop(top.rest);
      var third :- PopTop(second.rest);
      Ok(third.rest + [top.value, third.value, second.value])
    case Over =>
      var x :- Peek(s, 2);
      Ok(s + [x])
    case Dup =>
      var x :- Peek(s, 1);
      Ok(s + [x])
    case Flip =>
      var top :- PopTop(s);
      var bottom :- PopBottom(top.rest);
      Ok([top.value] + bottom.rest + [bottom.value])
    case Increment =>
      var top :- PopTop(s);
      Ok(top.rest + [top.value + 1])
    case Decrement =>
      var top :- PopTop(s);
      Ok(top.rest + [top.value - 1])
  }

  /** How many elements an opcode needs on the stack. */
  function Needs(op: Instr): nat
    requires IsStackOp(op)
  {
    match op
    case Pop => 1        case Add => 2       case Sub => 2        case Mul => 2
    case Swap => 2       case Rot => 3       case Over => 2       case Dup => 1
    case Flip => 2       case Increment => 1 case Decrement => 1
  }

  /** How many elements an opcode leaves in place of the ones it needs. */
  function Leaves(op: Instr): nat
    requires IsStackOp(op)
  {
    match op
    case Pop => 0        case Add => 1       case Sub => 1        case Mul => 1
    case Swap => 2       case Rot => 3       case Over => 3       case Dup => 2
    case Flip => 2       case Increment => 1 case Decrement => 1
  }

  /** The stack-effect signature of every stack opcode: it fails exactly
      when fewer than `Needs` elements are present, replaces its `Needs`
      topmost elements by `Leaves` elements, and (all but FLIP, which writes
      the bottom) leaves everything beneath untouched. */
  lemma StackEffect(op: Instr, s: seq<int>)
    requires IsStackOp(op)
    ensures StackOp(op, s).Err? <==> |s| < Needs(op)
    ensures StackOp(op, s).Err? ==> StackOp(op, s).fault == StackUnderflow
    ensures StackOp(op, s).Ok? ==> |StackOp(op, s).value| == |s| - Needs(op) + Leaves(op)
    ensures StackOp(op, s).Ok? && !op.Flip? ==>
      StackOp(op, s).value[..|s| - Needs(op)] == s[..|s| - Needs(op)]
  {
    if |s| >= Needs(op) && !op.Flip? {
      var n := |s| - Needs(op);
      var r := StackOp(op, s).value;
      assert r[..n] == s[..n] by {
        forall j | 0 <= j < n ensures r[j] == s[j] {
        }
      }
    }
  }

  /** ADD, SUB and MUL pop two and push one; SUB and the others combine the
      first-popped (old top) `a` with the second-popped `b` as `a OP b`. */
  lemma ArithmeticShapes(s: seq<int>, b: int, a: int)
    ensures StackOp(Add, s + [b, a]) == Ok(s + [a + b])
    ensures StackOp(Sub, s + [b, a]) == Ok(s + [a - b])
    ensures StackOp(Mul, s + [b, a]) == Ok(s + [a * b])
  {
    var t := s + [b, a];
    assert t[..|t| - 1] == s + [b];
    assert (s + [b])[..|s|] == s;
  }

  /** `[3, 4]` with SUB becomes `[1]`: 4 - 3. */
  lemma SubExample()
    ensures StackOp(Sub, [3, 4]) == Ok([1])
  {
    var s: seq<int> := [3, 4];
    assert s[..1] == [3] && [3][..0] == [];
    assert PopTop(s) == Ok(Popped([3], 4));
    assert PopTop([3]) == Ok(Popped([], 3));
    assert StackOp(Sub, s) == Ok([] + [4 - 3]);
    assert [] + [4 - 3] == [1];
  }

  /** The stack shapers: SWAP turns `[..,b,a]` into `[..,a,b]`, ROT turns
      `[..,c,b,a]` into `[..,a,c,b]`, OVER copies the second, DUP copies the
      top, INCREMENT and DECREMENT replace the top with top plus or minus 1. */
  lemma ShaperShapes(s: seq<int>, c: int, b: int, a: int)
    ensures StackOp(Swap, s + [b, a]) == Ok(s + [a, b])
    ensures StackOp(Rot, s + [c, b, a]) == Ok(s + [a, c, b])
    ensures StackOp(Over, s + [b, a]) == Ok(s + [b, a, b])
    ensures StackOp(Dup, s + [a]) == Ok(s + [a, a])
    ensures StackOp(Increment, s + [a]) == Ok(s + [a + 1])
    ensures StackOp(Decrement, s + [a]) == Ok(s + [a - 1])
  {
    var t2 := s + [b, a];
    assert t2[..|t2| - 1] == s + [b];
    assert (s + [b])[..|s|] == s;
    var t3 := s + [c, b, a];
    assert t3[..|t3| - 1] == s + [c, b];
    assert (s + [c, b])[..|s| + 1] == s + [c];
    assert (s + [c])[..|s|] == s;
    assert (s + [a])[..|s|] == s;
    assert t2 + [b] == s + [b, a, b];
    assert (s + [a]) + [a] == s + [a, a];
  }

  /** On a stack of two or more, FLIP exchanges the first and the last
      element and keeps everything between. */
  lemma FlipExchanges(s: seq<int>)
    requires |s| >= 2
    ensures StackOp(Flip, s).Ok?
    ensures var r := StackOp(Flip, s).value;
      && |r| == |s|
      && r[0] == s[|s| - 1] && r[|s| - 1] == s[0]
      && r[1..|s| - 1] == s[1..|s| - 1]
  {
  }

  /** Applying two stack opcodes in turn. */
  function Then(r: Result<seq<int>>, op: Instr): Result<seq<int>>
    requires IsStackOp(op)
  {
    match r
    case Ok(s) => StackOp(op, s)
    case Err(f) => Err(f)
  }

  /** SWAP undoes itself. */
  lemma SwapInvolutive(s: seq<int>)
    requires |s| >= 2
    ensures Then(StackOp(Swap, s), Swap) == Ok(s)
  {
    var n := |s|;
    var rest := s[..n - 2];
    assert s == rest + [s[n - 2], s[n - 1]];
    ShaperShapes(rest, 0, s[n - 2], s[n - 1]);
    ShaperShapes(rest, 0, s[n - 1], s[n - 2]);
  }

  /** FLIP undoes itself. */
  lemma FlipInvolutive(s: seq<int>)
    requires |s| >= 2
    ensures Then(StackOp(Flip, s), Flip) == Ok(s)
  {
    FlipExchanges(s);
    var f := StackOp(Flip, s).value;
    FlipExchanges(f);
    var g := StackOp(Flip, f).value;
    assert forall k :: 0 <= k < |s| ==> g[k] == s[k] by {
      forall k | 0 <= k < |s| ensures g[k] == s[k] {
        if 0 < k < |s| - 1 {
          assert g[k] == g[1..|s| - 1][k - 1];
          assert s[k] == s[1..|s| - 1][k - 1];
        }
      }
    }
    assert g == s;
  }

  /** Three ROTs restore the stack. */
  lemma RotThrice(s: seq<int>)
    requires |s| >= 3
    ensures Then(Then(StackOp(Rot, s), Rot), Rot) == Ok(s)
  {
    var n := |s|;
    var rest := s[..n - 3];
    var c, b, a := s[n - 3], s[n - 2], s[n - 1];
    assert s == rest + [c, b, a];
    ShaperShapes(rest, c, b, a);
    ShaperShapes(rest, a, c, b);
    ShaperShapes(rest, b, a, c);
  }

  /** DECREMENT undoes INCREMENT, and POP undoes DUP. */
  lemma IncrementDupInverses(s: seq<int>)
    requires |s| >= 1
    ensures Then(StackOp(Increment, s), Decrement) == Ok(s)
    ensures Then(StackOp(Dup, s), Pop) == Ok(s)
  {
    var n := |s|;
    var rest := s[..n - 1];
    assert s == rest + [s[n - 1]];
    ShaperShapes(rest, 0, 0, s[n - 1]);
    ShaperShapes(rest, 0, 0, s[n - 1] + 1);
    assert (rest + [s[n - 1], s[n - 1]])[..n] == s;
  }

  /** DIV: both pops happen before the division, whose divisor is the
      second-popped value; a zero divisor raises, and any other quotient is
      a Python float, which ends the integer model. */
  function DivFault(s: seq<int>): Fault {
    match PopTop(s)
    case Err(f) => f
    case Ok(a) =>
      match PopTop(a.rest)
      case Err(f) => f
      case Ok(b) => if b.value == 0 then DivisionByZero else FloatQuotient
  }
}
