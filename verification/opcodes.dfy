/** The instruction vocabulary of the stack language (definitions.py), the
    integer numbering `iota` gives the opcodes, and the tuple form
    `(opcode, operands...)` in which the Python code carries instructions. */
module Opcodes {
  import opened Outcomes

  /** One instruction. `Push` carries its literal, `Function` its name and
      declared argument count, `Call` the callee's name; every other kind is
      a bare opcode. */
  datatype Instr =
    | Push(n: int) | Pop | Add | Sub | Mul | Div | Dump | Dup | Break | End | Begin | If
    | IsEql | IsNeq | IsGrt | IsLss | IsGeq | IsLeq | While
    | Function(name: string, arity: int) | Return | Call(name: string) | Do
    | Decrement | Increment | Swap | Rot | Over | Flip | Else

  /** Index of the instruction's kind in the declaration order of the opcode
      constants. */
  function Position(op: Instr): nat {
    match op
    case Push(_) => 0     case Pop => 1        case Add => 2        case Sub => 3
    case Mul => 4         case Div => 5        case Dump => 6       case Dup => 7
    case Break => 8       case End => 9        case Begin => 10     case If => 11
    case IsEql => 12      case IsNeq => 13     case IsGrt => 14     case IsLss => 15
    case IsGeq => 16      case IsLeq => 17     case While => 18     case Function(_, _) => 19
    case Return => 20     case Call(_) => 21   case Do => 22        case Decrement => 23
    case Increment => 24  case Swap => 25      case Rot => 26       case Over => 27
    case Flip => 28       case Else => 29
  }

  const KindCount: nat := 30

  /** One call of `iota`: a reset call returns nothing and restarts the
      counter, a plain call returns the counter and advances it.
      Returns the produced value and the counter afterwards. */
  function Iota(counter: nat, reset: bool): (Option<nat>, nat) {
    if reset then (None, 0) else (Some(counter), counter + 1)
  }

  /** The values produced by a series of `iota` calls, `calls[k]` telling
      whether the k-th call passes `reset=True`. */
  function IotaRun(calls: seq<bool>, counter: nat): (values: seq<Option<nat>>)
    ensures |values| == |calls|
  {
    if calls == [] then []
    else
      var (v, next) := Iota(counter, calls[0]);
      [v] + IotaRun(calls[1..], next)
  }

  /** The constant definitions call `iota(reset=True)` for the first opcode
      and plain `iota()` for each of the remaining ones. */
  function Declarations(kinds: nat): (calls: seq<bool>)
    requires kinds > 0
    ensures |calls| == kinds
  {
    [true] + Plain(kinds - 1)
  }

  /** `n` plain calls of `iota`. */
  function Plain(n: nat): (calls: seq<bool>)
    ensures |calls| == n
  {
    seq(n, _ => false)
  }

  lemma {:induction false} IotaCounts(n: nat, counter: nat)
    ensures forall k :: 0 <= k < n ==> IotaRun(Plain(n), counter)[k] == Some(counter + k)
  {
    if n > 0 {
      assert Plain(n)[1..] == Plain(n - 1);
      IotaCounts(n - 1, counter + 1);
    }
  }

  /** After a reset, `iota` numbers the remaining declarations 0, 1, 2, ... */
  lemma IotaAfterReset(kinds: nat, counter: nat)
    requires kinds > 0
    ensures forall k :: 0 <= k < kinds ==>
      IotaRun(Declarations(kinds), counter)[k] == (if k == 0 then None else Some(k - 1))
  {
    assert Declarations(kinds)[1..] == Plain(kinds - 1);
    IotaCounts(kinds - 1, 0);
  }

  /** The value of the opcode constant of `op`'s kind: PUSH is None and the
      other kinds count up from 0 in declaration order (POP = 0 ... ELSE = 28). */
  function Code(op: Instr): Option<nat> {
    if op.Push? then None else Some(Position(op) - 1)
  }

  /** Each opcode constant is exactly the value `iota` produced at that
      kind's declaration, the first declaration being the reset call. */
  lemma CodeIsIota(op: Instr)
    ensures Code(op) == IotaRun(Declarations(KindCount), 0)[Position(op)]
  {
    IotaAfterReset(KindCount, 0);
  }

  /** Two opcode constants are equal only for the same kind of instruction,
      and the integer ones stay below the number of kinds less one. */
  lemma CodesDistinct(a: Instr, b: Instr)
    ensures Code(a) == Code(b) <==> Position(a) == Position(b)
    ensures Code(a).Some? ==> Code(a).value < KindCount - 1
  {
  }

  /** An operand of an instruction tuple. */
  datatype Operand = IntOperand(i: int) | NameOperand(s: string)

  /** The Python representation of an instruction: the opcode constant
      followed by the operands. */
  datatype Tuple = Tuple(code: Option<nat>, operands: seq<Operand>)

  /** The instruction constructors of definitions.py: `push(x)` is
      `(PUSH, x)`, `function(name, argcount)` is `(FUNCTION, name, argcount)`,
      `call(name)` is `(CALL, name)`, and every other constructor yields the
      one-element tuple of its opcode. */
  function Encode(op: Instr): Tuple {
    match op
    case Push(n) => Tuple(Code(op), [IntOperand(n)])
    case Function(name, arity) => Tuple(Code(op), [NameOperand(name), IntOperand(arity)])
    case Call(name) => Tuple(Code(op), [NameOperand(name)])
    case _ => Tuple(Code(op), [])
  }

  /** The bare instruction whose opcode constant is `c`, if any. */
  function Nullary(c: nat): Option<Instr> {
    match c
    case 0 => Some(Pop)          case 1 => Some(Add)        case 2 => Some(Sub)
    case 3 => Some(Mul)          case 4 => Some(Div)        case 5 => Some(Dump)
    case 6 => Some(Dup)          case 7 => Some(Break)      case 8 => Some(End)
    case 9 => Some(Begin)        case 10 => Some(If)        case 11 => Some(IsEql)
    case 12 => Some(IsNeq)       case 13 => Some(IsGrt)     case 14 => Some(IsLss)
    case 15 => Some(IsGeq)       case 16 => Some(IsLeq)     case 17 => Some(While)
    case 19 => Some(Return)      case 21 => Some(Do)        case 22 => Some(Decrement)
    case 23 => Some(Increment)   case 24 => Some(Swap)      case 25 => Some(Rot)
    case 26 => Some(Over)        case 27 => Some(Flip)      case 28 => Some(Else)
    case _ => None
  }

  /** Reading a tuple back by its first element, the way every simulator
      dispatches on `opcode[0]`: PUSH (None), FUNCTION and CALL carry
      operands, every other constant stands alone. */
  function Decode(t: Tuple): Option<Instr> {
    var ops := t.operands;
    match t.code
    case None =>
      if |ops| == 1 && ops[0].IntOperand? then Some(Push(ops[0].i)) else None
    case Some(c) =>
      if Some(c) == Code(Function("", 0)) then
        if |ops| == 2 && ops[0].NameOperand? && ops[1].IntOperand?
        then Some(Function(ops[0].s, ops[1].i)) else None
      else if Some(c) == Code(Call("")) then
        if |ops| == 1 && ops[0].NameOperand? then Some(Call(ops[0].s)) else None
      else if ops == [] then Nullary(c)
      else None
  }

  /** The tuple form loses nothing: dispatching on the opcode constant
      recovers exactly the instruction that was built. */
  lemma DecodeEncode(op: Instr)
    ensures Decode(Encode(op)) == Some(op)
  {
    if !op.Push? && !op.Function? && !op.Call? {
      DecodeBare(op);
    }
  }

  lemma DecodeBare(op: Instr)
    requires !op.Push? && !op.Function? && !op.Call?
    ensures Decode(Encode(op)) == Some(op)
  {
    NullaryCode(op);
    EncodeBare(op);
    DecodeNullary(Position(op) - 1);
  }

  lemma EncodeBare(op: Instr)
    requires !op.Push? && !op.Function? && !op.Call?
    ensures Encode(op) == Tuple(Some(Position(op) - 1), [])
  {
  }

  lemma DecodeNullary(c: nat)
    requires Nullary(c).Some?
    ensures Decode(Tuple(Some(c), [])) == Nullary(c)
  {
    assert c != 18 && c != 20;
    assert Code(Function("", 0)) == Some(18) && Code(Call("")) == Some(20);
  }

  /** Every bare instruction is the one its opcode constant names. */
  lemma NullaryCode(op: Instr)
    requires !op.Push? && !op.Function? && !op.Call?
    ensures Nullary(Position(op) - 1) == Some(op)
  {
  }

  /** The six relation tags consumed by `if` and `while`. */
  predicate IsCondition(op: Instr) {
    op.IsEql? || op.IsNeq? || op.IsGrt? || op.IsLss? || op.IsGeq? || op.IsLeq?
  }

  /** The relation a tag names, applied with the top of the stack on the
      left and the element beneath it on the right. */
  function Holds(tag: Instr, top: int, second: int): bool
    requires IsCondition(tag)
  {
    match tag
    case IsEql => top == second
    case IsNeq => top != second
    case IsGrt => top > second
    case IsLss => top < second
    case IsGeq => top >= second
    case IsLeq => top <= second
  }

  /** Complementary tags give complementary answers, and `>`/`<` (and
      `>=`/`<=`) trade places when the operands do. */
  lemma HoldsDuality(top: int, second: int)
    ensures Holds(IsNeq, top, second) == !Holds(IsEql, top, second)
    ensures Holds(IsGeq, top, second) == !Holds(IsLss, top, second)
    ensures Holds(IsLeq, top, second) == !Holds(IsGrt, top, second)
    ensures Holds(IsGrt, top, second) == Holds(IsLss, second, top)
    ensures Holds(IsGeq, top, second) == Holds(IsLeq, second, top)
  {
  }

  /** The constructs that own a body ended by a matching `end`. */
  predicate IsOpener(op: Instr) {
    op.If? || op.While? || op.Function?
  }
}
