/** The operand stack of the generated native code: an array of 1024 `i32`
    cells and a stack pointer, with the helpers the compiler emits for it
    (`pop_stack`, `push_stack`, `copy_pop`, `pop_bottom`, `push_bottom`).
    Nothing in the generated code checks the pointer; an access outside the
    array is undefined behaviour and is modelled as the fault OutOfBounds. */
module ArrayStack {
  import opened Outcomes
  import opened StackOps

  /** Number of cells of every stack array. */
  const Capacity: nat := 1024

  /** One stack array and its pointer: the next free cell. */
  datatype Frame = Frame(cells: seq<int>, sp: int)

  /** A pointer that stays within the array, and an array of full size. */
  predicate Valid(f: Frame) {
    |f.cells| == Capacity && 0 <= f.sp <= Capacity
  }

  /** A freshly allocated stack with the pointer stored as 0. The cells of
      an `alloca` are uninitialised; they are zero here, and
      `NativeCode.NOpViewOnly` shows that no lowered stack instruction
      observes the cells at or above the pointer. */
  const Fresh: Frame := Frame(Zeros(Capacity), 0)

  function Zeros(n: nat): (s: seq<int>)
    ensures |s| == n
  {
    if n == 0 then [] else Zeros(n - 1) + [0]
  }

  /** The live part of the array, bottom first: what the interpreter would
      call the stack. */
  function View(f: Frame): (s: seq<int>)
    requires Valid(f)
    ensures |s| == f.sp
  {
    f.cells[..f.sp]
  }

  /** Reading one cell through `gep` + `load`. */
  function Load(f: Frame, index: int): Result<int> {
    if 0 <= index < |f.cells| then Ok(f.cells[index]) else Err(OutOfBounds)
  }

  /** Writing one cell through `gep` + `store`. */
  function Store(f: Frame, index: int, v: int): (r: Result<Frame>)
    ensures r.Ok? ==> r.value.sp == f.sp && |r.value.cells| == |f.cells|
  {
    if 0 <= index < |f.cells| then Ok(f.(cells := f.cells[index := v])) else Err(OutOfBounds)
  }

  /** `pop_stack`: decrements the stored pointer, then loads the cell it
      now designates. */
  function PopStack(f: Frame): Result<(Frame, int)> {
    var g := f.(sp := f.sp - 1);
    var v :- Load(g, g.sp);
    Ok((g, v))
  }

  /** `push_stack`: stores at the pointer, then increments it. */
  function PushStack(f: Frame, v: int): Result<Frame> {
    var g :- Store(f, f.sp, v);
    Ok(g.(sp := g.sp + 1))
  }

  /** `copy_pop(offset)`: loads the cell at `sp + offset` without moving the
      pointer (`offset` is -1 for the top and -2 for the one beneath). */
  function CopyPop(f: Frame, offset: int): Result<int> {
    Load(f, f.sp + offset)
  }

  /** `pop_bottom`: loads cell 0, without removing it. */
  function LoadBottom(f: Frame): Result<int> {
    Load(f, 0)
  }

  /** `push_bottom`: overwrites cell 0. */
  function StoreBottom(f: Frame, v: int): Result<Frame> {
    Store(f, 0, v)
  }

  /** Popping refines `stack.pop()`: on a non-empty live part it removes
      and returns the last live element; on an empty one it faults, as the
      list pop raises. */
  lemma PopRefines(f: Frame)
    requires Valid(f)
    ensures PopStack(f).Ok? <==> f.sp > 0
    ensures PopStack(f).Ok? ==>
      var (g, v) := PopStack(f).value;
      && Valid(g) && g.cells == f.cells
      && PopTop(View(f)) == Ok(Popped(View(g), v))
    ensures PopStack(f).Err? ==> PopStack(f) == Err(OutOfBounds) && PopTop(View(f)).Err?
  {
    if f.sp > 0 {
      var g := PopStack(f).value.0;
      assert View(g) == View(f)[..f.sp - 1];
    }
  }

  /** Pushing refines `stack.append(x)` as long as a free cell is left; on a
      full array it writes past the end and faults. */
  lemma PushRefines(f: Frame, v: int)
    requires Valid(f)
    ensures PushStack(f, v).Ok? <==> f.sp < Capacity
    ensures PushStack(f, v).Ok? ==>
      Valid(PushStack(f, v).value) && View(PushStack(f, v).value) == View(f) + [v]
  {
    if f.sp < Capacity {
      var g := PushStack(f, v).value;
      assert View(g) == f.cells[f.sp := v][..f.sp + 1];
    }
  }

  /** A pop after a push gives back the pushed value and the original
      pointer. */
  lemma PushThenPop(f: Frame, v: int)
    requires Valid(f) && f.sp < Capacity
    ensures PushStack(f, v).Ok?
    ensures var g := PushStack(f, v).value;
      PopStack(g).Ok? && PopStack(g).value.1 == v && PopStack(g).value.0.sp == f.sp
      && View(PopStack(g).value.0) == View(f)
  {
    PushRefines(f, v);
  }

  /** `copy_pop(-k)` refines `stack[-k]`. */
  lemma CopyPopRefines(f: Frame, k: int)
    requires Valid(f) && k >= 1
    ensures CopyPop(f, -k).Ok? <==> f.sp >= k
    ensures CopyPop(f, -k).Ok? ==> Peek(View(f), k) == CopyPop(f, -k)
  {
  }

  /** Cells at or beyond the pointer are invisible to the helpers: on two
      frames that agree on their live parts, `pop_stack`, `copy_pop(-k)`
      and `push_stack` fail alike, read the same values and leave frames
      that agree again; `pop_bottom` reads the same cell 0 while a value is
      live. */
  lemma ViewOnly(f: Frame, g: Frame, k: int, v: int)
    requires Valid(f) && Valid(g) && f.sp == g.sp && View(f) == View(g)
    ensures PopStack(f).Ok? <==> PopStack(g).Ok?
    ensures PopStack(f).Ok? ==>
      && PopStack(f).value.1 == PopStack(g).value.1
      && Valid(PopStack(f).value.0) && Valid(PopStack(g).value.0)
      && View(PopStack(f).value.0) == View(PopStack(g).value.0)
    ensures k >= 1 ==> CopyPop(f, -k) == CopyPop(g, -k)
    ensures LoadBottom(f).Ok? && LoadBottom(g).Ok?
    ensures f.sp > 0 ==> LoadBottom(f) == LoadBottom(g)
    ensures PushStack(f, v).Ok? <==> PushStack(g, v).Ok?
    ensures PushStack(f, v).Ok? ==>
      && Valid(PushStack(f, v).value) && Valid(PushStack(g, v).value)
      && View(PushStack(f, v).value) == View(PushStack(g, v).value)
  {
    PopRefines(f);
    PopRefines(g);
    if 1 <= k <= f.sp {
      assert f.cells[f.sp - k] == View(f)[f.sp - k];
    }
    if f.sp > 0 {
      assert f.cells[0] == View(f)[0];
    }
    PushRefines(f, v);
    PushRefines(g, v);
  }

}
