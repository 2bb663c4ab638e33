/** Structural block extraction: recovering the body of an `if`, `while` or
    `function` from the flat instruction list by counting nesting depth.
    interpreter.py and compiler.py hold token-identical copies of this scan;
    the model defines it once. */
module Blocks {
  import opened Opcodes

  /** Change of nesting depth caused by one scanned instruction. */
  function DepthStep(op: Instr): int {
    if IsOpener(op) then 1 else if op.End? then -1 else 0
  }

  /** Net nesting depth after scanning `p[s..j)`. */
  function Depth(p: seq<Instr>, s: nat, j: nat): int
    requires s <= j <= |p|
    decreases j - s
  {
    if j == s then 0 else Depth(p, s, j - 1) + DepthStep(p[j - 1])
  }

  /** Index `j` ends the body that starts at `s`: an `end` reached while
      every nested body opened since `s` has been closed again. */
  predicate Closes(p: seq<Instr>, s: nat, j: nat) {
    s <= j < |p| && p[j].End? && Depth(p, s, j) == 0
  }

  /** The scan of `extract_block` from index `i` with `depth` nested bodies
      open: an opener deepens, an `end` either stops the scan (depth 0) or
      closes a nested body, and the list running out stops it too. */
  function ScanEnd(p: seq<Instr>, i: nat, depth: nat): (k: nat)
    ensures i <= k
    ensures i <= |p| ==> k <= |p|
    ensures i > |p| ==> k == i
    decreases |p| - i
  {
    if i >= |p| then i
    else if IsOpener(p[i]) then ScanEnd(p, i + 1, depth + 1)
    else if p[i].End? then (if depth == 0 then i else ScanEnd(p, i + 1, depth - 1))
    else ScanEnd(p, i + 1, depth)
  }

  /** `extract_block(program, start_index)`: the body and the index where the
      scan stopped. A start beyond the end of the list yields an empty body
      and the start itself. */
  function ExtractBlock(p: seq<Instr>, s: nat): (r: (seq<Instr>, nat))
    ensures s <= r.1
    ensures r.1 <= |p| ==> r.0 == p[s..r.1]
    ensures r.1 > |p| ==> r.0 == [] && r.1 == s
  {
    var k := ScanEnd(p, s, 0);
    if k <= |p| then (p[s..k], k) else ([], k)
  }

  /** What the scan computes, stated without the scan: the stop index is the
      first `end` at depth zero, or the end of the list when there is none. */
  ghost predicate IsStop(p: seq<Instr>, s: nat, k: nat) {
    && s <= k
    && (k < |p| ==> Closes(p, s, k))
    && (k >= |p| ==> k == (if s <= |p| then |p| else s))
    && (forall j :: s <= j < k && j < |p| ==> !Closes(p, s, j))
  }

  lemma {:induction false} ScanEndFinds(p: seq<Instr>, s: nat, i: nat, depth: nat)
    requires s <= i <= |p|
    requires depth == Depth(p, s, i)
    requires forall j :: s <= j < i ==> !Closes(p, s, j)
    ensures IsStop(p, s, ScanEnd(p, i, depth))
    decreases |p| - i
  {
    if i < |p| {
      var op := p[i];
      assert Depth(p, s, i + 1) == depth + DepthStep(op);
      if IsOpener(op) {
        ScanEndFinds(p, s, i + 1, depth + 1);
      } else if op.End? {
        if depth != 0 {
          ScanEndFinds(p, s, i + 1, depth - 1);
        }
      } else {
        ScanEndFinds(p, s, i + 1, depth);
      }
    }
  }

  /** The extracted body is `p[s..k)`, where `k` is the first index at or
      after `s` that holds an `end` while no nested body is open, or the end
      of the list if there is none. Nested openers deepen the scan and a
      nested `end` stays inside the body. */
  lemma ExtractBlockSpec(p: seq<Instr>, s: nat)
    ensures IsStop(p, s, ExtractBlock(p, s).1)
    ensures var (block, k) := ExtractBlock(p, s);
      k <= |p| ==> block == p[s..k]
  {
    if s <= |p| {
      ScanEndFinds(p, s, s, 0);
    }
  }

  /** Only one index satisfies the description of the stop index. */
  lemma StopUnique(p: seq<Instr>, s: nat, k1: nat, k2: nat)
    requires IsStop(p, s, k1) && IsStop(p, s, k2)
    ensures k1 == k2
  {
  }

  /** The body recovered before a closing `end` is balanced: every opener in
      it is matched by an `end` inside it. */
  lemma ClosedBodyBalanced(p: seq<Instr>, s: nat)
    requires ExtractBlock(p, s).1 < |p|
    ensures Depth(p, s, ExtractBlock(p, s).1) == 0
  {
    ExtractBlockSpec(p, s);
  }

  /** The loop of `extract_block` as written: the depth counter, the block
      accumulated one instruction at a time, and the `break` at an `end` met
      at depth zero. */
  method ExtractBlockLoop(p: seq<Instr>, s: nat) returns (block: seq<Instr>, k: nat)
    ensures IsStop(p, s, k)
    ensures block == (if k <= |p| then p[s..k] else [])
    ensures (block, k) == ExtractBlock(p, s)
  {
    block := [];
    var depth: nat := 0;
    k := s;
    while k < |p|
      invariant s <= k
      invariant s <= |p| ==> k <= |p|
      invariant k <= |p| ==> depth == Depth(p, s, k) && block == p[s..k]
      invariant s > |p| ==> k == s && block == []
      invariant forall j :: s <= j < k && j < |p| ==> !Closes(p, s, j)
    {
      var op := p[k];
      assert Depth(p, s, k + 1) == depth + DepthStep(op);
      if IsOpener(op) {
        depth := depth + 1;
      } else if op.End? {
        if depth == 0 {
          break;
        }
        depth := depth - 1;
      }
      block := block + [op];
      k := k + 1;
    }
    ExtractBlockSpec(p, s);
    StopUnique(p, s, k, ExtractBlock(p, s).1);
  }
}
