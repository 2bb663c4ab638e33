/** The 32-bit signed integers of the generated native code (`i32`):
    two's-complement wrap-around for `add`, `sub` and `mul`, and the
    truncating signed division `sdiv`, which is undefined for a zero
    divisor and for the least value divided by -1. */
module Int32 {
  import opened Outcomes

  const Modulus: int := 0x1_0000_0000
  const Half: int := 0x8000_0000

  /** The values an `i32` can hold. */
  predicate InRange(x: int) {
    -Half <= x < Half
  }

  /** The `i32` that holds the low 32 bits of `x`. */
  function Wrap(x: int): (r: int)
    ensures InRange(r)
    ensures (r - x) % Modulus == 0
  {
    (x + Half) % Modulus - Half
  }

  /** Wrapping changes nothing inside the range and forgets whole multiples
      of 2^32 outside it. */
  lemma WrapCharacterised(x: int)
    ensures InRange(x) <==> Wrap(x) == x
    ensures Wrap(Wrap(x)) == Wrap(x)
  {
  }

  /** Adding a multiple of 2^32 does not change the wrapped value. */
  lemma WrapShift(x: int, k: int)
    ensures Wrap(x + Modulus * k) == Wrap(x)
  {
    var q := (x + Half) / Modulus;
    var r := (x + Half) % Modulus;
    assert x + Modulus * k + Half == Modulus * (q + k) + r;
    DivModUnique(x + Modulus * k + Half, q + k, r);
  }

  lemma DivModUnique(n: int, q: int, r: int)
    requires n == Modulus * q + r && 0 <= r < Modulus
    ensures n % Modulus == r
  {
  }

  /** `Wrap(x)` differs from `x` by a whole multiple of 2^32. */
  lemma WrapOffset(x: int) returns (k: int)
    ensures Wrap(x) == x + Modulus * k
  {
    k := -((x + Half) / Modulus);
  }

  /** `add`, `sub` and `mul` on `i32` operands compute the low 32 bits of the
      exact result, so wrapping before or after the operation agrees. */
  lemma WrapAdd(a: int, b: int)
    ensures Wrap(Wrap(a) + Wrap(b)) == Wrap(a + b)
  {
    var ka := WrapOffset(a);
    var kb := WrapOffset(b);
    WrapShift(a + b, ka + kb);
  }

  lemma WrapSub(a: int, b: int)
    ensures Wrap(Wrap(a) - Wrap(b)) == Wrap(a - b)
  {
    var ka := WrapOffset(a);
    var kb := WrapOffset(b);
    WrapShift(a - b, ka - kb);
  }

  lemma WrapMul(a: int, b: int)
    ensures Wrap(Wrap(a) * Wrap(b)) == Wrap(a * b)
  {
    var ka := WrapOffset(a);
    var kb := WrapOffset(b);
    var k := ka * b + kb * a + Modulus * ka * kb;
    assert (a + Modulus * ka) * (b + Modulus * kb) == a * b + Modulus * k;
    WrapShift(a * b, k);
  }

  /** The 2^31 boundary: the largest value plus one is the least. */
  lemma WrapBoundary()
    ensures Wrap(Half - 1 + 1) == -Half
    ensures Wrap(-Half - 1) == Half - 1
  {
  }

  function Abs(x: int): nat {
    if x < 0 then -x else x
  }

  /** `sdiv`: the quotient rounded toward zero. Dividing by zero, and dividing
      the least value by -1 (whose quotient 2^31 does not fit), are undefined
      behaviour in the generated code and end the run with a fault. */
  function SDiv(a: int, b: int): Result<int> {
    if b == 0 then Err(DivisionByZero)
    else if a == -Half && b == -1 then Err(DivisionOverflow)
    else
      var q := Abs(a) / Abs(b);
      Ok(if (a < 0) == (b < 0) then q else -q)
  }

  /** Truncating division: `a == q * b + r` where the remainder has the sign
      of the dividend and is smaller than the divisor in magnitude; the
      quotient always fits, and the two undefined cases are exactly the
      faults. */
  lemma SDivSpec(a: int, b: int)
    requires InRange(a) && InRange(b)
    ensures SDiv(a, b).Err? <==> b == 0 || (a == -Half && b == -1)
    ensures SDiv(a, b).Ok? ==>
      var q := SDiv(a, b).value;
      var r := a - q * b;
      && InRange(q)
      && Abs(r) < Abs(b)
      && (r == 0 || (r < 0) == (a < 0))
  {
    if b != 0 && !(a == -Half && b == -1) {
      var q := Abs(a) / Abs(b);
      var m := Abs(a) % Abs(b);
      assert Abs(a) == q * Abs(b) + m;
      var sq := if (a < 0) == (b < 0) then q else -q;
      if a >= 0 && b > 0 {
        assert a - sq * b == m;
      } else if a >= 0 && b < 0 {
        assert sq * b == q * Abs(b);
        assert a - sq * b == m;
      } else if a < 0 && b > 0 {
        assert sq * b == -(q * Abs(b));
        assert a - sq * b == -m;
      } else {
        assert sq * b == -(q * Abs(b));
        assert a - sq * b == -m;
      }
      QuotientBound(Abs(a), Abs(b));
    }
  }

  lemma QuotientBound(n: nat, d: nat)
    requires d > 0
    ensures n / d <= n
  {
    var q := n / d;
    assert n == d * q + n % d;
    MulAtLeast(d, q);
  }

  lemma {:induction false} MulAtLeast(d: nat, q: nat)
    requires d >= 1
    ensures d * q >= q
  {
    if d > 1 {
      MulAtLeast(d - 1, q);
      assert d * q == (d - 1) * q + q;
    }
  }

  /** Unlike Python's `//`, which floors, `sdiv` rounds toward zero: -7
      divided by 2 is -3, not -4. */
  lemma SDivTruncates()
    ensures SDiv(-7, 2) == Ok(-3)
    ensures SDiv(7, -2) == Ok(-3)
    ensures -7 / 2 == -4
  {
  }
}
