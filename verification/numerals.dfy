/** Integer literals as both tokenizers read them, through Python's
    `int(token)` in base 10: an optional sign, then decimal digits, where a
    single underscore may separate two digits. Leading zeros are allowed.
    The rendering `Show` is Python's `str` of an integer. */
module Numerals {
  import opened Outcomes

  predicate IsDigit(c: char) {
    '0' <= c <= '9'
  }

  function DigitValue(c: char): nat
    requires IsDigit(c)
  {
    (c as int) - ('0' as int)
  }

  function DigitChar(d: nat): (c: char)
    requires d < 10
    ensures IsDigit(c) && DigitValue(c) == d
  {
    (('0' as int) + d) as char
  }

  /** A prefix of a digit group: it starts with a digit, holds only digits
      and underscores, and never two underscores in a row. */
  predicate GroupPrefix(d: string) {
    && |d| > 0 && IsDigit(d[0])
    && (forall j :: 0 <= j < |d| ==> IsDigit(d[j]) || d[j] == '_')
    && (forall j :: 0 < j < |d| && d[j] == '_' ==> d[j - 1] != '_')
  }

  /** The digit part `int` accepts: a group prefix that ends in a digit. */
  predicate IsDigitGroup(d: string) {
    GroupPrefix(d) && IsDigit(d[|d| - 1])
  }

  /** The value of the digits of `d`, underscores skipped. */
  function Value(d: string): nat {
    if d == [] then 0
    else
      var c := d[|d| - 1];
      if IsDigit(c) then Value(d[..|d| - 1]) * 10 + DigitValue(c) else Value(d[..|d| - 1])
  }

  /** The scan over the digit part from index `i`: `acc` is the value read
      so far and `afterUnderscore` whether the last character read was an
      underscore. */
  function ScanDigits(t: string, i: nat, acc: nat, afterUnderscore: bool): Option<nat>
    decreases |t| - i
  {
    if i >= |t| then (if afterUnderscore then None else Some(acc))
    else if IsDigit(t[i]) then ScanDigits(t, i + 1, acc * 10 + DigitValue(t[i]), false)
    else if t[i] == '_' && !afterUnderscore then ScanDigits(t, i + 1, acc, true)
    else None
  }

  /** The digit part starting at `s`, which must open with a digit. */
  function ScanGroup(t: string, s: nat): Option<nat> {
    if s < |t| && IsDigit(t[s]) then ScanDigits(t, s + 1, DigitValue(t[s]), false) else None
  }

  /** `int(token)`: None where Python raises `ValueError`. */
  function ParseInt(t: string): Option<int> {
    if |t| > 0 && (t[0] == '+' || t[0] == '-') then
      match ScanGroup(t, 1)
      case None => None
      case Some(v) => Some(if t[0] == '-' then -(v as int) else v)
    else
      match ScanGroup(t, 0)
      case None => None
      case Some(v) => Some(v)
  }

  lemma {:induction false} ScanDigitsSpec(t: string, s: nat, i: nat, acc: nat, afterUnderscore: bool)
    requires s < i <= |t| && GroupPrefix(t[s..i])
    requires afterUnderscore == (t[i - 1] == '_') && acc == Value(t[s..i])
    ensures ScanDigits(t, i, acc, afterUnderscore) ==
      (if IsDigitGroup(t[s..]) then Some(Value(t[s..])) else None)
    decreases |t| - i
  {
    var d := t[s..];
    var pre := t[s..i];
    assert pre == d[..i - s];
    if i == |t| {
      assert d == pre;
    } else {
      var c := t[i];
      var next := t[s..i + 1];
      assert next[..|next| - 1] == pre;
      assert next == d[..i + 1 - s];
      if IsDigit(c) {
        assert GroupPrefix(next);
        ScanDigitsSpec(t, s, i + 1, acc * 10 + DigitValue(c), false);
      } else if c == '_' && !afterUnderscore {
        assert GroupPrefix(next);
        ScanDigitsSpec(t, s, i + 1, acc, true);
      } else {
        assert d[i - s] == c;
        if c == '_' {
          assert d[i - s - 1] == '_';
        }
        assert !GroupPrefix(d);
      }
    }
  }

  /** The scan accepts exactly the digit groups and computes their value. */
  lemma ScanGroupSpec(t: string, s: nat)
    requires s <= |t|
    ensures ScanGroup(t, s) == (if IsDigitGroup(t[s..]) then Some(Value(t[s..])) else None)
  {
    if s < |t| && IsDigit(t[s]) {
      var first := t[s..s + 1];
      assert first[..0] == [];
      assert Value(first) == DigitValue(t[s]);
      ScanDigitsSpec(t, s, s + 1, DigitValue(t[s]), false);
    } else {
      assert s < |t| ==> t[s..][0] == t[s];
    }
  }

  /** The token without its leading sign, if it has one. */
  function Unsigned(t: string): string {
    if |t| > 0 && (t[0] == '+' || t[0] == '-') then t[1..] else t
  }

  /** The integer a literal denotes: the value of its digits, negated after
      a minus sign. */
  function Literal(t: string): int {
    var v := Value(Unsigned(t)) as int;
    if |t| > 0 && t[0] == '-' then -v else v
  }

  /** `int` accepts exactly an optional sign followed by a digit group, and
      yields the group's value with the sign applied. */
  lemma ParseIntSpec(t: string)
    ensures ParseInt(t).Some? <==> IsDigitGroup(Unsigned(t))
    ensures ParseInt(t).Some? ==> ParseInt(t).value == Literal(t)
  {
    if |t| > 0 && (t[0] == '+' || t[0] == '-') {
      ScanGroupSpec(t, 1);
    } else {
      ScanGroupSpec(t, 0);
      assert t[0..] == t;
    }
  }

  /** Decimal digits of a natural number, most significant first. */
  function ShowNat(n: nat): (d: string)
    ensures |d| > 0
    decreases n
  {
    if n < 10 then [DigitChar(n)] else ShowNat(n / 10) + [DigitChar(n % 10)]
  }

  /** `str(n)`: a minus sign for negatives, then the digits. */
  function Show(n: int): string {
    if n < 0 then "-" + ShowNat(-n) else ShowNat(n)
  }

  lemma {:induction false} ShowNatSpec(n: nat)
    ensures IsDigitGroup(ShowNat(n)) && Value(ShowNat(n)) == n
    ensures forall j :: 0 <= j < |ShowNat(n)| ==> IsDigit(ShowNat(n)[j])
    decreases n
  {
    var d := ShowNat(n);
    if n >= 10 {
      ShowNatSpec(n / 10);
      var pre := ShowNat(n / 10);
      assert d[..|d| - 1] == pre;
      assert forall j :: 0 <= j < |d| ==> IsDigit(d[j]) by {
        forall j | 0 <= j < |d| ensures IsDigit(d[j]) {
          if j < |pre| { assert d[j] == pre[j]; }
        }
      }
    } else {
      assert d[..0] == [];
    }
  }

  /** Reading back a rendered integer gives the integer. */
  lemma ParseShow(n: int)
    ensures ParseInt(Show(n)) == Some(n)
  {
    var t := Show(n);
    if n < 0 {
      ShowNatSpec(-n);
      assert t[1..] == ShowNat(-n);
    } else {
      ShowNatSpec(n);
    }
    ParseIntSpec(t);
  }

  /** Every rendering ends in a digit. */
  lemma ShowEndsInDigit(n: int)
    ensures |Show(n)| > 0 && IsDigit(Show(n)[|Show(n)| - 1])
  {
    if n < 0 { ShowNatSpec(-n); } else { ShowNatSpec(n); }
  }

  /** A bare sign is not a number, a signed group is, underscores are
      skipped, and a leading, trailing or doubled underscore is refused. */
  lemma ParseExamples()
    ensures ParseInt("-") == None && ParseInt("+") == None && ParseInt("") == None
    ensures ParseInt("-5") == Some(-5) && ParseInt("+7") == Some(7)
    ensures ParseInt("1_000") == Some(1000) && ParseInt("007") == Some(7)
    ensures ParseInt("_1") == None && ParseInt("1_") == None && ParseInt("1__0") == None
  {
    assert ScanGroup("-5", 1) == Some(5);
    assert ScanGroup("+7", 1) == Some(7);
    assert ScanDigits("1_000", 2, 1, true) == Some(1000);
    assert ScanGroup("1_000", 0) == Some(1000);
    assert ScanGroup("007", 0) == Some(7);
    assert ScanGroup("1__0", 0) == None;
  }
}
