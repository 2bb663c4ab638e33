/** `tokenize_file` of definitions.py without the file read: the content is
    split into whitespace-separated words, and the words are read left to
    right into instructions. `call` takes the next word as a function name,
    `function` the next word as a name and the one after it as an integer
    arity; a word that is no keyword must be an integer literal. */
module Tokenizer {
  import opened Outcomes
  import opened Opcodes
  import opened Numerals

  // ---------------------------------------------------------------------
  // Words

  /** The ASCII characters `str.split()` treats as whitespace: space, tab to
      carriage return (9 to 13), and the separators 28 to 31. */
  predicate IsSpace(c: char) {
    c == ' ' || 9 <= c as int <= 13 || 28 <= c as int <= 31
  }

  predicate IsWord(w: string) {
    |w| > 0 && forall j :: 0 <= j < |w| ==> !IsSpace(w[j])
  }

  /** The text with its leading whitespace removed. */
  function DropSpaces(s: string): (t: string)
    ensures |t| <= |s| && t == s[|s| - |t|..]
    ensures t != [] ==> !IsSpace(t[0])
  {
    if s == [] || !IsSpace(s[0]) then s else DropSpaces(s[1..])
  }

  /** The longest prefix without whitespace. */
  function TakeWord(s: string): (w: string)
    ensures |w| <= |s| && w == s[..|w|]
    ensures forall j :: 0 <= j < |w| ==> !IsSpace(w[j])
    ensures |w| < |s| ==> IsSpace(s[|w|])
    ensures s != [] && !IsSpace(s[0]) ==> |w| > 0
  {
    if s == [] || IsSpace(s[0]) then [] else [s[0]] + TakeWord(s[1..])
  }

  /** `content.split()`: the maximal runs of non-whitespace characters, in
      order. */
  function Words(s: string): seq<string>
    decreases |s|
  {
    var t := DropSpaces(s);
    if t == [] then []
    else
      var w := TakeWord(t);
      [w] + Words(t[|w|..])
  }

  /** Every word is non-empty and free of whitespace, so the `if x` filter
      applied to the result keeps every word. */
  lemma {:induction false} WordsAreWords(s: string)
    ensures forall k :: 0 <= k < |Words(s)| ==> IsWord(Words(s)[k])
    decreases |s|
  {
    var t := DropSpaces(s);
    if t != [] {
      var w := TakeWord(t);
      var rest := Words(t[|w|..]);
      WordsAreWords(t[|w|..]);
      assert Words(s) == [w] + rest;
      forall k | 0 <= k < |Words(s)| ensures IsWord(Words(s)[k]) {
        if k > 0 {
          assert Words(s)[k] == rest[k - 1];
        }
      }
    }
  }

  /** The words joined back, each followed by one space. */
  function Join(ws: seq<string>): string {
    if ws == [] then "" else ws[0] + " " + Join(ws[1..])
  }

  lemma LeadingSpace(r: string)
    ensures Words(" " + r) == Words(r)
  {
    assert (" " + r)[1..] == r;
  }

  lemma TakeWordPrefix(w: string, r: string)
    requires IsWord(w)
    ensures TakeWord(w + " " + r) == w
  {
    var s := w + " " + r;
    assert forall k :: 0 <= k < |w| ==> s[k] == w[k];
    assert s[|w|] == ' ';
  }

  /** Every element is a word. */
  predicate AllWords(ws: seq<string>) {
    forall k :: 0 <= k < |ws| ==> IsWord(ws[k])
  }

  /** Splitting undoes joining: words that are non-empty and free of
      whitespace come back exactly. */
  lemma {:induction false} WordsJoin(ws: seq<string>)
    requires AllWords(ws)
    ensures Words(Join(ws)) == ws
  {
    if ws != [] {
      var tail := ws[1..];
      AllWordsTail(ws);
      WordsJoin(tail);
      WordsCons(ws[0], Join(tail));
      ConsTail(ws);
    }
  }

  lemma AllWordsTail(ws: seq<string>)
    requires AllWords(ws) && ws != []
    ensures IsWord(ws[0]) && AllWords(ws[1..])
  {
    assert forall k :: 0 <= k < |ws| - 1 ==> ws[1..][k] == ws[k + 1];
  }

  lemma ConsTail<T>(ws: seq<T>)
    requires ws != []
    ensures [ws[0]] + ws[1..] == ws
  {
  }

  lemma WordsCons(w: string, r: string)
    requires IsWord(w)
    ensures Words(w + " " + r) == [w] + Words(r)
  {
    var s := w + " " + r;
    assert s[0] == w[0];
    assert DropSpaces(s) == s;
    TakeWordPrefix(w, r);
    assert s[|w|..] == " " + r;
    LeadingSpace(r);
  }

  // ---------------------------------------------------------------------
  // Keywords

  /** The words `tokenize_file` compares a token against, with the
      instruction each one appends; `call`, `function` and integers are read
      separately. */
  function Keyword(t: string): Option<Instr> {
    if t == "drop" then Some(Pop)
    else if t == "+" then Some(Add)
    else if t == "-" then Some(Sub)
    else if t == "*" then Some(Mul)
    else if t == "else" then Some(Else)
    else if t == "/" then Some(Div)
    else if t == "." then Some(Dump)
    else if t == "dup" then Some(Dup)
    else if t == "rot" then Some(Rot)
    else if t == "if" then Some(If)
    else if t == "begin" then Some(Begin)
    else if t == "break" then Some(Break)
    else if t == "do" then Some(Do)
    else if t == "swap" then Some(Swap)
    else if t == "over" then Some(Over)
    else if t == "end" then Some(End)
    else if t == "flip" then Some(Flip)
    else if t == "while" then Some(While)
    else if t == "return" then Some(Return)
    else if t == "==" then Some(IsEql)
    else if t == "!=" then Some(IsNeq)
    else if t == ">" then Some(IsGrt)
    else if t == "<" then Some(IsLss)
    else if t == ">=" then Some(IsGeq)
    else if t == "<=" then Some(IsLeq)
    else if t == "--" then Some(Decrement)
    else if t == "++" then Some(Increment)
    else None
  }

  /** The instructions spelled by a single keyword: all but PUSH, CALL and
      FUNCTION. */
  predicate IsBare(op: Instr) {
    !op.Push? && !op.Call? && !op.Function?
  }

  /** The keyword of a bare instruction. */
  function Spelling(op: Instr): string
    requires IsBare(op)
  {
    match op
    case Pop => "drop"      case Add => "+"         case Sub => "-"
    case Mul => "*"         case Else => "else"     case Div => "/"
    case Dump => "."        case Dup => "dup"       case Rot => "rot"
    case If => "if"         case Begin => "begin"   case Break => "break"
    case Do => "do"         case Swap => "swap"     case Over => "over"
    case End => "end"       case Flip => "flip"     case While => "while"
    case Return => "return" case IsEql => "=="      case IsNeq => "!="
    case IsGrt => ">"       case IsLss => "<"       case IsGeq => ">="
    case IsLeq => "<="      case Decrement => "--"  case Increment => "++"
  }

  /** Every bare instruction has exactly one keyword, and every keyword
      spells a bare instruction: the table is a bijection. */
  lemma KeywordSpelling(op: Instr)
    requires IsBare(op)
    ensures Keyword(Spelling(op)) == Some(op)
  {
    if Early(op) {
      EarlySpelling(op);
    } else {
      LateSpelling(op);
    }
  }

  /** The bare instructions whose keywords come first in the table. */
  predicate Early(op: Instr) {
    op.Pop? || op.Add? || op.Sub? || op.Mul? || op.Else? || op.Div? || op.Dump?
    || op.Dup? || op.Rot? || op.If? || op.Begin? || op.Break? || op.Do?
  }

  lemma EarlySpelling(op: Instr)
    requires IsBare(op) && Early(op)
    ensures Keyword(Spelling(op)) == Some(op)
  {
  }

  lemma LateSpelling(op: Instr)
    requires IsBare(op) && !Early(op)
    ensures Keyword(Spelling(op)) == Some(op)
  {
  }

  lemma SpellingKeyword(t: string)
    requires Keyword(t).Some?
    ensures IsBare(Keyword(t).value) && Spelling(Keyword(t).value) == t
  {
    match Keyword(t).value {
      case Pop => case Add => case Sub => case Mul => case Else =>
      case Div => case Dump => case Dup => case Rot => case If =>
      case Begin => case Break => case Do => case Swap => case Over =>
      case End => case Flip => case While => case Return => case IsEql =>
      case IsNeq => case IsGrt => case IsLss => case IsGeq => case IsLeq =>
      case Decrement => case Increment =>
      case Push(_) => assert false;
      case Call(_) => assert false;
      case Function(_, _) => assert false;
    }
  }

  /** No keyword, and neither `call` nor `function`, ends in a digit, so no
      rendered integer is mistaken for one. */
  lemma KeywordsEndInNonDigit(t: string)
    requires Keyword(t).Some? || t == "call" || t == "function"
    ensures |t| > 0 && !IsDigit(t[|t| - 1])
  {
  }

  lemma NumeralIsNoKeyword(n: int)
    ensures Keyword(Show(n)) == None && Show(n) != "call" && Show(n) != "function"
  {
    ShowEndsInDigit(n);
    if Keyword(Show(n)).Some? || Show(n) == "call" || Show(n) == "function" {
      KeywordsEndInNonDigit(Show(n));
    }
  }

  // ---------------------------------------------------------------------
  // Tokens to instructions

  /** The main loop of `tokenize_file` over the remaining tokens. A missing
      operand of `call` or `function` is the IndexError of the source, an
      arity that is no integer its ValueError, and any other unreadable
      token the "Unknown token" exception. */
  function Tokenize(ts: seq<string>): (r: Result<seq<Instr>>)
    ensures r.Ok? ==> |r.value| <= |ts|
    decreases |ts|
  {
    if ts == [] then Ok([])
    else
      var t := ts[0];
      if t == "call" then
        if |ts| < 2 then Err(MissingToken)
        else
          var rest :- Tokenize(ts[2..]);
          Ok([Call(ts[1])] + rest)
      else if t == "function" then
        if |ts| < 3 then Err(MissingToken)
        else match ParseInt(ts[2])
          case None => Err(BadInteger(ts[2]))
          case Some(arity) =>
            var rest :- Tokenize(ts[3..]);
            Ok([Function(ts[1], arity)] + rest)
      else
        var op :- ReadWord(t);
        var rest :- Tokenize(ts[1..]);
        Ok([op] + rest)
  }

  /** A token other than `call` and `function`, given what the reader's
      keyword table makes of it: a keyword gives its instruction; any other
      token is pushed when it is an optionally signed digit group, and is
      unknown otherwise. Both readers, `tokenize_file` and `compile_file`,
      treat their tokens this way. */
  function ReadWith(keyword: Option<Instr>, t: string): (r: Result<Instr>)
    ensures keyword.Some? ==> r == Ok(keyword.value)
    ensures keyword.None? ==> (r.Ok? <==> IsDigitGroup(Unsigned(t)))
    ensures keyword.None? && r.Ok? ==> r.value == Push(Literal(t))
    ensures r.Err? ==> r == Err(UnknownToken(t))
  {
    ParseIntSpec(t);
    match keyword
    case Some(op) => Ok(op)
    case None =>
      match ParseInt(t)
      case Some(n) => Ok(Push(n))
      case None => Err(UnknownToken(t))
  }

  /** A token of `tokenize_file` other than `call` and `function`. */
  function ReadWord(t: string): Result<Instr> {
    ReadWith(Keyword(t), t)
  }

  /** `tokenize_file` on the file's content. */
  function TokenizeText(content: string): Result<seq<Instr>> {
    Tokenize(Words(content))
  }

  /** The tokens of one instruction. */
  function RenderOne(op: Instr): (ts: seq<string>)
    ensures |ts| > 0
  {
    match op
    case Push(n) => [Show(n)]
    case Call(name) => ["call", name]
    case Function(name, arity) => ["function", name, Show(arity)]
    case _ => [Spelling(op)]
  }

  /** The tokens of a program. */
  function Render(p: seq<Instr>): seq<string> {
    if p == [] then [] else RenderOne(p[0]) + Render(p[1..])
  }

  lemma {:induction false} RenderAppend(op: Instr, p: seq<Instr>)
    ensures Render([op] + p) == RenderOne(op) + Render(p)
  {
    assert ([op] + p)[1..] == p;
  }

  /** Reading the tokens of a program gives the program back. */
  lemma {:induction false} TokenizeRender(p: seq<Instr>)
    ensures Tokenize(Render(p)) == Ok(p)
  {
    if p != [] {
      var op := p[0];
      var rest := Render(p[1..]);
      var ts := Render(p);
      TokenizeRender(p[1..]);
      assert p == [op] + p[1..];
      match op {
        case Push(n) =>
          NumeralIsNoKeyword(n);
          ParseShow(n);
          assert ts[1..] == rest;
        case Call(name) =>
          assert ts[2..] == rest;
        case Function(name, arity) =>
          ParseShow(arity);
          assert ts[2] == Show(arity);
          assert ts[3..] == rest;
        case _ =>
          KeywordSpelling(op);
          assert ts[1..] == rest;
      }
    }
  }

  /** The words of a program's rendering, when every function name is itself
      a word. */
  predicate NamesAreWords(p: seq<Instr>) {
    forall k :: 0 <= k < |p| ==> (p[k].Call? ==> IsWord(p[k].name)) && (p[k].Function? ==> IsWord(p[k].name))
  }

  lemma {:induction false} RenderWords(p: seq<Instr>)
    requires NamesAreWords(p)
    ensures AllWords(Render(p))
  {
    if p != [] {
      assert NamesAreWords(p[1..]) by {
        forall k | 0 <= k < |p| - 1 ensures (p[1..][k].Call? ==> IsWord(p[1..][k].name)) {
          assert p[1..][k] == p[k + 1];
        }
      }
      RenderWords(p[1..]);
      OneWords(p[0]);
      AllWordsAppend(RenderOne(p[0]), Render(p[1..]));
    }
  }

  lemma OneWords(op: Instr)
    requires (op.Call? || op.Function?) ==> IsWord(op.name)
    ensures AllWords(RenderOne(op))
  {
    match op {
      case Push(n) => ShowIsWord(n);
      case Function(name, arity) => ShowIsWord(arity);
      case _ =>
    }
  }

  lemma AllWordsAppend(a: seq<string>, b: seq<string>)
    requires AllWords(a) && AllWords(b)
    ensures AllWords(a + b)
  {
    assert forall k :: |a| <= k < |a| + |b| ==> (a + b)[k] == b[k - |a|];
  }

  lemma ShowIsWord(n: int)
    ensures IsWord(Show(n))
  {
    ShowNatSpec(if n < 0 then -n else n);
    var s := Show(n);
    forall j | 0 <= j < |s| ensures !IsSpace(s[j]) {
      if n < 0 && j > 0 {
        assert s[j] == ShowNat(-n)[j - 1];
      }
    }
  }

  /** The whole text round trip: a program written out as words separated
      by spaces reads back as the same program. */
  lemma TokenizeTextRender(p: seq<Instr>)
    requires NamesAreWords(p)
    ensures TokenizeText(Join(Render(p))) == Ok(p)
  {
    RenderWords(p);
    WordsJoin(Render(p));
    TokenizeRender(p);
  }

  // ---------------------------------------------------------------------
  // What reading forgets

  /** Two tokens that are equal, or spell the same integer. */
  predicate SameToken(a: string, b: string) {
    a == b || (ParseInt(a).Some? && ParseInt(a) == ParseInt(b))
  }

  /** Two token lists that differ at most in how they spell integers. */
  predicate SameReading(a: seq<string>, b: seq<string>) {
    |a| == |b| && forall k :: 0 <= k < |a| ==> SameToken(a[k], b[k])
  }

  /** How many tokens one instruction takes, by its first token. */
  function Width(t: string): nat {
    if t == "call" then 2 else if t == "function" then 3 else 1
  }

  /** Reading forgets only the spelling of integers (a sign `+`, leading
      zeros, underscores): writing out what was read gives back the tokens,
      up to integer spelling. */
  lemma {:induction false} RenderTokenize(ts: seq<string>)
    requires Tokenize(ts).Ok?
    ensures SameReading(Render(Tokenize(ts).value), ts)
    decreases |ts|
  {
    if ts != [] {
      var n := Width(ts[0]);
      var p := Tokenize(ts).value;
      HeadReading(ts);
      RenderTokenize(ts[n..]);
      RenderStep(p, ts, n);
    }
  }

  /** Writing out a first instruction read from the first `n` tokens, then
      the rest read from the others. */
  lemma RenderStep(p: seq<Instr>, ts: seq<string>, n: nat)
    requires p != [] && n <= |ts|
    requires SameReading(RenderOne(p[0]), ts[..n]) && SameReading(Render(p[1..]), ts[n..])
    ensures SameReading(Render(p), ts)
  {
    RenderAppend(p[0], p[1..]);
    ConsTail(p);
    ReadingAppend(RenderOne(p[0]), Render(p[1..]), ts[..n], ts[n..]);
    assert ts[..n] + ts[n..] == ts;
  }

  /** The first instruction read takes `Width` tokens and writes back out
      as the same tokens, up to integer spelling. */
  lemma HeadReading(ts: seq<string>)
    requires ts != [] && Tokenize(ts).Ok?
    ensures Width(ts[0]) <= |ts|
    ensures var n := Width(ts[0]);
      var p := Tokenize(ts).value;
      && p != [] && Tokenize(ts[n..]).Ok? && p[1..] == Tokenize(ts[n..]).value
      && SameReading(RenderOne(p[0]), ts[..n])
  {
    var t := ts[0];
    if t == "call" {
      TokenizeCall(ts);
      CallSame(ts);
    } else if t == "function" {
      TokenizeFunction(ts);
      FunctionSame(ts);
    } else {
      HeadWordReading(ts);
    }
  }

  /** The same for a first token other than `call` and `function`. */
  lemma HeadWordReading(ts: seq<string>)
    requires ts != [] && ts[0] != "call" && ts[0] != "function" && Tokenize(ts).Ok?
    ensures var p := Tokenize(ts).value;
      && p != [] && Tokenize(ts[1..]).Ok? && p[1..] == Tokenize(ts[1..]).value
      && SameReading(RenderOne(p[0]), ts[..1])
  {
    TokenizeWord(ts);
    WordSame(ts[0]);
    assert ts[..1] == [ts[0]];
  }

  lemma CallSame(ts: seq<string>)
    requires |ts| >= 2 && ts[0] == "call"
    ensures SameReading(RenderOne(Call(ts[1])), ts[..2])
  {
    assert RenderOne(Call(ts[1])) == ts[..2];
  }

  lemma FunctionSame(ts: seq<string>)
    requires |ts| >= 3 && ts[0] == "function" && ParseInt(ts[2]).Some?
    ensures SameReading(RenderOne(Function(ts[1], ParseInt(ts[2]).value)), ts[..3])
  {
    var arity := ParseInt(ts[2]).value;
    ParseShow(arity);
    var one := RenderOne(Function(ts[1], arity));
    assert one == ["function", ts[1], Show(arity)];
    assert SameToken(one[2], ts[2]);
  }

  lemma WordSame(t: string)
    requires ReadWord(t).Ok?
    ensures SameReading(RenderOne(ReadWord(t).value), [t])
  {
    var op := ReadWord(t).value;
    if Keyword(t).Some? {
      SpellingKeyword(t);
      assert RenderOne(op) == [t];
    } else {
      ParseShow(op.n);
      assert RenderOne(op) == [Show(op.n)];
    }
  }

  lemma TokenizeCall(ts: seq<string>)
    requires ts != [] && ts[0] == "call" && Tokenize(ts).Ok?
    ensures |ts| >= 2 && Tokenize(ts[2..]).Ok?
    ensures Tokenize(ts).value == [Call(ts[1])] + Tokenize(ts[2..]).value
  {
  }

  lemma TokenizeFunction(ts: seq<string>)
    requires ts != [] && ts[0] == "function" && Tokenize(ts).Ok?
    ensures |ts| >= 3 && ParseInt(ts[2]).Some? && Tokenize(ts[3..]).Ok?
    ensures Tokenize(ts).value == [Function(ts[1], ParseInt(ts[2]).value)] + Tokenize(ts[3..]).value
  {
  }

  lemma TokenizeWord(ts: seq<string>)
    requires ts != [] && ts[0] != "call" && ts[0] != "function" && Tokenize(ts).Ok?
    ensures ReadWord(ts[0]).Ok? && Tokenize(ts[1..]).Ok?
    ensures Tokenize(ts).value == [ReadWord(ts[0]).value] + Tokenize(ts[1..]).value
  {
  }

  lemma ReadingAppend(a1: seq<string>, a2: seq<string>, b1: seq<string>, b2: seq<string>)
    requires SameReading(a1, b1) && SameReading(a2, b2)
    ensures SameReading(a1 + a2, b1 + b2)
  {
    assert forall k :: |a1| <= k < |a1| + |a2| ==> (a1 + a2)[k] == a2[k - |a1|] && (b1 + b2)[k] == b2[k - |a1|];
  }

  /** `-` alone is subtraction and `-5` an integer; `dump` is no keyword
      here. */
  lemma TokenizeSignExamples()
    ensures Tokenize(["-", "-5"]) == Ok([Sub, Push(-5)])
    ensures Tokenize(["dump"]) == Err(UnknownToken("dump"))
  {
    SignExample();
    assert ParseInt("dump") == None by { assert ScanGroup("dump", 0) == None; }
  }

  lemma SignExample()
    ensures Tokenize(["-", "-5"]) == Ok([Sub, Push(-5)])
  {
    ParseExamples();
    assert ["-5"][1..] == [];
    assert Keyword("-5") == None;
    assert [Push(-5)] + [] == [Push(-5)];
    assert Tokenize(["-5"]) == Ok([Push(-5)]);
    assert Keyword("-") == Some(Sub);
    assert [Sub] + [Push(-5)] == [Sub, Push(-5)];
    assert ["-", "-5"][1..] == ["-5"];
  }

  /** After `call` any word is a name, even an integer or a keyword; a
      trailing `call` or `function` lacks its operand, and an arity that is
      no integer is refused. */
  lemma TokenizeOperandExamples()
    ensures Tokenize(["call", "5", "call", "dup"]) == Ok([Call("5"), Call("dup")])
    ensures Tokenize(["function", "sq", "1", "dup"]) == Ok([Function("sq", 1), Dup])
    ensures Tokenize(["1", "call"]) == Err(MissingToken)
    ensures Tokenize(["function", "f"]) == Err(MissingToken)
    ensures Tokenize(["function", "f", "x"]) == Err(BadInteger("x"))
  {
    assert ParseInt("1") == Some(1) by { assert ScanGroup("1", 0) == Some(1); }
    assert ParseInt("x") == None by { assert ScanGroup("x", 0) == None; }
    assert ["call", "5", "call", "dup"][2..] == ["call", "dup"];
    assert ["call", "dup"][2..] == [];
    assert [Call("dup")] + [] == [Call("dup")];
    assert Tokenize(["call", "dup"]) == Ok([Call("dup")]);
    assert [Call("5")] + [Call("dup")] == [Call("5"), Call("dup")];
    assert ["function", "sq", "1", "dup"][3..] == ["dup"];
    assert ["dup"][1..] == [];
    assert Keyword("dup") == Some(Dup);
    assert [Dup] + [] == [Dup];
    assert Tokenize(["dup"]) == Ok([Dup]);
    assert [Function("sq", 1)] + [Dup] == [Function("sq", 1), Dup];
    assert ["1", "call"][1..] == ["call"];
  }
}
