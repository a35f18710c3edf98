/** Arithmetic as text: the tokeniser, and the way back from a printed tree. */
module ArithmeticText {
  import opened Arithmetic
  import opened ArithmeticReading

  // --- the tokeniser

  predicate Space(c: char) {
    || ('\t' <= c <= '\r') || c == ' ' || c == '\U{a0}' || c == '\U{1680}' || ('\U{2000}' <= c <= '\U{200a}')
    || c == '\U{2028}' || c == '\U{2029}' || c == '\U{202f}' || c == '\U{205f}' || c == '\U{3000}' || c == '\U{feff}'
  }

  predicate NameStart(c: char) {
    'a' <= c <= 'z' || 'A' <= c <= 'Z' || c == '_'
  }

  predicate NameChar(c: char) {
    NameStart(c) || Digit(c)
  }

  predicate LongOperator(s: string) {
    s == "||" || s == "&&" || s == "==" || s == "!=" || s == "<=" || s == ">=" || s == "<<" || s == ">>"
  }

  predicate ShortOperator(s: string) {
    s == "+" || s == "-" || s == "*" || s == "/" || s == "%" || s == "<" || s == ">" || s == "&" || s == "^" ||
        s == "|" || s == "!"
    || s == "~" || s == "(" || s == ")"
  }

  /** Where a run of digits, hexadecimal digits or name characters ends. */
  datatype Run = Decimals | Hexadecimals | NameChars

  predicate InRun(run: Run, c: char) {
    match run
    case Decimals => Digit(c)
    case Hexadecimals => HexDigit(c)
    case NameChars => NameChar(c)
  }

  function RunEnd(src: string, i: nat, run: Run): (e: nat)
    requires i <= |src|
    ensures i <= e <= |src|
    decreases |src| - i
  {
    if i < |src| && InRun(run, src[i]) then RunEnd(src, i + 1, run) else i
  }

  /** The end of the token at `i`, where no space stands; none if there is no token. */
  function TokenEnd(src: string, i: nat): (e: Option<nat>)
    requires i < |src| && !Space(src[i])
    ensures e.Some? ==> i < e.value <= |src|
  {
    if Digit(src[i]) then
      if src[i] == '0' && i + 1 < |src| && (src[i + 1] == 'x' || src[i + 1] == 'X') then
         Some(RunEnd(src, i + 2, Hexadecimals))
      else Some(RunEnd(src, i + 1, Decimals))
    else if NameStart(src[i]) then Some(RunEnd(src, i + 1, NameChars))
    else if i + 1 < |src| && LongOperator(src[i..i + 2]) then Some(i + 2)
    else if ShortOperator(src[i..i + 1]) then Some(i + 1)
    else None
  }

  function TokenOf(text: string): Token
    requires text != ""
  {
    if Digit(text[0]) then Number(text) else if NameStart(text[0]) then Name(text) else Operator(text)
  }

  /** The tokens from `i` on, with the end token; none if some text is no token. */
  function Lex(src: string, i: nat): Option<seq<Token>>
    requires i <= |src|
    decreases |src| - i
  {
    if i == |src| then Some([End])
    else if Space(src[i]) then Lex(src, i + 1)
    else
      var e := TokenEnd(src, i);
      if e.None? then None
      else
        var rest := Lex(src, e.value);
        if rest.None? then None else Some([TokenOf(src[i..e.value])] + rest.value)
  }

  function Prefixed(found: seq<Token>, rest: Option<seq<Token>>): Option<seq<Token>> {
    if rest.None? then None else Some(found + rest.value)
  }

  lemma PrefixedMore(found: seq<Token>, t: Token, rest: Option<seq<Token>>)
    ensures Prefixed(found, Prefixed([t], rest)) == Prefixed(found + [t], rest)
  {
    if rest.Some? { assert found + ([t] + rest.value) == found + [t] + rest.value; }
  }

  lemma LexToken(src: string, i: nat)
    requires i < |src| && !Space(src[i]) && TokenEnd(src, i).Some?
    ensures Lex(src, i) == Prefixed([TokenOf(src[i..TokenEnd(src, i).value])], Lex(src, TokenEnd(src, i).value))
  {
  }

  /** Skip the token at `i`. */
  method SkipToken(src: string, i: nat) returns (e: nat, ok: bool)
    requires i < |src| && !Space(src[i])
    ensures ok <==> TokenEnd(src, i).Some?
    ensures ok ==> e == TokenEnd(src, i).value
  {
    e, ok := i, true;
    if Digit(src[i]) {
      if src[i] == '0' && i + 1 < |src| && (src[i + 1] == 'x' || src[i + 1] == 'X') {
        e := SkipRun(src, i + 2, Hexadecimals);
      } else {
        e := SkipRun(src, i, Decimals);
      }
    } else if NameStart(src[i]) {
      e := SkipRun(src, i + 1, NameChars);
    } else if i + 1 < |src| && LongOperator(src[i..i + 2]) {
      e := i + 2;
    } else if ShortOperator(src[i..i + 1]) {
      e := i + 1;
    } else {
      ok := false;
    }
  }

  method Tokens(src: string) returns (tokens: Option<seq<Token>>)
    ensures tokens == Lex(src, 0)
  {
    var found: seq<Token>, i := [], 0;
    assert Lex(src, 0).Some? ==> [] + Lex(src, 0).value == Lex(src, 0).value;
    while i < |src|
      invariant 0 <= i <= |src|
      invariant Lex(src, 0) == Prefixed(found, Lex(src, i))
    {
      if Space(src[i]) {
        i := i + 1;
      } else {
        var e, ok := SkipToken(src, i);
        if !ok { return None; }
        LexToken(src, i);
        PrefixedMore(found, TokenOf(src[i..e]), Lex(src, e));
        found := found + [TokenOf(src[i..e])];
        i := e;
      }
    }
    return Some(found + [End]);
  }

  method SkipRun(src: string, at: nat, run: Run) returns (i: nat)
    requires at <= |src|
    ensures i == RunEnd(src, at, run)
  {
    i := at;
    while i < |src| && InRun(run, src[i])
      invariant at <= i <= |src| && RunEnd(src, at, run) == RunEnd(src, i, run)
    {
      i := i + 1;
    }
  }

  /** What the arithmetic of `src` comes to. */
  function Evaluation(src: string, env: Env): Outcome {
    var ts := Lex(src, 0);
    if ts.None? then Malformed
    else
      var r := Expression(ts.value, 0, 1, env);
      if r.Done? && !(r.next < |ts.value| && ts.value[r.next] == End) then Malformed else r
  }

  method Evaluate(src: string, env: Env) returns (r: Outcome)
    ensures r == Evaluation(src, env)
  {
    var ts := Tokens(src);
    if ts.None? { return Malformed; }
    var evaluator := new Evaluator(ts.value, env);
    r := evaluator.ReadExpression(1);
    if r.Done? && !(evaluator.at < |ts.value| && ts.value[evaluator.at] == End) { return Malformed; }
  }

  // --- from the tree to the text and back

  /** Text that reads as one token. */
  predicate Proper(t: Token) {
    match t
    case Number(text) =>
      text != "" && if Hexadecimal(text) then forall k :: 2 <= k < |text| ==> HexDigit(text[k])
      else forall k :: 0 <= k < |text| ==> Digit(text[k])
    case Name(text) => text != "" && NameStart(text[0]) && forall k :: 0 <= k < |text| ==> NameChar(text[k])
    case Operator(text) => LongOperator(text) || ShortOperator(text)
    case End => false
  }

  predicate AllProper(ts: seq<Token>) {
    ts == [] || (Proper(ts[0]) && AllProper(ts[1..]))
  }

  lemma {:induction false} ProperJoined(a: seq<Token>, b: seq<Token>)
    requires AllProper(a) && AllProper(b)
    ensures AllProper(a + b)
  {
    if a == [] {
      assert a + b == b;
    } else {
      ProperJoined(a[1..], b);
      assert (a + b)[1..] == a[1..] + b;
    }
  }

  /** The token does not go on at `j`. */
  predicate Apart(t: Token, src: string, j: nat)
    requires Proper(t)
  {
    j < |src| ==>
      match t
      case Number(text) =>
        if Hexadecimal(text) then !HexDigit(src[j])
           else !Digit(src[j]) && !(text == "0" && (src[j] == 'x' || src[j] == 'X'))
      case Name(_) => !NameChar(src[j])
      case Operator(text) => |text| == 2 || !LongOperator([text[0], src[j]])
  }

  /** From `i` on the text spells these tokens, spaces between them or not. */
  ghost predicate Spelled(src: string, i: nat, ts: seq<Token>)
    requires i <= |src|
    decreases |src| - i
  {
    if i == |src| then ts == []
    else if Space(src[i]) then Spelled(src, i + 1, ts)
    else
      && ts != [] && Proper(ts[0]) && i + |ts[0].text| <= |src| && ts[0].text != ""
      && src[i..i + |ts[0].text|] == ts[0].text
      && Apart(ts[0], src, i + |ts[0].text|) && Spelled(src, i + |ts[0].text|, ts[1..])
  }

  lemma {:induction false} RunEndIs(src: string, i: nat, e: nat, run: Run)
    requires i <= e <= |src| && (forall k :: i <= k < e ==> InRun(run, src[k])) && (e < |src| ==> !InRun(run, src[e]))
    ensures RunEnd(src, i, run) == e
    decreases e - i
  {
    if i < e { RunEndIs(src, i + 1, e, run); }
  }

  /** The characters of a token stand at `i`. */
  ghost predicate StandsAt(src: string, i: nat, text: string) {
    i + |text| <= |src| && forall k {:trigger src[k]} :: i <= k < i + |text| ==> src[k] == text[k - i]
  }

  lemma NumberEndIs(src: string, i: nat, text: string)
    requires Proper(Number(text)) && StandsAt(src, i, text) && Apart(Number(text), src, i + |text|)
    ensures text != "" && Digit(text[0]) && TokenEnd(src, i) == Some(i + |text|)
  {
    if Hexadecimal(text) {
      assert src[i + 1] == text[1];
      RunEndIs(src, i + 2, i + |text|, Hexadecimals);
    } else {
      assert |text| > 1 ==> src[i + 1] == text[1];
      RunEndIs(src, i + 1, i + |text|, Decimals);
    }
  }

  lemma NameEndIs(src: string, i: nat, text: string)
    requires Proper(Name(text)) && StandsAt(src, i, text) && Apart(Name(text), src, i + |text|)
    ensures text != "" && !Digit(text[0]) && NameStart(text[0]) && !Space(text[0]) &&
            TokenEnd(src, i) == Some(i + |text|)
  {
    RunEndIs(src, i + 1, i + |text|, NameChars);
  }

  lemma OperatorEndIs(src: string, i: nat, text: string)
    requires Proper(Operator(text)) && StandsAt(src, i, text) && Apart(Operator(text), src, i + |text|)
    ensures text != "" && !Digit(text[0]) && !NameStart(text[0]) && !Space(text[0]) &&
            TokenEnd(src, i) == Some(i + |text|)
  {
    assert src[i] == text[0] && src[i..i + 1] == [text[0]];
    if |text| == 2 { assert src[i + 1] == text[1] && src[i..i + 2] == text; }
    if i + 1 < |src| && |text| == 1 { assert src[i..i + 2] == [text[0], src[i + 1]]; }
  }

  lemma TokenEndIs(src: string, i: nat, t: Token)
    requires Proper(t) && i + |t.text| <= |src| && src[i..i + |t.text|] == t.text && Apart(t, src, i + |t.text|)
    requires i < |src| && !Space(src[i])
    ensures TokenEnd(src, i) == Some(i + |t.text|) && TokenOf(src[i..i + |t.text|]) == t
  {
    Stands(src, i, t.text);
    match t
    case Number(text) => NumberEndIs(src, i, text);
    case Name(text) => NameEndIs(src, i, text);
    case Operator(text) => OperatorEndIs(src, i, text);
  }

  lemma Stands(src: string, i: nat, text: string)
    requires i + |text| <= |src| && src[i..i + |text|] == text
    ensures StandsAt(src, i, text)
  {
    forall k {:trigger src[k]} | i <= k < i +
        |text| ensures src[k] == text[k - i] { assert src[i..i + |text|][k - i] == src[k]; }
  }

  lemma LexStep(src: string, i: nat, e: nat, ts: seq<Token>)
    requires i < |src| && !Space(src[i]) && ts != [] && e <= |src|
    requires TokenEnd(src, i) == Some(e) && TokenOf(src[i..e]) == ts[0] && Lex(src, e) == Some(ts[1..] + [End])
    ensures Lex(src, i) == Some(ts + [End])
  {
    LexToken(src, i);
    FirstAndRest(ts, [End]);
  }

  lemma FirstAndRest(ts: seq<Token>, end: seq<Token>)
    requires ts != []
    ensures [ts[0]] + (ts[1..] + end) == ts + end
  {
    assert [ts[0]] + ts[1..] == ts;
  }

  /** Spelled tokens are read back. */
  lemma {:induction false} SpelledLexes(src: string, i: nat, ts: seq<Token>)
    requires i <= |src| && Spelled(src, i, ts)
    ensures Lex(src, i) == Some(ts + [End])
    decreases |src| - i
  {
    if i < |src| {
      if Space(src[i]) {
        SpelledLexes(src, i + 1, ts);
      } else {
        var e := i + |ts[0].text|;
        TokenEndIs(src, i, ts[0]);
        SpelledLexes(src, e, ts[1..]);
        LexStep(src, i, e, ts);
      }
    } else {
      assert ts + [End] == [End];
    }
  }

  /** The tokens with a space behind each. */
  function Spaced(ts: seq<Token>): string
    requires AllProper(ts)
  {
    if ts == [] then "" else ts[0].text + " " + Spaced(ts[1..])
  }

  ghost predicate TextAt(src: string, i: nat, text: string) {
    i + |text| <= |src| && forall k {:trigger text[k]} :: 0 <= k < |text| ==> src[i + k] == text[k]
  }

  lemma TextParts(src: string, i: nat, a: string, b: string, c: string)
    requires TextAt(src, i, a + b + c)
    ensures TextAt(src, i, a) && TextAt(src, i + |a|, b) && TextAt(src, i + |a| + |b|, c)
    ensures src[i..i + |a|] == a
  {
    var all := a + b + c;
    forall k | 0 <= k < |a| ensures src[i + k] == a[k] { assert all[k] == a[k]; }
    forall k | 0 <= k < |b| ensures src[i + |a| + k] == b[k] { assert all[|a| + k] == b[k]; }
    forall k | 0 <= k < |c| ensures src[i + |a| + |b| + k] == c[k] { assert all[|a| + |b| + k] == c[k]; }
  }

  lemma {:induction false} SpacedSpells(src: string, i: nat, ts: seq<Token>)
    requires AllProper(ts) && TextAt(src, i, Spaced(ts)) && i + |Spaced(ts)| == |src|
    ensures Spelled(src, i, ts)
    decreases |ts|
  {
    if ts != [] {
      var text, rest := ts[0].text, Spaced(ts[1..]);
      var e := i + |text|;
      assert Spaced(ts) == text + " " + rest;
      TextParts(src, i, text, " ", rest);
      assert src[e] == " "[0];
      SpacedSpells(src, e + 1, ts[1..]);
      SpaceSkips(src, e, ts[1..]);
      FirstSpelled(src, i, e, ts);
    }
  }

  lemma FirstSpelled(src: string, i: nat, e: nat, ts: seq<Token>)
    requires ts != [] && Proper(ts[0]) && e == i + |ts[0].text| && e < |src| && src[i..e] == ts[0].text && src[e] == ' '
    requires Spelled(src, e, ts[1..])
    ensures Spelled(src, i, ts)
  {
    FirstSolid(ts[0]);
    assert src[i] == src[i..e][0];
  }

  lemma SpaceSkips(src: string, i: nat, ts: seq<Token>)
    requires i < |src| && AllProper(ts) && src[i] == ' ' && Spelled(src, i + 1, ts)
    ensures Spelled(src, i, ts)
  {
  }

  lemma FirstSolid(t: Token)
    requires Proper(t)
    ensures t.text != "" && !Space(t.text[0])
  {
  }

  predicate NamesRead(e: Expr) {
    match e
    case Literal(text) => Proper(Number(text)) && NumberOf(text).Some?
    case Variable(name) => Proper(Name(name))
    case Unary(_, operand) => NamesRead(operand)
    case Binary(_, left, right) => NamesRead(left) && NamesRead(right)
  }

  lemma BareProper(op: BinaryOp, l: seq<Token>, r: seq<Token>)
    requires AllProper(l) && AllProper(r)
    ensures AllProper(l + [Operator(Text(op))] + r) && AllProper(Parenthesised(l + [Operator(Text(op))] + r))
  {
    var bare := l + [Operator(Text(op))] + r;
    OperatorProper(op);
    ProperJoined(l, [Operator(Text(op))]);
    ProperJoined(l + [Operator(Text(op))], r);
    ProperJoined([Operator("(")], bare);
    ProperJoined([Operator("(")] + bare, [Operator(")")]);
  }

  lemma OperatorProper(op: BinaryOp)
    ensures AllProper([Operator(Text(op))])
  {
  }

  lemma {:induction false} PrimaryProper(e: Expr)
    requires NamesRead(e)
    ensures LiteralsRead(e) && AllProper(PrintPrimary(e)) && (e.Binary? ==> AllProper(Bare(e)))
    decreases e, 0
  {
    match e
    case Literal(_) =>
    case Variable(_) =>
    case Unary(op, operand) =>
      PrimaryProper(operand);
      ProperJoined([Operator(UnaryText(op))], PrintPrimary(operand));
    case Binary(op, left, right) =>
      var p := Precedence(op);
      PrintsProper(left, p);
      PrintsProper(right, p + 1);
      BareProper(op, Print(left, p), Print(right, p + 1));
  }

  lemma {:induction false} PrintsProper(e: Expr, level: nat)
    requires NamesRead(e)
    ensures LiteralsRead(e) && AllProper(Print(e, level))
    decreases e, 1
  {
    PrimaryProper(e);
  }

  /** However the printed tree is spaced, its text evaluates to the value of the
      tree, and to an error exactly when the tree divides by zero. */
  lemma RoundTrip(e: Expr, src: string, env: Env)
    requires NamesRead(e) && Spelled(src, 0, Print(e, 1))
    ensures Evaluation(src, env) == Expected(Value(e, env), |Print(e, 1)|)
  {
    PrintsProper(e, 1);
    SpelledLexes(src, 0, Print(e, 1));
    PrintedEvaluates(e, Print(e, 1), env);
  }

  /** The printed tree, with a space behind each token, evaluates to its value. */
  lemma SpacedEvaluates(e: Expr, env: Env)
    requires NamesRead(e)
    ensures AllProper(Print(e, 1))
    ensures Evaluation(Spaced(Print(e, 1)), env) == Expected(Value(e, env), |Print(e, 1)|)
  {
    PrintsProper(e, 1);
    SpacedSpells(Spaced(Print(e, 1)), 0, Print(e, 1));
    RoundTrip(e, Spaced(Print(e, 1)), env);
  }

  /** The tree of `x a y b z`. */
  function Grouped(a: BinaryOp, b: BinaryOp, x: string, y: string, z: string): Expr {
    if Precedence(a) >= Precedence(b) then Binary(b, Binary(a, Variable(x), Variable(y)), Variable(z))
    else Binary(a, Variable(x), Binary(b, Variable(y), Variable(z)))
  }

  lemma BarePrints(op: BinaryOp, left: Expr, right: Expr, l: seq<Token>, r: seq<Token>, level: nat)
    requires Precedence(op) >= level && l == Print(left, Precedence(op)) && r == Print(right, Precedence(op) + 1)
    ensures Print(Binary(op, left, right), level) == l + [Operator(Text(op))] + r
  {
  }

  lemma NamePrints(x: string, level: nat)
    ensures Print(Variable(x), level) == [Name(x)]
  {
  }

  lemma TwoPrint(op: BinaryOp, x: string, y: string, level: nat)
    requires Precedence(op) >= level
    ensures Print(Binary(op, Variable(x), Variable(y)), level) == [Name(x), Operator(Text(op)), Name(y)]
  {
    NamePrints(x, Precedence(op));
    NamePrints(y, Precedence(op) + 1);
    BarePrints(op, Variable(x), Variable(y), [Name(x)], [Name(y)], level);
  }

  lemma GroupedPrints(a: BinaryOp, b: BinaryOp, x: string, y: string, z: string)
    ensures Print(Grouped(a, b, x, y, z), 1) == [Name(x), Operator(Text(a)), Name(y), Operator(Text(b)), Name(z)]
  {
    if Precedence(a) >= Precedence(b) {
      TwoPrint(a, x, y, Precedence(b));
      NamePrints(z, Precedence(b) + 1);
      BarePrints(b, Binary(a, Variable(x), Variable(y)), Variable(z), [Name(x), Operator(Text(a)), Name(y)], [Name(z)],
                 1);
    } else {
      TwoPrint(b, y, z, Precedence(a) + 1);
      NamePrints(x, Precedence(a));
      BarePrints(a, Variable(x), Binary(b, Variable(y), Variable(z)), [Name(x)], [Name(y), Operator(Text(b)), Name(z)],
                 1);
    }
  }

  lemma GroupedReads(a: BinaryOp, b: BinaryOp, x: string, y: string, z: string)
    requires Proper(Name(x)) && Proper(Name(y)) && Proper(Name(z))
    ensures NamesRead(Grouped(a, b, x, y, z))
  {
    if Precedence(a) >= Precedence(b) {
      BothRead(a, Variable(x), Variable(y));
      BothRead(b, Binary(a, Variable(x), Variable(y)), Variable(z));
    } else {
      BothRead(b, Variable(y), Variable(z));
      BothRead(a, Variable(x), Binary(b, Variable(y), Variable(z)));
    }
  }

  lemma BothRead(op: BinaryOp, left: Expr, right: Expr)
    requires NamesRead(left) && NamesRead(right)
    ensures NamesRead(Binary(op, left, right))
  {
  }

  /** Without parentheses, the operator of higher precedence groups first, and of
      two with the same the left one. */
  lemma Groups(a: BinaryOp, b: BinaryOp, x: string, y: string, z: string, env: Env)
    requires Proper(Name(x)) && Proper(Name(y)) && Proper(Name(z))
    ensures var ts := [Name(x), Operator(Text(a)), Name(y), Operator(Text(b)), Name(z)];
      AllProper(ts) && Evaluation(Spaced(ts), env) == Expected(Value(Grouped(a, b, x, y, z), env), 5)
  {
    GroupedPrints(a, b, x, y, z);
    GroupedReads(a, b, x, y, z);
    SpacedEvaluates(Grouped(a, b, x, y, z), env);
  }
}
