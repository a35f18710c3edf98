/** Arithmetic expansion of the shell: a tokeniser and a precedence climber.

    An expression tree is printed with only the parentheses that precedence
    requires; tokenising and evaluating the text gives the value of the tree,
    and fails exactly when the tree divides by zero somewhere. */
module Arithmetic {
  import Words

  datatype Option<T> = None | Some(value: T)

  // --- values

  /** The low 64 bits of an integer as a signed number. */
  function Signed(x: int): (r: int)
    ensures -0x8000_0000_0000_0000 <= r < 0x8000_0000_0000_0000
  {
    var r := x % 0x1_0000_0000_0000_0000;
    if r < 0x8000_0000_0000_0000 then r else r - 0x1_0000_0000_0000_0000
  }

  function Bits(x: int): bv64 {
    (x % 0x1_0000_0000_0000_0000) as bv64
  }

  lemma Pow2Positive(n: nat)
    ensures Words.Pow2(n) > 0
  {
  }

  /** Division that rounds towards zero, and its remainder. */
  function Quotient(x: int, y: int): int
    requires y != 0
  {
    if x >= 0 then x / y else -(-x / y)
  }

  function Truth(b: bool): int {
    if b then 1 else 0
  }

  datatype BinaryOp =
    Or | And | BitOr | BitXor | BitAnd | Equal | NotEqual | Less | AtMost | Greater | AtLeast | ShiftLeft | ShiftRight
    | Plus | Minus | Times | Divide | Modulo

  datatype UnaryOp = Same | Negate | Not | Complement

  /** None stands for the error "division by zero". */
  function Apply(op: BinaryOp, left: int, right: int): Option<int> {
    match op
    case Or => Some(Truth(left != 0 || right != 0))
    case And => Some(Truth(left != 0 && right != 0))
    case BitOr => Some(Signed((Bits(left) | Bits(right)) as int))
    case BitXor => Some(Signed((Bits(left) ^ Bits(right)) as int))
    case BitAnd => Some(Signed((Bits(left) & Bits(right)) as int))
    case Equal => Some(Truth(left == right))
    case NotEqual => Some(Truth(left != right))
    case Less => Some(Truth(left < right))
    case AtMost => Some(Truth(left <= right))
    case Greater => Some(Truth(left > right))
    case AtLeast => Some(Truth(left >= right))
    case ShiftLeft => Some(Signed(left * Words.Pow2(right % 64)))
    case ShiftRight => Pow2Positive(right % 64); Some(Signed(left / Words.Pow2(right % 64)))
    case Plus => Some(Signed(left + right))
    case Minus => Some(Signed(left - right))
    case Times => Some(Signed(left * right))
    case Divide => if right == 0 then None else Some(Signed(Quotient(left, right)))
    case Modulo => if right == 0 then None else Some(Signed(left - Quotient(left, right) * right))
  }

  function ApplyUnary(op: UnaryOp, value: int): int {
    match op
    case Same => value
    case Negate => Signed(-value)
    case Not => Truth(value == 0)
    case Complement => Signed(-value - 1)
  }

  // --- tokens

  datatype Token = Number(text: string) | Name(text: string) | Operator(text: string) | End

  function Precedence(op: BinaryOp): (p: nat)
    ensures 1 <= p <= 10
  {
    match op
    case Or => 1
    case And => 2
    case BitOr => 3
    case BitXor => 4
    case BitAnd => 5
    case Equal | NotEqual => 6
    case Less | AtMost | Greater | AtLeast => 7
    case ShiftLeft | ShiftRight => 8
    case Plus | Minus => 9
    case Times | Divide | Modulo => 10
  }

  function Text(op: BinaryOp): string {
    match op
    case Or => "||"
    case And => "&&"
    case BitOr => "|"
    case BitXor => "^"
    case BitAnd => "&"
    case Equal => "=="
    case NotEqual => "!="
    case Less => "<"
    case AtMost => "<="
    case Greater => ">"
    case AtLeast => ">="
    case ShiftLeft => "<<"
    case ShiftRight => ">>"
    case Plus => "+"
    case Minus => "-"
    case Times => "*"
    case Divide => "/"
    case Modulo => "%"
  }

  function UnaryText(op: UnaryOp): string {
    match op
    case Same => "+"
    case Negate => "-"
    case Not => "!"
    case Complement => "~"
  }

  /** The binary operator with this text, if there is one. */
  function BinaryOf(t: Token): Option<BinaryOp> {
    if !t.Operator? then None
    else if t.text == "||" then Some(Or)
    else if t.text == "&&" then Some(And)
    else if t.text == "|" then Some(BitOr)
    else if t.text == "^" then Some(BitXor)
    else if t.text == "&" then Some(BitAnd)
    else if t.text == "==" then Some(Equal)
    else if t.text == "!=" then Some(NotEqual)
    else if t.text == "<" then Some(Less)
    else if t.text == "<=" then Some(AtMost)
    else if t.text == ">" then Some(Greater)
    else if t.text == ">=" then Some(AtLeast)
    else if t.text == "<<" then Some(ShiftLeft)
    else if t.text == ">>" then Some(ShiftRight)
    else if t.text == "+" then Some(Plus)
    else if t.text == "-" then Some(Minus)
    else if t.text == "*" then Some(Times)
    else if t.text == "/" then Some(Divide)
    else if t.text == "%" then Some(Modulo)
    else None
  }

  function UnaryOf(t: Token): Option<UnaryOp> {
    if !t.Operator? then None
    else if t.text == "+" then Some(Same)
    else if t.text == "-" then Some(Negate)
    else if t.text == "!" then Some(Not)
    else if t.text == "~" then Some(Complement)
    else None
  }

  lemma BinaryOfText(op: BinaryOp)
    ensures BinaryOf(Operator(Text(op))) == Some(op)
  {
  }

  lemma UnaryOfText(op: UnaryOp)
    ensures UnaryOf(Operator(UnaryText(op))) == Some(op)
  {
  }

  // --- expression trees

  datatype Expr = Literal(text: string) | Variable(name: string) | Unary(op: UnaryOp,
      operand: Expr) | Binary(bop: BinaryOp, left: Expr, right: Expr)

  predicate Digit(c: char) {
    '0' <= c <= '9'
  }

  predicate HexDigit(c: char) {
    Digit(c) || 'a' <= c <= 'f' || 'A' <= c <= 'F'
  }

  function DigitValue(c: char): int
    requires HexDigit(c)
  {
    if Digit(c) then c as int - '0' as int else if c <= 'F' then c as int - 'A' as int + 10
       else c as int - 'a' as int + 10
  }

  predicate Hexadecimal(text: string) {
    |text| >= 2 && text[0] == '0' && (text[1] == 'x' || text[1] == 'X')
  }

  function InBase(digits: string, base: nat): int {
    if digits == "" then 0
    else InBase(digits[..|digits| - 1], base) * base + if HexDigit(digits[|digits| - 1]) then
      DigitValue(digits[|digits| - 1]) else 0
  }

  /** The number a literal stands for; none for a bare 0x. */
  function NumberOf(text: string): Option<int> {
    if !Hexadecimal(text) then Some(InBase(text, 10))
    else if |text| == 2 then None
    else Some(InBase(text[2..], 16))
  }

  /** The variables of the shell, as numbers. */
  type Env = string -> int

  /** The value of a tree; None when some part of it divides by zero. */
  function Value(e: Expr, env: Env): Option<int> {
    match e
    case Literal(text) => var n := NumberOf(text); if n.None? then None else Some(Signed(n.value))
    case Variable(name) => Some(Signed(env(name)))
    case Unary(op, operand) =>
      var v := Value(operand, env);
      if v.None? then None else Some(ApplyUnary(op, v.value))
    case Binary(op, left, right) =>
      var l, r := Value(left, env), Value(right, env);
      if l.None? || r.None? then None else Apply(op, l.value, r.value)
  }

  function Parenthesised(ts: seq<Token>): seq<Token> {
    [Operator("(")] + ts + [Operator(")")]
  }

  /** The tokens of a tree where operators below `level` need parentheses; the
      operand of a unary operator is never a bare binary expression. */
  function Print(e: Expr, level: nat): seq<Token>
    decreases e, 1
  {
    if e.Binary? && Precedence(e.bop) >= level then Bare(e) else PrintPrimary(e)
  }

  function PrintPrimary(e: Expr): seq<Token>
    decreases e, 0
  {
    match e
    case Literal(text) => [Number(text)]
    case Variable(name) => [Name(name)]
    case Unary(op, operand) => [Operator(UnaryText(op))] + PrintPrimary(operand)
    case Binary(op, left, right) =>
      Parenthesised(Print(left, Precedence(op)) + [Operator(Text(op))] + Print(right, Precedence(op) + 1))
  }

  /** A binary expression without parentheses. */
  function Bare(e: Expr): seq<Token>
    requires e.Binary?
    decreases e, 0
  {
    Print(e.left, Precedence(e.bop)) + [Operator(Text(e.bop))] + Print(e.right, Precedence(e.bop) + 1)
  }

  // --- the evaluator as a function of the tokens

  /** A value and the place behind it, or an error. */
  datatype Outcome = Done(value: int, next: nat) | DividesByZero | Malformed

  function Primary(ts: seq<Token>, at: nat, env: Env): (r: Outcome)
    ensures r.Done? ==> at < r.next <= |ts|
    decreases |ts| - at, 0
  {
    if at >= |ts| then Malformed
    else if ts[at].Number? then
      var n := NumberOf(ts[at].text);
      if n.None? then Malformed else Done(Signed(n.value), at + 1)
    else if ts[at].Name? then Done(Signed(env(ts[at].text)), at + 1)
    else if ts[at] == Operator("(") then
      var inner := Expression(ts, at + 1, 1, env);
      if !inner.Done? then inner
      else if inner.next < |ts| && ts[inner.next] == Operator(")") then Done(inner.value, inner.next + 1)
      else Malformed
    else if UnaryOf(ts[at]).Some? then
      var operand := Primary(ts, at + 1, env);
      if operand.Done? then Done(ApplyUnary(UnaryOf(ts[at]).value, operand.value), operand.next) else operand
    else Malformed
  }

  function Expression(ts: seq<Token>, at: nat, minimum: nat, env: Env): (r: Outcome)
    ensures r.Done? ==> at < r.next <= |ts|
    decreases |ts| - at, 1
  {
    var left := Primary(ts, at, env);
    if left.Done? then Climb(ts, left.next, left.value, minimum, env) else left
  }

  /** Does a binary operator of at least this precedence stand at `at`? */
  predicate Climbs(ts: seq<Token>, at: nat, minimum: nat) {
    at < |ts| && BinaryOf(ts[at]).Some? && Precedence(BinaryOf(ts[at]).value) >= minimum
  }

  function Climb(ts: seq<Token>, at: nat, left: int, minimum: nat, env: Env): (r: Outcome)
    requires at <= |ts|
    ensures r.Done? ==> at <= r.next <= |ts|
    decreases |ts| - at, 2
  {
    if !Climbs(ts, at, minimum) then Done(left, at)
    else
      var op := BinaryOf(ts[at]).value;
      var right := Expression(ts, at + 1, Precedence(op) + 1, env);
      if !right.Done? then right
      else
        var v := Apply(op, left, right.value);
        if v.None? then DividesByZero else Climb(ts, right.next, v.value, minimum, env)
  }

  const FOLDS := 3

  /** What stands from `at` on still gives `all`; kept folded for the loop. */
  ghost predicate Gives(ts: seq<Token>, at: nat, left: int, minimum: nat, env: Env, all: Outcome, folds: nat)
    requires at <= |ts|
  {
    if folds == 0 then Climb(ts, at, left, minimum, env) == all else Gives(ts, at, left, minimum, env, all, folds - 1)
  }

  lemma GivesMeans(ts: seq<Token>, at: nat, left: int, minimum: nat, env: Env, all: Outcome, folds: nat)
    requires at <= |ts|
    ensures Gives(ts, at, left, minimum, env, all, folds) <==> Climb(ts, at, left, minimum, env) == all
  {
  }

  lemma ExpressionBegins(ts: seq<Token>, at: nat, minimum: nat, env: Env, first: Outcome)
    requires first == Primary(ts, at, env)
    ensures if first.Done?
            then Gives(ts, first.next, first.value, minimum, env, Expression(ts, at, minimum, env), FOLDS)
            else first == Expression(ts, at, minimum, env)
  {
    if first.Done? {
      GivesMeans(ts, first.next, first.value, minimum, env, Expression(ts, at, minimum, env), FOLDS);
    }
  }

  /** After one operator and its right operand, the climb is over or goes on. */
  lemma ClimbOn(ts: seq<Token>, at: nat, left: int, minimum: nat, env: Env, all: Outcome, right: Outcome)
    requires Climbs(ts, at, minimum) && Gives(ts, at, left, minimum, env, all, FOLDS)
    requires right == Expression(ts, at + 1, Precedence(BinaryOf(ts[at]).value) + 1, env)
    ensures if !right.Done? then right == all
            else match Apply(BinaryOf(ts[at]).value, left, right.value)
              case None => all == DividesByZero
              case Some(v) => Gives(ts, right.next, v, minimum, env, all, FOLDS)
  {
    GivesMeans(ts, at, left, minimum, env, all, FOLDS);
    if right.Done? {
      var v := Apply(BinaryOf(ts[at]).value, left, right.value);
      if v.Some? { GivesMeans(ts, right.next, v.value, minimum, env, all, FOLDS); }
    }
  }

  lemma ClimbEnds(ts: seq<Token>, at: nat, left: int, minimum: nat, env: Env, all: Outcome)
    requires at <= |ts| && !Climbs(ts, at, minimum) && Gives(ts, at, left, minimum, env, all, FOLDS)
    ensures all == Done(left, at)
  {
    GivesMeans(ts, at, left, minimum, env, all, FOLDS);
  }

  // --- the evaluator

  class Evaluator {
    const tokens: seq<Token>
    const env: Env
    var at: nat

    constructor (ts: seq<Token>, variables: Env)
      ensures tokens == ts && env == variables && at == 0
    {
      tokens, env, at := ts, variables, 0;
    }

    method ReadPrimary() returns (r: Outcome)
      modifies this
      ensures r == Primary(tokens, old(at), env) && (r.Done? ==> at == r.next)
      decreases |tokens| - at, 0
    {
      if at >= |tokens| { return Malformed; }
      var token := tokens[at];
      at := at + 1;
      if token.Number? {
        var n := NumberOf(token.text);
        return if n.None? then Malformed else Done(Signed(n.value), at);
      }
      if token.Name? { return Done(Signed(env(token.text)), at); }
      if token == Operator("(") {
        r := ReadExpression(1);
        if !r.Done? { return; }
        if at >= |tokens| || tokens[at] != Operator(")") { return Malformed; }
        at := at + 1;
        return Done(r.value, at);
      }
      if UnaryOf(token).Some? {
        r := ReadPrimary();
        if r.Done? { r := Done(ApplyUnary(UnaryOf(token).value, r.value), at); }
        return;
      }
      return Malformed;
    }

    method ReadExpression(minimum: nat) returns (r: Outcome)
      modifies this
      ensures r == Expression(tokens, old(at), minimum, env) && (r.Done? ==> at == r.next)
      decreases |tokens| - at, 1
    {
      ghost var start, all := at, Expression(tokens, at, minimum, env);
      r := ReadPrimary();
      ExpressionBegins(tokens, start, minimum, env, r);
      if !r.Done? { return; }
      var left := r.value;
      while at < |tokens| && BinaryOf(tokens[at]).Some? && Precedence(BinaryOf(tokens[at]).value) >= minimum
        invariant start < at <= |tokens| && Gives(tokens, at, left, minimum, env, all, FOLDS)
        decreases |tokens| - at
      {
        ghost var here := at;
        var op := BinaryOf(tokens[at]).value;
        at := at + 1;
        r := ReadExpression(Precedence(op) + 1);
        ClimbOn(tokens, here, left, minimum, env, all, r);
        if !r.Done? { return; }
        var v := Apply(op, left, r.value);
        if v.None? { return DividesByZero; }
        left := v.value;
      }
      ClimbEnds(tokens, at, left, minimum, env, all);
      r := Done(left, at);
    }
  }
}
