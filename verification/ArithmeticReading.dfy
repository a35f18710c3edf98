/** Evaluating the tokens of a printed tree gives the value of the tree. */
module ArithmeticReading {
  import opened Arithmetic

  // --- evaluating what was printed

  predicate LiteralsRead(e: Expr) {
    match e
    case Literal(text) => NumberOf(text).Some?
    case Variable(_) => true
    case Unary(_, operand) => LiteralsRead(operand)
    case Binary(_, left, right) => LiteralsRead(left) && LiteralsRead(right)
  }

  /** These tokens stand at `at`. */
  ghost predicate At(ts: seq<Token>, at: nat, part: seq<Token>)
    decreases |part|
  {
    part == [] || (at < |ts| && ts[at] == part[0] && At(ts, at + 1, part[1..]))
  }

  lemma {:induction false} AtParts(ts: seq<Token>, at: nat, a: seq<Token>, b: seq<Token>)
    requires At(ts, at, a + b)
    ensures At(ts, at, a) && At(ts, at + |a|, b)
    decreases |a|
  {
    if a == [] {
      assert a + b == b;
    } else {
      assert (a + b)[1..] == a[1..] + b;
      AtParts(ts, at + 1, a[1..], b);
    }
  }

  lemma AtOne(ts: seq<Token>, at: nat, t: Token)
    requires At(ts, at, [t])
    ensures at < |ts| && ts[at] == t
  {
  }

  lemma {:induction false} AtFits(ts: seq<Token>, at: nat, part: seq<Token>)
    requires At(ts, at, part) && at <= |ts|
    ensures at + |part| <= |ts|
    decreases |part|
  {
    if part != [] { AtFits(ts, at + 1, part[1..]); }
  }

  lemma {:induction false} AtPrefix(ts: seq<Token>, at: nat, part: seq<Token>)
    requires at + |part| <= |ts| && ts[at..at + |part|] == part
    ensures At(ts, at, part)
    decreases |part|
  {
    if part != [] {
      assert ts[at + 1..at + |part|] == ts[at..at + |part|][1..];
      AtPrefix(ts, at + 1, part[1..]);
    }
  }

  /** The outcome for a tree of this value whose tokens end at `next`. */
  function Expected(v: Option<int>, next: nat): Outcome {
    if v.Some? then Done(v.value, next) else DividesByZero
  }

  /** What follows does not belong to a bare binary expression. */
  predicate Closed(ts: seq<Token>, at: nat, e: Expr, level: nat) {
    e.Binary? && Precedence(e.bop) >= level ==> !Climbs(ts, at, Precedence(e.bop) + 1)
  }

  /** Go on climbing from a value, if there is one. */
  function Onward(ts: seq<Token>, at: nat, v: Option<int>, minimum: nat, env: Env): Outcome
    requires at <= |ts|
  {
    if v.Some? then Climb(ts, at, v.value, minimum, env) else DividesByZero
  }

  function Combined(op: BinaryOp, l: Option<int>, r: Option<int>): Option<int> {
    if l.None? || r.None? then None else Apply(op, l.value, r.value)
  }

  /** Reading from `at` comes to a value at `next` and climbs on.  Kept folded. */
  ghost predicate Reads(ts: seq<Token>, at: nat, minimum: nat, v: Option<int>, next: nat, env: Env, folds: nat)
    requires next <= |ts|
  {
    if folds > 0 then Reads(ts, at, minimum, v, next, env, folds - 1)
    else Expression(ts, at, minimum, env) == Onward(ts, next, v, minimum, env)
  }

  lemma ReadsMeans(ts: seq<Token>, at: nat, minimum: nat, v: Option<int>, next: nat, env: Env, folds: nat)
    requires next <= |ts|
    ensures Reads(ts, at, minimum, v, next, env, folds) <==>
            Expression(ts, at, minimum, env) == Onward(ts, next, v, minimum, env)
  {
  }

  /** Climbing over one operator and its right operand. */
  lemma ClimbOver(ts: seq<Token>, at: nat, middle: nat, op: BinaryOp, l: Option<int>, r: Option<int>, next: nat,
                  minimum: nat, env: Env)
    requires middle < |ts| && BinaryOf(ts[middle]) == Some(op) && minimum <= Precedence(op) && next <= |ts|
    requires Reads(ts, at, minimum, l, middle, env, FOLDS)
    requires Reads(ts, middle + 1, Precedence(op) + 1, r, next, env, FOLDS) && !Climbs(ts, next, Precedence(op) + 1)
    ensures Reads(ts, at, minimum, Combined(op, l, r), next, env, FOLDS)
  {
    ReadsMeans(ts, at, minimum, l, middle, env, FOLDS);
    ReadsMeans(ts, middle + 1, Precedence(op) + 1, r, next, env, FOLDS);
    ReadsMeans(ts, at, minimum, Combined(op, l, r), next, env, FOLDS);
    if r.Some? { StopsClimbing(ts, next, r.value, Precedence(op) + 1, env); }
    if l.Some? { ClimbsOne(ts, middle, op, l.value, minimum, env); }
  }

  lemma StopsClimbing(ts: seq<Token>, at: nat, value: int, minimum: nat, env: Env)
    requires at <= |ts| && !Climbs(ts, at, minimum)
    ensures Climb(ts, at, value, minimum, env) == Done(value, at)
  {
  }

  lemma ClimbsOne(ts: seq<Token>, at: nat, op: BinaryOp, left: int, minimum: nat, env: Env)
    requires at < |ts| && BinaryOf(ts[at]) == Some(op) && minimum <= Precedence(op)
    ensures var right := Expression(ts, at + 1, Precedence(op) + 1, env);
      Climb(ts, at, left, minimum, env) ==
      if !right.Done? then right
      else if Apply(op, left, right.value).None? then DividesByZero
      else Climb(ts, right.next, Apply(op, left, right.value).value, minimum, env)
  {
  }

  lemma CombinedValue(e: Expr, env: Env)
    requires e.Binary?
    ensures Value(e, env) == Combined(e.bop, Value(e.left, env), Value(e.right, env))
  {
  }

  /** Where the parts of a bare binary expression stand. */
  lemma BareParts(ts: seq<Token>, at: nat, op: BinaryOp, l: seq<Token>, r: seq<Token>)
    requires at <= |ts| && At(ts, at, l + [Operator(Text(op))] + r)
    ensures at + |l| + 1 + |r| <= |ts| && At(ts, at, l) && BinaryOf(ts[at + |l|]) == Some(op) && At(ts, at + |l| + 1, r)
  {
    AtFits(ts, at, l + [Operator(Text(op))] + r);
    AtParts(ts, at, l + [Operator(Text(op))], r);
    AtParts(ts, at, l, [Operator(Text(op))]);
    AtOne(ts, at + |l|, Operator(Text(op)));
    BinaryOfText(op);
  }

  /** Where the parts of a parenthesised expression stand, and what it reads as. */
  lemma ParenthesesRead(ts: seq<Token>, at: nat, inner: seq<Token>, v: Option<int>, next: nat, env: Env)
    requires at < |ts| && ts[at] == Operator("(") && at < next <= |ts| && ts[next - 1] == Operator(")")
    requires Expression(ts, at + 1, 1, env) == Onward(ts, next - 1, v, 1, env)
    ensures Primary(ts, at, env) == Expected(v, next)
  {
  }

  lemma ParenthesesStand(ts: seq<Token>, at: nat, inner: seq<Token>)
    requires at <= |ts| && At(ts, at, Parenthesised(inner))
    ensures at + |inner| + 2 <= |ts| && ts[at] == Operator("(") && At(ts, at + 1, inner) &&
            ts[at + 1 + |inner|] == Operator(")")
    ensures !Climbs(ts, at + 1 + |inner|, 1)
  {
    AtFits(ts, at, Parenthesised(inner));
    AtParts(ts, at, [Operator("(")] + inner, [Operator(")")]);
    AtParts(ts, at, [Operator("(")], inner);
    AtOne(ts, at, Operator("("));
    AtOne(ts, at + 1 + |inner|, Operator(")"));
  }

  lemma UnaryReads(ts: seq<Token>, at: nat, op: UnaryOp, v: Option<int>, next: nat, env: Env)
    requires at < |ts| && ts[at] == Operator(UnaryText(op)) && Primary(ts, at + 1, env) == Expected(v, next)
    ensures Primary(ts, at, env) == Expected(if v.None? then None else Some(ApplyUnary(op, v.value)), next)
  {
    UnaryOfText(op);
  }

  lemma {:induction false} PrimaryReads(ts: seq<Token>, at: nat, e: Expr, part: seq<Token>, next: nat, env: Env)
    requires LiteralsRead(e) && at <= |ts| && At(ts, at, part) && part == PrintPrimary(e) && next == at + |part|
    ensures Primary(ts, at, env) == Expected(Value(e, env), next)
    decreases e, 2
  {
    match e
    case Literal(text) => AtOne(ts, at, Number(text));
    case Variable(name) => AtOne(ts, at, Name(name));
    case Unary(op, operand) =>
      var rest := PrintPrimary(operand);
      AtParts(ts, at, [Operator(UnaryText(op))], rest);
      AtOne(ts, at, Operator(UnaryText(op)));
      PrimaryReads(ts, at + 1, operand, rest, next, env);
      UnaryReads(ts, at, op, Value(operand, env), next, env);
    case Binary(op, left, right) =>
      var inner := Bare(e);
      assert part == Parenthesised(inner);
      ParenthesesStand(ts, at, inner);
      BareReads(ts, at + 1, e, inner, next - 1, 1, env);
      ReadsMeans(ts, at + 1, 1, Value(e, env), next - 1, env, FOLDS);
      ParenthesesRead(ts, at, inner, Value(e, env), next, env);
  }

  /** Evaluating the tokens of a bare binary expression at any lower minimum
      comes to its value and then climbs on. */
  lemma {:induction false} BareReads(ts: seq<Token>, at: nat, e: Expr, part: seq<Token>, next: nat, minimum: nat,
                                     env: Env)
    requires e.Binary? && LiteralsRead(e) && at <= |ts| && At(ts, at, part) && part == Bare(e) && next == at + |part|
    requires minimum <= Precedence(e.bop) && !Climbs(ts, next, Precedence(e.bop) + 1)
    ensures next <= |ts| && Reads(ts, at, minimum, Value(e, env), next, env, FOLDS)
    decreases e, 1
  {
    var p := Precedence(e.bop);
    var l, r := Print(e.left, p), Print(e.right, p + 1);
    assert part == l + [Operator(Text(e.bop))] + r;
    BareParts(ts, at, e.bop, l, r);
    PartsRead(ts, at, e, l, r, at + |l|, next, minimum, env);
  }

  /** Evaluating the left tokens, the operator and the right tokens. */
  lemma {:induction false} PartsRead(ts: seq<Token>, at: nat, e: Expr, l: seq<Token>, r: seq<Token>, middle: nat,
                                     next: nat, minimum: nat, env: Env)
    requires e.Binary? && LiteralsRead(e) && at <= middle < next <= |ts|
    requires At(ts, at, l) && l == Print(e.left, Precedence(e.bop)) && middle == at + |l|
    requires At(ts, middle + 1, r) && r == Print(e.right, Precedence(e.bop) + 1) && next == middle + 1 + |r|
    requires BinaryOf(ts[middle]) == Some(e.bop)
    requires minimum <= Precedence(e.bop) && !Climbs(ts, next, Precedence(e.bop) + 1)
    ensures Reads(ts, at, minimum, Value(e, env), next, env, FOLDS)
    decreases e, 0
  {
    var p := Precedence(e.bop);
    ExpressionReads(ts, at, e.left, l, middle, p, minimum, env);
    ExpressionReads(ts, middle + 1, e.right, r, next, p + 1, p + 1, env);
    ClimbOver(ts, at, middle, e.bop, Value(e.left, env), Value(e.right, env), next, minimum, env);
    CombinedValue(e, env);
  }

  lemma {:induction false} ExpressionReads(ts: seq<Token>, at: nat, e: Expr, part: seq<Token>, next: nat, level: nat,
                                           minimum: nat, env: Env)
    requires LiteralsRead(e) && at <= |ts| && At(ts, at, part) && part == Print(e, level) && next == at + |part| &&
             minimum <= level
    requires Closed(ts, next, e, level)
    ensures next <= |ts| && Reads(ts, at, minimum, Value(e, env), next, env, FOLDS)
    decreases e, 3
  {
    AtFits(ts, at, part);
    if e.Binary? && Precedence(e.bop) >= level {
      BareReads(ts, at, e, part, next, minimum, env);
    } else {
      PrimaryReads(ts, at, e, part, next, env);
      ReadsMeans(ts, at, minimum, Value(e, env), next, env, FOLDS);
    }
  }

  /** The printed tokens of a tree, and nothing else, have the value of the tree. */
  lemma PrintedEvaluates(e: Expr, part: seq<Token>, env: Env)
    requires LiteralsRead(e) && part == Print(e, 1)
    ensures Expression(part + [End], 0, 1, env) == Expected(Value(e, env), |part|)
  {
    var ts := part + [End];
    assert ts[|part|] == End;
    AtPrefix(ts, 0, part);
    ExpressionReads(ts, 0, e, part, |part|, 1, 1, env);
    ReadsMeans(ts, 0, 1, Value(e, env), |part|, env, FOLDS);
  }

  /** Some part of the tree divides by zero. */
  predicate DividesByZeroIn(e: Expr, env: Env) {
    match e
    case Literal(_) => false
    case Variable(_) => false
    case Unary(_, operand) => DividesByZeroIn(operand, env)
    case Binary(op, left, right) =>
      || DividesByZeroIn(left, env) || DividesByZeroIn(right, env)
      || ((op == Divide || op == Modulo) && Value(right, env) == Some(0))
  }

  lemma ApplyFails(op: BinaryOp, l: int, r: int)
    ensures Apply(op, l, r).None? <==> (op == Divide || op == Modulo) && r == 0
  {
  }

  lemma {:induction false} FailsExactly(e: Expr, env: Env)
    requires LiteralsRead(e)
    ensures Value(e, env).None? <==> DividesByZeroIn(e, env)
  {
    match e
    case Literal(_) =>
    case Variable(_) =>
    case Unary(_, operand) => FailsExactly(operand, env);
    case Binary(op, left, right) =>
      FailsExactly(left, env);
      FailsExactly(right, env);
      if Value(left, env).Some? &&
         Value(right, env).Some? { ApplyFails(op, Value(left, env).value, Value(right, env).value); }
  }

  predicate InRange(v: int) {
    -0x8000_0000_0000_0000 <= v < 0x8000_0000_0000_0000
  }

  lemma ApplyInRange(op: BinaryOp, l: int, r: int)
    ensures Apply(op, l, r).Some? ==> InRange(Apply(op, l, r).value)
  {
  }

  /** Every value fits into 64 bits. */
  lemma {:induction false} ValueInRange(e: Expr, env: Env)
    ensures Value(e, env).Some? ==> InRange(Value(e, env).value)
  {
    match e
    case Literal(_) =>
    case Variable(_) =>
    case Unary(_, operand) => ValueInRange(operand, env);
    case Binary(op, left, right) =>
      if Value(left, env).Some? &&
         Value(right, env).Some? { ApplyInRange(op, Value(left, env).value, Value(right, env).value); }
  }
}
