/** What the operators of arithmetic expansion mean, told by their texts, and how
    they group, told by a table of texts. */
module ArithmeticLaws {
  import opened Arithmetic
  import opened ArithmeticReading
  import opened ArithmeticText
  import Words

  // --- wrapping and rounding

  /** The signed 64-bit number that differs from `x` by a multiple of two to the 64th. */
  predicate Wrapped(v: int, x: int) {
    InRange(v) && (v - x) % 0x1_0000_0000_0000_0000 == 0
  }

  /** Values wrap: `Signed(x)` is the one signed 64-bit number congruent to `x`. */
  lemma SignedWraps(x: int, v: int)
    ensures Wrapped(v, x) <==> v == Signed(x)
  {
    var q, m := x / 0x1_0000_0000_0000_0000, x % 0x1_0000_0000_0000_0000;
    var k := (v - x) / 0x1_0000_0000_0000_0000;
    assert x == 0x1_0000_0000_0000_0000 * q + m;
    assert v - x == 0x1_0000_0000_0000_0000 * k + (v - x) % 0x1_0000_0000_0000_0000;
    assert v == 0x1_0000_0000_0000_0000 * (k + q) + m + (v - x) % 0x1_0000_0000_0000_0000;
  }

  lemma InRangeStays(x: int)
    requires InRange(x)
    ensures Signed(x) == x
  {
  }

  function Size(x: int): int {
    if x < 0 then -x else x
  }

  /** Division rounds towards zero: what is left is smaller than the divisor and has
      the sign of the dividend. */
  lemma RoundsToZero(x: int, y: int)
    requires y != 0
    ensures var left := x - Quotient(x, y) * y;
            Size(left) < Size(y) && (left > 0 ==> x > 0) && (left < 0 ==> x < 0)
  {
    var m := Rest(x, y);
  }

  lemma Rest(x: int, y: int) returns (m: int)
    requires y != 0
    ensures x - Quotient(x, y) * y == (if x < 0 then -m else m) && 0 <= m < Size(y) && (x == 0 ==> m == 0)
  {
    var d := Size(x) / y;
    var e := d * y;
    m := Size(x) % y;
    Divides(Size(x), y);
    NegatedProduct(d, y);
    Left(x, y, d, e, m);
  }

  lemma Left(x: int, y: int, d: int, e: int, m: int)
    requires y != 0 && d == Size(x) / y && e == d * y && -d * y == -e && Size(x) == e + m && 0 <= m < Size(y)
    ensures x - Quotient(x, y) * y == if x < 0 then -m else m
  {
    assert Quotient(x, y) == if x < 0 then -d else d;
  }

  lemma Divides(n: int, y: int)
    requires n >= 0 && y != 0
    ensures n == n / y * y + n % y && 0 <= n % y < Size(y) && (n == 0 ==> n % y == 0)
  {
  }

  lemma NegatedProduct(a: int, b: int)
    ensures -a * b == -(a * b)
  {
  }

  // --- binary operators

  /** The value of the operator with this text; there is none when it divides by zero. */
  function Result(text: string, l: int, r: int): Option<int>
    requires BinaryOf(Operator(text)).Some?
  {
    Apply(BinaryOf(Operator(text)).value, l, r)
  }

  /** Sums, differences and products wrap. */
  lemma SumLaws(l: int, r: int)
    ensures Result("+", l, r).Some? && Wrapped(Result("+", l, r).value, l + r)
    ensures Result("-", l, r).Some? && Wrapped(Result("-", l, r).value, l - r)
    ensures Result("*", l, r).Some? && Wrapped(Result("*", l, r).value, l * r)
  {
    SignedWraps(l + r, Signed(l + r));
    SignedWraps(l - r, Signed(l - r));
    SignedWraps(l * r, Signed(l * r));
  }

  /** Quotient and remainder fail only for a divisor of zero, and make up the dividend;
      the one quotient that does not fit wraps. */
  lemma DivisionLaws(l: int, r: int)
    requires InRange(l) && InRange(r)
    ensures Result("/", l, r).None? <==> r == 0
    ensures Result("%", l, r).None? <==> r == 0
    ensures r != 0 ==> var q, m := Result("/", l, r).value, Result("%", l, r).value;
            && Size(m) < Size(r) && (m > 0 ==> l > 0) && (m < 0 ==> l < 0)
            && if l == -0x8000_0000_0000_0000 && r == -1 then q == l && m == 0 else l == q * r + m
  {
    if r != 0 {
      var q := Quotient(l, r);
      RoundsToZero(l, r);
      QuotientSize(l, r);
      InRangeStays(l - q * r);
      if l == -0x8000_0000_0000_0000 && r == -1 {
        assert q == 0x8000_0000_0000_0000;
      } else {
        InRangeStays(q);
      }
    }
  }

  lemma QuotientSize(l: int, r: int)
    requires InRange(l) && r != 0
    ensures InRange(Quotient(l, r)) || (l == -0x8000_0000_0000_0000 && r == -1)
  {
    RoundsToZero(l, r);
    ProductGrows(Quotient(l, r), r);
    Fitting(l, r, Quotient(l, r), Quotient(l, r) * r);
  }

  lemma Fitting(l: int, r: int, q: int, product: int)
    requires InRange(l) && r != 0 && Size(l - product) < Size(r) && (l - product > 0 ==> l > 0)
    requires (l - product < 0 ==> l < 0) && Size(product) >= Size(q)
    requires if q == 0 then product == 0 else Size(product) >= Size(r)
    requires q == 0x8000_0000_0000_0000 ==> product == 0x8000_0000_0000_0000 * r
    ensures InRange(q) || (l == -0x8000_0000_0000_0000 && r == -1)
  {
  }

  lemma ProductGrows(q: int, r: int)
    requires r != 0
    ensures Size(q * r) >= Size(q) && if q == 0 then q * r == 0 else Size(q * r) >= Size(r)
  {
    Multiplied(Size(q), Size(r));
    Multiplied(Size(r), Size(q));
    SizeOfProduct(q, r);
  }

  lemma SizeOfProduct(q: int, r: int)
    ensures Size(q * r) == Size(q) * Size(r)
  {
    Multiplied(Size(q), Size(r));
    if q < 0 { NegatedProduct(-q, r); }
    if r < 0 { NegatedFactor(q, -r); NegatedFactor(Size(q), -r); }
  }

  lemma NegatedFactor(a: int, b: int)
    ensures a * -b == -(a * b)
  {
  }

  lemma Multiplied(a: nat, b: nat)
    ensures a * b >= 0 && (b > 0 ==> a * b >= a)
  {
    if b > 0 { assert a * b == a * (b - 1) + a; }
  }

  /** Shifts take the distance modulo 64; to the left they multiply by a power of two,
      to the right they divide by it and round down. */
  lemma ShiftLaws(l: int, r: int)
    requires InRange(l)
    ensures Result("<<", l, r).Some? && Wrapped(Result("<<", l, r).value, l * Words.Pow2(r % 64))
    ensures Result(">>", l, r).Some? &&
            Result(">>", l, r).value * Words.Pow2(r % 64) <= l < (Result(">>", l, r).value + 1) * Words.Pow2(r % 64)
  {
    var p := Words.Pow2(r % 64);
    Pow2Positive(r % 64);
    SignedWraps(l * p, Signed(l * p));
    ShiftedDown(l, p);
    InRangeStays(l / p);
  }

  lemma ShiftedDown(l: int, p: nat)
    requires p > 0 && InRange(l)
    ensures InRange(l / p) && l / p * p <= l < (l / p + 1) * p
  {
    var q, m := l / p, l % p;
    assert l == q * p + m;
    Spread(q, p, l);
  }

  lemma Spread(q: int, p: nat, l: int)
    requires p > 0 && q * p <= l < q * p + p
    ensures l < (q + 1) * p && (l >= 0 ==> 0 <= q <= l) && (l < 0 ==> l <= q < 0)
  {
    assert (q + 1) * p == q * p + p;
    if q >= 0 {
      Multiplied(q, p);
    } else {
      Multiplied(-q, p);
      Multiplied(-q - 1, p);
      NegatedProduct(-q, p);
      NegatedProduct(-q - 1, p);
    }
  }

  /** All comparisons come from one: `<` is the order of the numbers. */
  lemma ComparisonLaws(l: int, r: int)
    ensures Result("<", l, r) == Some(if l < r then 1 else 0)
    ensures Result(">", l, r) == Result("<", r, l)
    ensures Result("<=", l, r).Some? && Result("<=", l, r).value + Result(">", l, r).value == 1
    ensures Result(">=", l, r).Some? && Result(">=", l, r).value + Result("<", l, r).value == 1
    ensures Result("==", l, r) == Some(Result("<=", l, r).value * Result(">=", l, r).value)
    ensures Result("!=", l, r).Some? && Result("!=", l, r).value + Result("==", l, r).value == 1
  {
  }

  /** The logical operators: `!` turns 0 to 1 and all else to 0, `&&` is 1 when neither
      side is 0, and `||` follows by De Morgan's law. */
  lemma LogicLaws(l: int, r: int)
    ensures UnaryResult("!", l) == if l == 0 then 1 else 0
    ensures Result("&&", l, r) == Some(UnaryResult("!", UnaryResult("!", l)) * UnaryResult("!", UnaryResult("!", r)))
    ensures Result("||", l, r).Some? && Result("||", l, r).value ==
            UnaryResult("!", UnaryResult("!", l) * UnaryResult("!", r))
  {
  }

  /** The bitwise operators work on the two's complement bits. */
  lemma BitLaws(l: int, r: int)
    ensures Result("&", l, r).Some? && Bits(Result("&", l, r).value) == Bits(l) & Bits(r)
    ensures Result("|", l, r).Some? && Bits(Result("|", l, r).value) == Bits(l) | Bits(r)
    ensures Result("^", l, r).Some? && Bits(Result("^", l, r).value) == Bits(l) ^ Bits(r)
  {
    BitsBack(Bits(l) & Bits(r));
    BitsBack(Bits(l) | Bits(r));
    BitsBack(Bits(l) ^ Bits(r));
  }

  lemma BitsBack(w: bv64)
    ensures Bits(Signed(w as int)) == w
  {
    SignedRest(w as int);
  }

  lemma SignedRest(x: int)
    requires 0 <= x < 0x1_0000_0000_0000_0000
    ensures Signed(x) % 0x1_0000_0000_0000_0000 == x
  {
  }

  // --- unary operators

  function UnaryResult(text: string, x: int): int
    requires UnaryOf(Operator(text)).Some?
  {
    ApplyUnary(UnaryOf(Operator(text)).value, x)
  }

  /** `-` is what adds up to zero, `~` what adds up to -1, and `+` does nothing. */
  lemma UnaryLaws(x: int)
    requires InRange(x)
    ensures Wrapped(UnaryResult("-", x), -x)
    ensures UnaryResult("~", x) + x == -1
    ensures UnaryResult("+", x) == x
  {
    SignedWraps(-x, Signed(-x));
    InRangeStays(-x - 1);
  }

  // --- how operators group

  /** The levels of the binary operators, the loosest first. */
  predicate OnLevel(i: nat, text: string) {
    match i
    case 0 => text == "||"
    case 1 => text == "&&"
    case 2 => text == "|"
    case 3 => text == "^"
    case 4 => text == "&"
    case 5 => text == "==" || text == "!="
    case 6 => text == "<" || text == "<=" || text == ">" || text == ">="
    case 7 => text == "<<" || text == ">>"
    case 8 => text == "+" || text == "-"
    case 9 => text == "*" || text == "/" || text == "%"
    case _ => false
  }

  lemma LevelOf(i: nat, text: string)
    requires OnLevel(i, text)
    ensures BinaryOf(Operator(text)).Some? && Text(BinaryOf(Operator(text)).value) == text
    ensures Precedence(BinaryOf(Operator(text)).value) == i + 1
  {
  }

  /** The tree of `l text r`. */
  function Joined(text: string, l: Expr, r: Expr): Expr
    requires BinaryOf(Operator(text)).Some?
  {
    Binary(BinaryOf(Operator(text)).value, l, r)
  }

  function Five(x: string, a: string, y: string, b: string, z: string): seq<Token> {
    [Name(x), Operator(a), Name(y), Operator(b), Name(z)]
  }

  /** In `x a y b z` the operator of the later level takes `y`, and of two of one level
      the left one. */
  lemma GroupsByTable(i: nat, j: nat, a: string, b: string, x: string, y: string, z: string, env: Env)
    requires OnLevel(i, a) && OnLevel(j, b) && Proper(Name(x)) && Proper(Name(y)) && Proper(Name(z))
    ensures BinaryOf(Operator(a)).Some? && BinaryOf(Operator(b)).Some?
    ensures AllProper(Five(x, a, y, b, z))
    ensures Evaluation(Spaced(Five(x, a, y, b, z)), env) ==
            Expected(Value(if i >= j then Joined(b, Joined(a, Variable(x), Variable(y)), Variable(z))
                           else Joined(a, Variable(x), Joined(b, Variable(y), Variable(z))), env), 5)
  {
    LevelOf(i, a);
    LevelOf(j, b);
    Groups(BinaryOf(Operator(a)).value, BinaryOf(Operator(b)).value, x, y, z, env);
  }

  // --- numbers

  /** The digit that stands for `n`, in lower or upper case. */
  function DigitOf(n: nat, upper: bool): char
    requires n < 16
  {
    (if upper then "0123456789ABCDEF" else "0123456789abcdef")[n]
  }

  /** A number written in this base. */
  function Written(n: nat, base: nat, upper: bool): string
    requires 2 <= base <= 16
  {
    if n < base then [DigitOf(n, upper)] else Written(n / base, base, upper) + [DigitOf(n % base, upper)]
  }

  lemma Smaller(n: nat, base: nat)
    requires 2 <= base <= n
    ensures n / base < n
  {
    Divides(n, base);
  }

  lemma DigitRead(n: nat, upper: bool)
    requires n < 16
    ensures HexDigit(DigitOf(n, upper)) && DigitValue(DigitOf(n, upper)) == n
    ensures n < 10 ==> Digit(DigitOf(n, upper))
  {
  }

  lemma {:induction false} WrittenReads(n: nat, base: nat, upper: bool)
    requires 2 <= base <= 16
    ensures Written(n, base, upper) != "" && InBase(Written(n, base, upper), base) == n
  {
    var w := Written(n, base, upper);
    if n < base {
      DigitRead(n, upper);
      assert w[..0] == "";
    } else {
      Divides(n, base);
      DigitRead(n % base, upper);
      Smaller(n, base);
      WrittenReads(n / base, base, upper);
      assert w[..|w| - 1] == Written(n / base, base, upper);
    }
  }

  lemma {:induction false} DecimalDigits(n: nat, upper: bool)
    ensures forall k :: 0 <= k < |Written(n, 10, upper)| ==> Digit(Written(n, 10, upper)[k])
  {
    if n < 10 {
      DigitRead(n, upper);
    } else {
      DigitRead(n % 10, upper);
      DecimalDigits(n / 10, upper);
    }
  }

  /** Every number is read back from its decimal and from its hexadecimal digits. */
  lemma NumbersRead(n: nat, upper: bool)
    ensures NumberOf(Written(n, 10, upper)) == Some(n)
    ensures NumberOf("0x" + Written(n, 16, upper)) == Some(n) && NumberOf("0X" + Written(n, 16, upper)) == Some(n)
  {
    WrittenReads(n, 10, upper);
    DecimalDigits(n, upper);
    WrittenReads(n, 16, upper);
    var h := Written(n, 16, upper);
    assert ("0x" + h)[2..] == h && ("0X" + h)[2..] == h;
  }
}
