/** 64-bit and 32-bit multiply, divide and remainder: the 32-bit-limb forms the
    kernel uses, the big-integer forms of the reference machine, and the
    instruction set's own rules. */
module WideWords {
  import opened Words

  type I64 = x: int | -0x8000_0000_0000_0000 <= x < 0x8000_0000_0000_0000

  /** Operations work on whole words or on their low halves. */
  type Bits = b: int | b == 32 || b == 64 witness 64

  /** The value modulo the word size, unsigned. */
  function Ux(value: int, bits: Bits): U64 {
    if bits == 32 then value % 0x1_0000_0000 else value % 0x1_0000_0000_0000_0000
  }

  function Half(bits: Bits): nat {
    if bits == 32 then 0x8000_0000 else 0x8000_0000_0000_0000
  }

  /** The least signed value. */
  function Least(bits: Bits): I64 {
    if bits == 32 then -0x8000_0000 else -0x8000_0000_0000_0000
  }

  /** The value modulo the word size, signed. */
  function Sx(value: int, bits: Bits): I64 {
    var u: int := Ux(value, bits);
    if u < Half(bits) then u else u - 2 * Half(bits)
  }

  /** Division rounding toward zero, and its remainder. */
  function Quotient(a: int, b: int): int
    requires b != 0
  {
    if a >= 0 then a / b else -(-a / b)
  }

  function Remainder(a: int, b: int): int
    requires b != 0
  {
    if a >= 0 then a % b else -(-a % b)
  }

  // --- the kernel's forms

  function MulHighUnsigned(left: U64, right: U64): U64 {
    var a0, a1 := left % 0x1_0000_0000, left / 0x1_0000_0000;
    var b0, b1 := right % 0x1_0000_0000, right / 0x1_0000_0000;
    var first := a0 * b0;
    var second := a1 * b0 + first / 0x1_0000_0000;
    var third := a0 * b1 + second % 0x1_0000_0000;
    Ux(a1 * b1 + second / 0x1_0000_0000 + third / 0x1_0000_0000, 64)
  }

  function MulHighSigned(left: I64, right: I64): I64 {
    var high := MulHighUnsigned(Ux(left, 64), Ux(right, 64));
    var high' := if left < 0 then Ux(high - Ux(right, 64), 64) else high;
    Sx(if right < 0 then Ux(high' - Ux(left, 64), 64) else high', 64)
  }

  function MulHighSignedUnsigned(left: I64, right: U64): I64 {
    var high := MulHighUnsigned(Ux(left, 64), right);
    Sx(if left < 0 then Ux(high - right, 64) else high, 64)
  }

  function DivSigned(left: I64, right: I64, bits: Bits): I64 {
    var a, b := Sx(left, bits), Sx(right, bits);
    if b == 0 then -1
    else if a == Least(bits) && b == -1 then a
    else Sx(Quotient(a, b), bits)
  }

  function DivUnsigned(left: U64, right: U64, bits: Bits): U64 {
    var a, b := Ux(left, bits), Ux(right, bits);
    if b == 0 then (if bits == 32 then 0xffff_ffff else 0xffff_ffff_ffff_ffff) else Ux(Quotient(a, b), bits)
  }

  function RemSigned(left: I64, right: I64, bits: Bits): I64 {
    var a, b := Sx(left, bits), Sx(right, bits);
    if b == 0 then a
    else if a == Least(bits) && b == -1 then 0
    else Sx(Remainder(a, b), bits)
  }

  function RemUnsigned(left: U64, right: U64, bits: Bits): U64 {
    var a, b := Ux(left, bits), Ux(right, bits);
    if b == 0 then a else Ux(Remainder(a, b), bits)
  }

  // --- the high word of the product

  lemma Monotone(a: int, b: int, c: int)
    requires a <= b && 0 <= c
    ensures a * c <= b * c
  {
    assert (b - a) * c >= 0;
  }

  lemma LimbProduct(a: nat, b: nat)
    requires a < 0x1_0000_0000 && b < 0x1_0000_0000
    ensures 0 <= a * b <= 0xffff_fffe_0000_0001
  {
    Monotone(0, a, b);
    Monotone(a, 0xffff_ffff, b);
  }

  /** The product of two words in terms of the products of their limbs. */
  lemma Limbs(left: U64, right: U64, a0: nat, a1: nat, b0: nat, b1: nat)
    requires left == a0 + 0x1_0000_0000 * a1 && right == b0 + 0x1_0000_0000 * b1
    ensures left * right == a0 * b0 + 0x1_0000_0000 * (a1 * b0 + a0 * b1) + 0x1_0000_0000_0000_0000 * (a1 * b1)
  {
    assert left * right == a0 * b0 + 0x1_0000_0000 * a1 * b0 + a0 * (0x1_0000_0000 * b1)
      + 0x1_0000_0000 * a1 * (0x1_0000_0000 * b1);
  }

  /** Adding up the four limb products carries exactly into the high word. */
  lemma Carries(p: nat, q: nat, r: nat, s: nat, second: nat, third: nat)
    requires second == q + p / 0x1_0000_0000 && third == r + second % 0x1_0000_0000
    ensures (p + 0x1_0000_0000 * (q + r) + 0x1_0000_0000_0000_0000 * s) / 0x1_0000_0000_0000_0000
      == s + second / 0x1_0000_0000 + third / 0x1_0000_0000
  {
    var low := 0x1_0000_0000 * (third % 0x1_0000_0000) + p % 0x1_0000_0000;
    assert 0x1_0000_0000 * (q + r) + p == 0x1_0000_0000 * (second + r) + p % 0x1_0000_0000;
    assert second + r == 0x1_0000_0000 * (second / 0x1_0000_0000) + third;
    assert p + 0x1_0000_0000 * (q + r) + 0x1_0000_0000_0000_0000 * s ==
      0x1_0000_0000_0000_0000 * (s + second / 0x1_0000_0000 + third / 0x1_0000_0000) + low;
    assert 0 <= low < 0x1_0000_0000_0000_0000;
  }

  /** The limb form gives the high word of the 128-bit product. */
  lemma HighWord(left: U64, right: U64)
    ensures MulHighUnsigned(left, right) == left * right / 0x1_0000_0000_0000_0000
  {
    var a0, a1 := left % 0x1_0000_0000, left / 0x1_0000_0000;
    var b0, b1 := right % 0x1_0000_0000, right / 0x1_0000_0000;
    Limbs(left, right, a0, a1, b0, b1);
    var p, q, r, s := a0 * b0, a1 * b0, a0 * b1, a1 * b1;
    var second := q + p / 0x1_0000_0000;
    var third := r + second % 0x1_0000_0000;
    Carries(p, q, r, s, second, third);
    HighForm(left, right, p, q, r, s, second, third);
    HighFits(left, right, s + second / 0x1_0000_0000 + third / 0x1_0000_0000);
  }

  lemma HighForm(left: U64, right: U64, p: nat, q: nat, r: nat, s: nat, second: nat, third: nat)
    requires p == left % 0x1_0000_0000 * (right % 0x1_0000_0000) && q == left / 0x1_0000_0000 * (right % 0x1_0000_0000)
    requires r == left % 0x1_0000_0000 * (right / 0x1_0000_0000) && s == left / 0x1_0000_0000 * (right / 0x1_0000_0000)
    requires second == q + p / 0x1_0000_0000 && third == r + second % 0x1_0000_0000
    ensures MulHighUnsigned(left, right) == Ux(s + second / 0x1_0000_0000 + third / 0x1_0000_0000, 64)
  {
  }

  lemma HighFits(left: U64, right: U64, high: nat)
    requires high == left * right / 0x1_0000_0000_0000_0000
    ensures Ux(high, 64) == high
  {
    MulGrows(left, right, 0xffff_ffff_ffff_ffff);
    SmallHigh(left * right, high);
  }

  lemma MulGrows(a: nat, b: nat, c: nat)
    requires b <= c
    ensures 0 <= a * b <= a * c
  {
  }

  lemma SmallHigh(p: nat, high: nat)
    requires p <= 0xffff_ffff_ffff_ffff * 0xffff_ffff_ffff_ffff && high == p / 0x1_0000_0000_0000_0000
    ensures Ux(high, 64) == high
  {
  }

  /** No value computed on the way reaches 2^64, so nothing wraps. */
  lemma NothingWraps(left: U64, right: U64)
    ensures var a0, a1 := left % 0x1_0000_0000, left / 0x1_0000_0000;
            var b0, b1 := right % 0x1_0000_0000, right / 0x1_0000_0000;
            var second := a1 * b0 + a0 * b0 / 0x1_0000_0000;
            var third := a0 * b1 + second % 0x1_0000_0000;
            && 0 <= a0 * b0 < 0x1_0000_0000_0000_0000
            && 0 <= second < 0x1_0000_0000_0000_0000
            && 0 <= third < 0x1_0000_0000_0000_0000
            && 0 <= a1 * b1 + second / 0x1_0000_0000 + third / 0x1_0000_0000 < 0x1_0000_0000_0000_0000
  {
    var a0, a1, b0, b1 := left % 0x1_0000_0000, left / 0x1_0000_0000, right % 0x1_0000_0000, right / 0x1_0000_0000;
    LimbProduct(a0, b0);
    LimbProduct(a1, b0);
    LimbProduct(a0, b1);
    LimbProduct(a1, b1);
  }

  /** The product of the unsigned readings of two words. */
  lemma UnsignedProduct(left: int, right: int, addLeft: bool, addRight: bool)
    ensures var l := if addLeft then left + 0x1_0000_0000_0000_0000 else left;
            var r := if addRight then right + 0x1_0000_0000_0000_0000 else right;
            l * r == left * right + 0x1_0000_0000_0000_0000 *
              ((if addLeft then right else 0) + (if addRight then left else 0)
               + if addLeft && addRight then 0x1_0000_0000_0000_0000 else 0)
  {
    if addLeft {
      assert (left + 0x1_0000_0000_0000_0000) * right == left * right + 0x1_0000_0000_0000_0000 * right;
    }
    if addRight {
      assert left * (right + 0x1_0000_0000_0000_0000) == left * right + 0x1_0000_0000_0000_0000 * left;
    }
    if addLeft && addRight {
      assert (left + 0x1_0000_0000_0000_0000) * (right + 0x1_0000_0000_0000_0000) ==
        left * right + 0x1_0000_0000_0000_0000 * right + 0x1_0000_0000_0000_0000 * left
        + 0x1_0000_0000_0000_0000 * 0x1_0000_0000_0000_0000;
    }
  }

  lemma SmallProduct(left: int, right: int)
    requires -0x8000_0000_0000_0000 <= left < 0x8000_0000_0000_0000
    requires -0x8000_0000_0000_0000 <= right < 0x1_0000_0000_0000_0000
    ensures -0x8000_0000_0000_0000 <= left * right / 0x1_0000_0000_0000_0000 < 0x8000_0000_0000_0000
  {
    if right >= 0 {
      Monotone(-0x8000_0000_0000_0000, left, right);
      Monotone(left, 0x7fff_ffff_ffff_ffff, right);
    } else {
      Monotone(-0x8000_0000_0000_0000, left, -right);
      Monotone(left, 0x7fff_ffff_ffff_ffff, -right);
      assert left * -right == -(left * right);
    }
  }

  /** Taking back what the unsigned reading added leaves the signed high word. */
  lemma Corrected(left: I64, right: int, high: int, q: I64)
    requires -0x8000_0000_0000_0000 <= right < 0x1_0000_0000_0000_0000
    requires high == q + (if left < 0 then right else 0) + (if right < 0 then left else 0)
      + (if left < 0 && right < 0 then 0x1_0000_0000_0000_0000 else 0)
    ensures var high' := if left < 0 then Ux(high - Ux(right, 64), 64) else Ux(high, 64);
            Sx(if right < 0 then Ux(high' - Ux(left, 64), 64) else high', 64) == q
  {
    var w := if left < 0 then high - Ux(right, 64) else high;
    UxIs(w);
    if right < 0 {
      UxSigned(left);
      UxSigned(right);
      var z := Ux(w, 64) - Ux(left, 64);
      UxIs(z);
      SxAgain(Ux(z, 64), -(w / 0x1_0000_0000_0000_0000) - (if left < 0 then 1 else 0) - z / 0x1_0000_0000_0000_0000, q);
    } else {
      SxAgain(Ux(w, 64), -(w / 0x1_0000_0000_0000_0000), q);
    }
  }

  lemma UxSigned(value: I64)
    ensures Ux(value, 64) == if value < 0 then value + 0x1_0000_0000_0000_0000 else value
  {
  }

  lemma UxIs(value: int)
    ensures Ux(value, 64) == value - 0x1_0000_0000_0000_0000 * (value / 0x1_0000_0000_0000_0000)
  {
  }

  lemma SxAgain(value: int, k: int, q: I64)
    requires value == q + 0x1_0000_0000_0000_0000 * k
    ensures Sx(value, 64) == q
  {
  }

  /** The high word of a product of the unsigned readings `l` and `r`. */
  lemma UnsignedHigh(left: I64, right: int, l: int, r: int, q: int)
    requires -0x8000_0000_0000_0000 <= right < 0x1_0000_0000_0000_0000 && q == left * right / 0x1_0000_0000_0000_0000
    requires l == if left < 0 then left + 0x1_0000_0000_0000_0000 else left
    requires r == if right < 0 then right + 0x1_0000_0000_0000_0000 else right
    ensures l * r / 0x1_0000_0000_0000_0000 == q + (if left < 0 then right else 0) + (if right < 0 then left else 0)
      + (if left < 0 && right < 0 then 0x1_0000_0000_0000_0000 else 0)
    ensures -0x8000_0000_0000_0000 <= q < 0x8000_0000_0000_0000
  {
    UnsignedProduct(left, right, left < 0, right < 0);
    var k := (if left < 0 then right else 0) + (if right < 0 then left else 0)
      + if left < 0 && right < 0 then 0x1_0000_0000_0000_0000 else 0;
    FloorShift(left * right, l * r, k);
    SmallProduct(left, right);
  }

  lemma FloorShift(product: int, other: int, k: int)
    requires other == product + 0x1_0000_0000_0000_0000 * k
    ensures other / 0x1_0000_0000_0000_0000 == product / 0x1_0000_0000_0000_0000 + k
  {
  }

  lemma LimbHigh(left: I64, right: int, q: int)
    requires -0x8000_0000_0000_0000 <= right < 0x1_0000_0000_0000_0000 && q == left * right / 0x1_0000_0000_0000_0000
    ensures MulHighUnsigned(Ux(left, 64), Ux(right, 64)) == q + (if left < 0 then right else 0) +
            (if right < 0 then left else 0)
      + (if left < 0 && right < 0 then 0x1_0000_0000_0000_0000 else 0)
    ensures -0x8000_0000_0000_0000 <= q < 0x8000_0000_0000_0000
  {
    HighWord(Ux(left, 64), Ux(right, 64));
    UnsignedHigh(left, right, Ux(left, 64), Ux(right, 64), q);
  }

  /** The high word of a signed product is the floor of the product. */
  lemma HighWordSigned(left: I64, right: I64)
    ensures MulHighSigned(left, right) == left * right / 0x1_0000_0000_0000_0000
  {
    var q, high := left * right / 0x1_0000_0000_0000_0000, MulHighUnsigned(Ux(left, 64), Ux(right, 64));
    LimbHigh(left, right, q);
    Corrected(left, right, high, q);
    UxSmall(high, 64);
  }

  lemma HighWordMixed(left: I64, right: U64)
    ensures MulHighSignedUnsigned(left, right) == left * right / 0x1_0000_0000_0000_0000
  {
    var q, high := left * right / 0x1_0000_0000_0000_0000, MulHighUnsigned(Ux(left, 64), right);
    UxSmall(right, 64);
    LimbHigh(left, right, q);
    Corrected(left, right, high, q);
    UxSmall(high, 64);
  }

  // --- quotients and remainders

  lemma QuotientBound(a: int, b: int)
    requires b != 0
    ensures if a >= 0 then -a <= Quotient(a, b) <= a else a <= Quotient(a, b) <= -a
    ensures b > 0 && a >= 0 ==> Quotient(a, b) >= 0
    ensures b == -1 ==> Quotient(a, b) == -a
  {
    NatQuotient(if a >= 0 then a else -a, b);
  }

  lemma RemainderBound(a: int, b: int)
    requires b != 0
    ensures if a >= 0 then 0 <= Remainder(a, b) <= a else a <= Remainder(a, b) <= 0
    ensures b > 0 ==> -b < Remainder(a, b) < b
    ensures b < 0 ==> b < Remainder(a, b) < -b
    ensures b == -1 ==> Remainder(a, b) == 0
  {
    NatQuotient(if a >= 0 then a else -a, b);
  }

  lemma NatQuotient(n: nat, b: int)
    requires b != 0
    ensures if b > 0 then 0 <= n / b <= n && n % b < b else n + n / b >= 0 && n / b <= 0 && n % b + b < 0
    ensures 0 <= n % b <= n
    ensures b == -1 ==> n / b + n == 0
  {
    var q, size := if b > 0 then n / b else -(n / b), if b > 0 then b else -b;
    assert n == size * q + n % b by { assert n == b * (n / b) + n % b; }
    assert 0 <= n % b < size;
    if q < 0 { Monotone(q, -1, size); } else { Monotone(1, size, q); }
  }

  lemma Parts(a: int, b: int)
    requires b != 0
    ensures a == b * Quotient(a, b) + Remainder(a, b)
  {
    if a < 0 {
      assert -a == b * (-a / b) + -a % b;
      assert b * -(-a / b) == -(b * (-a / b));
    }
  }

  /** A quotient leaves the signed range only when the least value is divided by -1. */
  lemma QuotientFits(a: int, b: int, half: int)
    requires b != 0 && -half <= a < half && (a != -half || b != -1) && half > 1
    ensures -half <= Quotient(a, b) < half
  {
    QuotientBound(a, b);
    if a == -half && b < -1 {
      Parts(a, b);
      RemainderBound(a, b);
      Monotone(2, -b, half);
      assert -b * Quotient(a, b) == half + Remainder(a, b);
    }
  }

  lemma SxSmall(value: int, bits: Bits)
    requires Least(bits) <= value < Half(bits)
    ensures Sx(value, bits) == value
  {
  }

  lemma UxSmall(value: int, bits: Bits)
    requires 0 <= value < 2 * Half(bits)
    ensures Ux(value, bits) == value
  {
  }

  /** The signed forms: truncation to `bits` changes nothing. */
  lemma SignedForms(left: I64, right: I64, bits: Bits, a: int, b: int)
    requires a == Sx(left, bits) && b == Sx(right, bits) && b != 0 && (a != Least(bits) || b != -1)
    ensures DivSigned(left, right, bits) == Quotient(a, b) && RemSigned(left, right, bits) == Remainder(a, b)
    ensures Least(bits) <= Quotient(a, b) < Half(bits) && Least(bits) <= Remainder(a, b) < Half(bits)
  {
    QuotientFits(a, b, Half(bits));
    RemainderBound(a, b);
    SxSmall(Quotient(a, b), bits);
    SxSmall(Remainder(a, b), bits);
  }

  lemma UnsignedForms(left: U64, right: U64, bits: Bits, a: int, b: int)
    requires a == Ux(left, bits) && b == Ux(right, bits) && b != 0
    ensures DivUnsigned(left, right, bits) == Quotient(a, b) && RemUnsigned(left, right, bits) == Remainder(a, b)
    ensures 0 <= Quotient(a, b) < 2 * Half(bits) && 0 <= Remainder(a, b) < 2 * Half(bits)
  {
    QuotientBound(a, b);
    RemainderBound(a, b);
    UxSmall(Quotient(a, b), bits);
    UxSmall(Remainder(a, b), bits);
  }

  // --- the reference machine

  /** Writing a register keeps 64 bits. */
  function Kept(value: int): I64 {
    Sx(value, 64)
  }

  function ReferenceDiv(a: int, b: int, unsigned: bool, bits: Bits): int {
    if b == 0 then (if unsigned then 2 * Half(bits) - 1 else -1)
    else if !unsigned && a == Least(bits) && b == -1 then Least(bits)
    else Quotient(a, b)
  }

  function ReferenceRem(a: int, b: int, unsigned: bool): int {
    if b == 0 then a
    else if !unsigned && a == Least(64) && b == -1 then 0
    else Remainder(a, b)
  }

  datatype Operation = Mul | MulH | MulHSU | MulHU | Div | DivU | Rem | RemU

  function Reference(op: Operation, a: I64, b: I64): I64 {
    match op
    case Mul => Kept(a * b)
    case MulH => Kept(a * b / 0x1_0000_0000_0000_0000)
    case MulHSU => Kept(a * Ux(b, 64) / 0x1_0000_0000_0000_0000)
    case MulHU => Kept(Ux(a, 64) * Ux(b, 64) / 0x1_0000_0000_0000_0000)
    case Div => Kept(ReferenceDiv(a, b, false, 64))
    case DivU => Kept(ReferenceDiv(Ux(a, 64), Ux(b, 64), true, 64))
    case Rem => Kept(ReferenceRem(a, b, false))
    case RemU => Kept(ReferenceRem(Ux(a, 64), Ux(b, 64), true))
  }

  function Operated(op: Operation, a: I64, b: I64): I64 {
    match op
    case Mul => Kept(a * b)
    case MulH => Kept(MulHighSigned(a, b))
    case MulHSU => Kept(MulHighSignedUnsigned(a, Ux(b, 64)))
    case MulHU => Kept(MulHighUnsigned(Ux(a, 64), Ux(b, 64)))
    case Div => Kept(DivSigned(a, b, 64))
    case DivU => Kept(DivUnsigned(Ux(a, 64), Ux(b, 64), 64))
    case Rem => Kept(RemSigned(a, b, 64))
    case RemU => Kept(RemUnsigned(Ux(a, 64), Ux(b, 64), 64))
  }

  /** The kernel and the reference machine compute the same register. */
  lemma SameAsReference(op: Operation, a: I64, b: I64)
    ensures Operated(op, a, b) == Reference(op, a, b)
  {
    SxSmall(a, 64);
    SxSmall(b, 64);
    match op {
      case MulH => HighWordSigned(a, b);
      case MulHSU => HighWordMixed(a, Ux(b, 64));
      case MulHU => HighWord(Ux(a, 64), Ux(b, 64));
      case Div => if b != 0 && (a != Least(64) || b != -1) { SignedForms(a, b, 64, a, b); }
      case DivU => DivUAgrees(a, b);
      case Rem => if b != 0 && (a != Least(64) || b != -1) { SignedForms(a, b, 64, a, b); }
      case RemU => DivUAgrees(a, b);
      case Mul =>
    }
  }

  lemma DivUAgrees(a: I64, b: I64)
    ensures DivUnsigned(Ux(a, 64), Ux(b, 64), 64) == ReferenceDiv(Ux(a, 64), Ux(b, 64), true, 64)
    ensures RemUnsigned(Ux(a, 64), Ux(b, 64), 64) == ReferenceRem(Ux(a, 64), Ux(b, 64), true)
  {
    UxSmall(Ux(a, 64), 64);
    UxSmall(Ux(b, 64), 64);
    if Ux(b, 64) != 0 { UnsignedForms(Ux(a, 64), Ux(b, 64), 64, Ux(a, 64), Ux(b, 64)); }
  }

  datatype WordOperation = MulW | DivW | DivUW | RemW | RemUW

  function ReferenceWord(op: WordOperation, a: I64, b: I64): I64 {
    match op
    case MulW => Sx(Sx(a, 32) * Sx(b, 32), 32)
    case DivW => Sx(ReferenceDiv(Sx(a, 32), Sx(b, 32), false, 64), 32)
    case DivUW => Sx(ReferenceDiv(Ux(a, 32), Ux(b, 32), true, 32), 32)
    case RemW => Sx(ReferenceRem(Sx(a, 32), Sx(b, 32), false), 32)
    case RemUW => Sx(ReferenceRem(Ux(a, 32), Ux(b, 32), true), 32)
  }

  function OperatedWord(op: WordOperation, a: I64, b: I64): I64 {
    match op
    case MulW => Sx(Sx(a, 32) * Sx(b, 32), 32)
    case DivW => Sx(DivSigned(a, b, 32), 32)
    case DivUW => Sx(DivUnsigned(Ux(a, 32), Ux(b, 32), 32), 32)
    case RemW => Sx(RemSigned(a, b, 32), 32)
    case RemUW => Sx(RemUnsigned(Ux(a, 32), Ux(b, 32), 32), 32)
  }

  /** The word forms agree too, although the reference machine's signed division
      looks for the overflow of a whole word only. */
  lemma SameAsReferenceWord(op: WordOperation, a: I64, b: I64)
    ensures OperatedWord(op, a, b) == ReferenceWord(op, a, b)
  {
    match op {
      case DivW => SignedWordAgrees(a, b);
      case RemW => SignedWordAgrees(a, b);
      case DivUW => UnsignedWordAgrees(a, b);
      case RemUW => UnsignedWordAgrees(a, b);
      case MulW =>
    }
  }

  lemma SignedWordAgrees(a: I64, b: I64)
    ensures Sx(DivSigned(a, b, 32), 32) == Sx(ReferenceDiv(Sx(a, 32), Sx(b, 32), false, 64), 32)
    ensures RemSigned(a, b, 32) == ReferenceRem(Sx(a, 32), Sx(b, 32), false)
  {
    var x, y := Sx(a, 32), Sx(b, 32);
    if y == 0 {
    } else if x == Least(32) && y == -1 {
      QuotientBound(x, y);
      RemainderBound(x, y);
    } else {
      SignedForms(a, b, 32, x, y);
    }
  }

  lemma UnsignedWordAgrees(a: I64, b: I64)
    ensures DivUnsigned(Ux(a, 32), Ux(b, 32), 32) == ReferenceDiv(Ux(a, 32), Ux(b, 32), true, 32)
    ensures RemUnsigned(Ux(a, 32), Ux(b, 32), 32) == ReferenceRem(Ux(a, 32), Ux(b, 32), true)
  {
    UxSmall(Ux(a, 32), 32);
    UxSmall(Ux(b, 32), 32);
    if Ux(b, 32) != 0 { UnsignedForms(Ux(a, 32), Ux(b, 32), 32, Ux(a, 32), Ux(b, 32)); }
  }

  // --- the instruction set's rules for division

  /** `q` and `r` are the quotient, rounded toward zero, and the remainder, which
      takes the dividend's sign. */
  ghost predicate Divides(a: int, b: int, q: int, r: int) {
    && a == b * q + r
    && (if b > 0 then -b < r < b else b < r < -b)
    && (if a >= 0 then r >= 0 else r <= 0)
  }

  lemma QuotientDivides(a: int, b: int)
    requires b != 0
    ensures Divides(a, b, Quotient(a, b), Remainder(a, b))
  {
    Parts(a, b);
    RemainderBound(a, b);
  }

  /** Section 7.2 of the RISC-V unprivileged specification: a zero divisor gives
      all ones and the dividend, signed overflow the dividend and zero, and every
      other pair the quotient and the remainder. */
  lemma SignedRules(left: I64, right: I64, bits: Bits)
    ensures var a, b, q, r := Sx(left, bits), Sx(right, bits), DivSigned(left, right, bits),
            RemSigned(left, right, bits);
            if b == 0 then q == -1 && r == a
            else if a == Least(bits) && b == -1 then q == a && r == 0
            else Divides(a, b, q, r)
  {
    var a, b := Sx(left, bits), Sx(right, bits);
    if b != 0 && (a != Least(bits) || b != -1) {
      SignedForms(left, right, bits, a, b);
      QuotientDivides(a, b);
    }
  }

  lemma UnsignedRules(left: U64, right: U64, bits: Bits)
    ensures var a, b, q, r := Ux(left, bits), Ux(right, bits), DivUnsigned(left, right, bits),
            RemUnsigned(left, right, bits);
            if b == 0 then q == 2 * Half(bits) - 1 && r == a else Divides(a, b, q, r)
  {
    var a, b := Ux(left, bits), Ux(right, bits);
    if b != 0 {
      UnsignedForms(left, right, bits, a, b);
      QuotientDivides(a, b);
    }
  }

  /** The rules leave no choice. */
  lemma DividesOnce(a: int, b: int, q: int, r: int, q': int, r': int)
    requires b != 0 && Divides(a, b, q, r) && Divides(a, b, q', r')
    ensures q == q' && r == r'
  {
    assert b * (q - q') == r' - r;
    var size := if b > 0 then b else -b;
    assert -size < r' - r < size;
    if q > q' {
      Monotone(1, q - q', size);
    } else if q < q' {
      Monotone(1, q' - q, size);
    }
  }
}
