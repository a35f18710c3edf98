/** Little-endian words in a flat memory. */
module Words {
  import opened Frames

  type U32 = x: int | 0 <= x < 0x1_0000_0000
  type U64 = x: int | 0 <= x < 0x1_0000_0000_0000_0000

  function Pow256(n: nat): (r: nat)
    ensures r > 0
  {
    if n == 0 then 1 else 256 * Pow256(n - 1)
  }

  function Pow2(n: nat): nat {
    if n == 0 then 1 else 2 * Pow2(n - 1)
  }

  /** Byte number `i` of a value, the lowest first. */
  function ByteOf(value: nat, i: nat): Byte {
    if i == 0 then value % 256 else ByteOf(value / 256, i - 1)
  }

  /** The value of the `n` bytes at `a`. */
  ghost function Value(m: seq<Byte>, a: nat, n: nat): nat
    requires a + n <= |m|
    decreases n
  {
    if n == 0 then 0 else m[a] + 256 * Value(m, a + 1, n - 1)
  }

  /** The `n` bytes at `a` hold `value`. */
  ghost predicate Holds(m: seq<Byte>, a: nat, value: nat, n: nat) {
    a + n <= |m| && forall b {:trigger m[b]} :: a <= b < a + n ==> m[b] == ByteOf(value, b - a)
  }

  lemma {:induction false} ValueTop(m: seq<Byte>, a: nat, n: nat)
    requires a + n < |m|
    ensures Value(m, a, n + 1) == Value(m, a, n) + Pow256(n) * m[a + n]
    decreases n
  {
    if n > 0 {
      ValueTop(m, a + 1, n - 1);
      Regroup(Pow256(n - 1), m[a + n]);
    }
  }

  lemma Regroup(p: nat, b: nat)
    ensures 256 * (p * b) == 256 * p * b
  {
  }

  lemma ByteOfRest(value: nat, i: nat)
    requires i > 0
    ensures ByteOf(value, i) == ByteOf(value / 256, i - 1)
  {
  }

  /** What is left of a value when its low `n` bytes are taken off. */
  function Rest(value: nat, n: nat): nat {
    if n == 0 then value else Rest(value, n - 1) / 256
  }

  lemma {:induction false} RestShifts(value: nat, n: nat)
    ensures Rest(value, n + 1) == Rest(value / 256, n)
  {
    if n > 0 { RestShifts(value, n - 1); }
  }

  lemma {:induction false} RestByte(value: nat, n: nat)
    ensures Rest(value, n) % 256 == ByteOf(value, n)
  {
    if n > 0 {
      RestShifts(value, n - 1);
      RestByte(value / 256, n - 1);
    }
  }

  /** What is written is what is read back. */
  lemma {:induction false} WordRoundTrip(m: seq<Byte>, a: nat, value: nat, n: nat)
    requires Holds(m, a, value, n) && value < Pow256(n)
    ensures Value(m, a, n) == value
    decreases n
  {
    if n > 0 {
      forall b {:trigger m[b]} | a + 1 <= b < a + n ensures m[b] == ByteOf(value / 256, b - (a + 1)) {
        ByteOfRest(value, b - a);
      }
      WordRoundTrip(m, a + 1, value / 256, n - 1);
    }
  }

  ghost predicate ChangedWithin(m: seq<Byte>, r: seq<Byte>, low: nat, high: nat) {
    |r| == |m| && forall a {:trigger r[a]} :: 0 <= a < |m| && !(low <= a < high) ==> r[a] == m[a]
  }

  /** The low `n` bytes of a value are stored at `a`, and nothing else changed. */
  ghost predicate Deposited(m: seq<Byte>, r: seq<Byte>, a: nat, value: nat, n: nat) {
    Holds(r, a, value, n) && ChangedWithin(m, r, a, a + n)
  }

  lemma WrittenNext(m: seq<Byte>, r: seq<Byte>, s: seq<Byte>, a: nat, n: nat, byte: Byte)
    requires ChangedWithin(m, r, a, a + n) && a + n < |m| && s == Written(r, a + n, [byte])
    ensures ChangedWithin(m, s, a, a + n + 1)
    ensures s[a + n] == byte && forall b {:trigger s[b]} :: a <= b < a + n ==> s[b] == r[b]
  {
    forall b {:trigger s[b]} | 0 <= b < |m| && !(a <= b < a + n + 1) ensures s[b] == m[b] {
      assert r[b] == m[b];
    }
  }

  lemma DepositStep(m: seq<Byte>, r: seq<Byte>, s: seq<Byte>, a: nat, value: nat, n: nat)
    requires Deposited(m, r, a, value, n) && a + n < |m| && s == Written(r, a + n, [ByteOf(value, n)])
    ensures Deposited(m, s, a, value, n + 1)
  {
    WrittenNext(m, r, s, a, n, ByteOf(value, n));
    forall b {:trigger s[b]} | a <= b < a + (n + 1) ensures s[b] == ByteOf(value, b - a) {
      if b < a + n { assert s[b] == r[b]; } else { assert b - a == n; }
    }
  }
}
