/** The checksum of images and programs sees every change of one byte. */
module Checksums {
  import opened Frames
  import opened Words
  import opened VfsImages

  lemma {:induction false} XorZero(x: nat)
    ensures Xor(x, 0) == x
  {
    if x > 0 { XorZero(x / 2); }
  }

  lemma XorStep(x: nat, y: nat, r: nat)
    requires Xor(x / 2, y / 2) == r / 2 && (x + y) % 2 == r % 2
    ensures Xor(x, y) == r
  {
  }

  lemma XorHalf(x: nat, y: nat)
    ensures Xor(x, y) / 2 == Xor(x / 2, y / 2) && Xor(x, y) % 2 == (x + y) % 2
  {
  }

  lemma Parity(x: nat, y: nat, z: nat)
    requires z % 2 == (x + y) % 2
    ensures (z + y) % 2 == x % 2
  {
  }

  /** Exclusive or undoes itself. */
  lemma {:induction false} XorBack(x: nat, y: nat)
    ensures Xor(Xor(x, y), y) == x
    decreases x + y
  {
    if x > 0 || y > 0 {
      var z := Xor(x, y);
      XorBack(x / 2, y / 2);
      XorHalf(x, y);
      Parity(x, y, z);
      XorStep(z, y, x);
    }
  }

  lemma {:induction false} XorSame(x: nat, y: nat)
    ensures Xor(x, y) == Xor(y, x)
    decreases x + y
  {
    if x > 0 || y > 0 { XorSame(x / 2, y / 2); }
  }

  /** The prime is odd: multiplying by it keeps numbers apart, modulo two to the 32nd. */
  lemma MultipliedApart(x: nat, y: nat)
    requires x < 0x1_0000_0000 && y < 0x1_0000_0000 && x != y
    ensures x * 0x01000193 % 0x1_0000_0000 != y * 0x01000193 % 0x1_0000_0000
  {
    if x * 0x01000193 % 0x1_0000_0000 == y * 0x01000193 % 0x1_0000_0000 {
      Apart(x - y, x * 0x01000193 / 0x1_0000_0000 - y * 0x01000193 / 0x1_0000_0000);
    }
  }

  /** 0x359c449b is the inverse of the prime. */
  lemma Apart(d: int, j: int)
    requires d * 0x01000193 == 0x1_0000_0000 * j
    ensures d == 0x1_0000_0000 * (j * 0x359c449b - d * 3513497)
  {
  }

  lemma {:induction false} XorSmall(x: nat, y: nat, n: nat)
    requires x < Pow2(n) && y < Pow2(n)
    ensures Xor(x, y) < Pow2(n)
  {
    if n > 0 { XorSmall(x / 2, y / 2, n - 1); }
  }

  lemma PowerIs()
    ensures Pow2(32) == 0x1_0000_0000
  {
    assert Pow2(8) == 0x100;
    assert Pow2(16) == 0x1_0000;
    assert Pow2(24) == 0x100_0000;
  }

  /** One step of the hash: it differs when the hash before or the byte differs. */
  lemma StepDiffers(h: U32, g: U32, c: Byte, d: Byte)
    requires (h == g && c != d) || (h != g && c == d)
    ensures Xor(h, c as int) * 0x01000193 % 0x1_0000_0000 != Xor(g, d as int) * 0x01000193 % 0x1_0000_0000
  {
    PowerIs();
    XorSmall(h, c as int, 32);
    XorSmall(g, d as int, 32);
    XorBack(h, c as int);
    XorBack(g, d as int);
    XorSame(h, c as int);
    XorSame(g, d as int);
    XorBack(c as int, h);
    XorBack(d as int, g);
    MultipliedApart(Xor(h, c as int), Xor(g, d as int));
  }

  /** What differs at one place only. */
  ghost predicate OnlyAt(b: seq<Byte>, c: seq<Byte>, k: nat) {
    k < |b| == |c| && b[k] != c[k] && forall j :: 0 <= j < |b| && j != k ==> b[j] == c[j]
  }

  /** Changing one byte changes the hash. */
  lemma {:induction false} OneByteSeen(b: seq<Byte>, c: seq<Byte>, at: nat, n: nat, k: nat)
    requires OnlyAt(b, c, k) && at <= k < at + n <= |b|
    ensures Fnv(b, at, n) != Fnv(c, at, n)
  {
    if k == at + n - 1 {
      SameFnv(b, c, at, at, n - 1);
      StepDiffers(Fnv(b, at, n - 1), Fnv(c, at, n - 1), b[k], c[k]);
    } else {
      OneByteSeen(b, c, at, n - 1, k);
      StepDiffers(Fnv(b, at, n - 1), Fnv(c, at, n - 1), b[at + n - 1], c[at + n - 1]);
    }
  }

  /** A word changes with any of its bytes. */
  lemma WordChanges(b: seq<Byte>, c: seq<Byte>, at: nat, k: nat)
    requires OnlyAt(b, c, k) && at <= k < at + 4 <= |b|
    ensures Word(b, at) != Word(c, at)
  {
  }

  lemma WordStays(b: seq<Byte>, c: seq<Byte>, at: nat, k: nat)
    requires OnlyAt(b, c, k) && at + 4 <= |b| && !(at <= k < at + 4)
    ensures Word(b, at) == Word(c, at)
  {
  }

  /** When one byte behind the seal changes, the checksum fits no more; nor does it when
      a byte of the checksum itself changes. */
  lemma SumBreaks(b: seq<Byte>, c: seq<Byte>, sum: nat, at: nat, n: nat, k: nat)
    requires OnlyAt(b, c, k) && sum + 4 <= at && at + n <= |b| && Word(b, sum) == Fnv(b, at, n)
    requires sum <= k < sum + 4 || at <= k < at + n
    ensures Word(c, sum) != Fnv(c, at, n)
  {
    if k < sum + 4 {
      SameFnv(b, c, at, at, n);
      WordChanges(b, c, sum, k);
    } else {
      OneByteSeen(b, c, at, n, k);
      WordStays(b, c, sum, k);
    }
  }

  /** An image of which one byte behind the header was changed is refused. */
  lemma ChangedRefused(b: seq<Byte>, c: seq<Byte>, image: nat, length: nat, capacity: nat, k: nat)
    requires Decode(b, image, length, capacity).Done? && OnlyAt(b, c, k) && image + 32 <= k < image + length
    ensures Decode(c, image, length, capacity) == Failed(CHECKSUM)
  {
    OneByteSeen(b, c, image + HEADER, length - HEADER, k);
  }
}
