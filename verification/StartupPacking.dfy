/** The host's side of the startup block: packing arguments and environment.
    The kernel accepts a packed block exactly when no string holds a zero byte
    and the counts are in range, and then reads the same strings back. */
module StartupPacking {
  import opened Frames
  import opened Words
  import opened Startups

  function Bytes4(n: nat): (r: seq<Byte>)
    ensures |r| == 4
  {
    [n % 256, n / 256 % 256, n / 256 / 256 % 256, n / 256 / 256 / 256 % 256]
  }

  ghost predicate BytesAt(b: seq<Byte>, at: nat, d: seq<Byte>) {
    at + |d| <= |b| && forall k {:trigger b[k]} :: at <= k < at + |d| ==> b[k] == d[k - at]
  }

  lemma BytesJoined(b: seq<Byte>, at: nat, d: seq<Byte>, e: seq<Byte>)
    requires BytesAt(b, at, d + e)
    ensures BytesAt(b, at, d) && BytesAt(b, at + |d|, e)
  {
    assert forall k :: 0 <= k < |d| ==> (d + e)[k] == d[k];
    assert forall k {:trigger b[k]} :: at + |d| <= k < at + |d| + |e| ==> (d + e)[k - at] == e[k - at - |d|];
  }

  lemma Bytes4Value(b: seq<Byte>, at: nat, n: U32)
    requires BytesAt(b, at, Bytes4(n))
    ensures Value(b, at, 4) == n
  {
    assert ByteOf(n, 1) == n / 256 % 256;
    assert ByteOf(n, 2) == ByteOf(n / 256, 1) == n / 256 / 256 % 256;
    assert ByteOf(n, 3) == ByteOf(n / 256, 2) == ByteOf(n / 256 / 256, 1) == n / 256 / 256 / 256 % 256;
    assert Pow256(4) == 256 * Pow256(3) && Pow256(3) == 256 * Pow256(2) && Pow256(2) == 65536;
    WordRoundTrip(b, at, n, 4);
  }

  /** The entries of the first `n` strings. */
  ghost function Packed(texts: seq<seq<Byte>>, n: nat): (r: seq<Byte>)
    requires n <= |texts|
    ensures |r| == Cursor(texts, 0, n)
  {
    if n == 0 then [] else Packed(texts, n - 1) + Bytes4(|texts[n - 1]|) + texts[n - 1]
  }

  ghost function Head(args: nat, env: nat, random: seq<Byte>): seq<Byte> {
    Bytes4(MAGIC) + Bytes4(args) + Bytes4(env) + Bytes4(0) + random
  }

  ghost function Block(args: seq<seq<Byte>>, env: seq<seq<Byte>>, random: seq<Byte>): seq<Byte> {
    Head(|args|, |env|, random) + Packed(env + args, |env + args|)
  }

  method PutU32(output: array<Byte>, at: nat, n: nat)
    requires at + 4 <= output.Length
    modifies output
    ensures output[at..at + 4] == Bytes4(n)
    ensures forall k :: 0 <= k < output.Length && !(at <= k < at + 4) ==> output[k] == old(output[k])
  {
    output[at], output[at + 1], output[at + 2], output[at + 3] := n % 256, n / 256 % 256, n / 256 / 256 % 256,
        n / 256 / 256 / 256 % 256;
  }

  method PutBytes(output: array<Byte>, at: nat, data: seq<Byte>)
    requires at + |data| <= output.Length
    modifies output
    ensures output[at..at + |data|] == data
    ensures forall k :: 0 <= k < output.Length && !(at <= k < at + |data|) ==> output[k] == old(output[k])
  {
    forall k | 0 <= k < |data| { output[at + k] := data[k]; }
  }

  lemma {:induction false} CursorShift(texts: seq<seq<Byte>>, base: nat, n: nat)
    requires n <= |texts|
    ensures Cursor(texts, base, n) == base + Cursor(texts, 0, n)
  {
    if n > 0 { CursorShift(texts, base, n - 1); }
  }

  lemma {:induction false} CursorGrows(texts: seq<seq<Byte>>, base: nat, m: nat, n: nat)
    requires m <= n <= |texts|
    ensures Cursor(texts, base, m) <= Cursor(texts, base, n)
    ensures m < n ==> Cursor(texts, base, m) + 4 + |texts[m]| <= Cursor(texts, base, n)
  {
    if m < n { CursorGrows(texts, base, m, n - 1); }
  }

  method PackHead(output: array<Byte>, args: nat, env: nat, random: seq<Byte>)
    requires |random| == 16 && output.Length >= 32 && forall k :: 0 <= k < output.Length ==> output[k] == 0
    modifies output
    ensures output[..32] == Head(args, env, random)
  {
    PutU32(output, 0, MAGIC);
    PutU32(output, 4, args);
    PutU32(output, 8, env);
    PutBytes(output, 16, random);
    assert output[12..16] == Bytes4(0);
    assert output[..32] == output[0..4] + output[4..8] + output[8..12] + output[12..16] + output[16..32];
  }

  method PackEntry(output: array<Byte>, at: nat, text: seq<Byte>)
    requires at + 4 + |text| <= output.Length
    modifies output
    ensures output[..at + 4 + |text|] == old(output[..at]) + Bytes4(|text|) + text
  {
    PutU32(output, at, |text|);
    PutBytes(output, at + 4, text);
    assert output[..at + 4 + |text|] == output[..at] + output[at..at + 4] + output[at + 4..at + 4 + |text|];
    assert output[..at] == old(output[..at]);
    assert output[at..at + 4] == Bytes4(|text|);
  }

  method Pack(args: seq<seq<Byte>>, env: seq<seq<Byte>>, random: seq<Byte>) returns (output: array<Byte>, ok: bool)
    requires |random| == 16
    ensures ok <==> |Block(args, env, random)| <= 0x7fff_ffff
    ensures ok ==> output[..] == Block(args, env, random)
  {
    var texts := env + args;
    var size, i := 32, 0;
    while i < |texts|
      invariant 0 <= i <= |texts| && size == 32 + Cursor(texts, 0, i)
    {
      size := size + 4 + |texts[i]|;
      i := i + 1;
    }
    if size > 0x7fff_ffff { return new Byte[0], false; }
    output, ok := new Byte[size](_ => 0), true;
    PackHead(output, |args|, |env|, random);
    var at := 32;
    i := 0;
    ghost var head := Head(|args|, |env|, random);
    while i < |texts|
      invariant 0 <= i <= |texts| && at == 32 + Cursor(texts, 0, i) <= size == output.Length
      invariant output[..at] == head + Packed(texts, i)
    {
      CursorGrows(texts, 0, i, |texts|);
      PackEntry(output, at, texts[i]);
      assert head + Packed(texts, i + 1) == head + Packed(texts, i) + Bytes4(|texts[i]|) + texts[i];
      at := at + 4 + |texts[i]|;
      i := i + 1;
    }
    assert output[..at] == output[..];
  }

  // --- the kernel reads what the host packed

  ghost predicate NoZero(text: seq<Byte>) {
    forall k :: 0 <= k < |text| ==> text[k] != 0
  }

  lemma {:induction false} PackedEntry(b: seq<Byte>, at: nat, texts: seq<seq<Byte>>, n: nat, i: nat)
    requires i < n <= |texts| && BytesAt(b, at, Packed(texts, n))
    ensures BytesAt(b, Cursor(texts, at, i), Bytes4(|texts[i]|)) && BytesAt(b, Cursor(texts, at, i) + 4, texts[i])
  {
    var last := texts[n - 1];
    BytesJoined(b, at, Packed(texts, n - 1) + Bytes4(|last|), last);
    BytesJoined(b, at, Packed(texts, n - 1), Bytes4(|last|));
    CursorShift(texts, at, n - 1);
    if i < n - 1 { PackedEntry(b, at, texts, n - 1, i); }
  }

  /** The block lies in `b` at `at`. */
  ghost predicate BlockAt(b: seq<Byte>, at: nat, args: seq<seq<Byte>>, env: seq<seq<Byte>>, random: seq<Byte>) {
    |random| == 16 && |Block(args, env, random)| <= 0x7fff_ffff && BytesAt(b, at, Block(args, env, random))
  }

  lemma EntryRead(b: seq<Byte>, at: nat, texts: seq<seq<Byte>>, i: nat)
    requires BytesAt(b, at, Packed(texts, |texts|)) && i < |texts| && |texts[i]| < 0x1_0000_0000
    ensures BytesAt(b, Cursor(texts, at, i) + 4, texts[i])
    ensures Value(b, Cursor(texts, at, i), 4) == |texts[i]| && Text(b, Cursor(texts, at, i)) == texts[i]
  {
    PackedEntry(b, at, texts, |texts|, i);
    Bytes4Value(b, Cursor(texts, at, i), |texts[i]|);
  }

  /** Every entry holds its string. */
  lemma {:induction false} PackedSplit(b: seq<Byte>, at: nat, texts: seq<seq<Byte>>, n: nat)
    requires BytesAt(b, at, Packed(texts, |texts|)) && n <= |texts|
    requires forall i :: 0 <= i < |texts| ==> |texts[i]| < 0x1_0000_0000
    ensures Split(b, at, texts, n)
  {
    if n > 0 {
      PackedSplit(b, at, texts, n - 1);
      EntryRead(b, at, texts, n - 1);
    }
  }

  /** Reading the entries in order gives the strings in order. */
  lemma {:induction false} StringsRead(b: seq<Byte>, at: nat, texts: seq<seq<Byte>>, n: nat)
    requires n <= |texts| && Split(b, at, texts, n)
    ensures Texts(b, at, n) == texts[..n]
  {
    if n > 0 {
      StringsRead(b, at, texts, n - 1);
      CursorPrefix(texts[..n - 1], texts, at, n - 1);
      assert texts[..n] == texts[..n - 1] + [texts[n - 1]];
    }
  }

  lemma HeadRead(b: seq<Byte>, at: nat, args: U32, env: U32, random: seq<Byte>)
    requires BytesAt(b, at, Head(args, env, random)) && |random| == 16
    ensures Value(b, at, 4) == MAGIC && Value(b, at + 4, 4) == args && Value(b, at + 8, 4) == env &&
            BytesAt(b, at + 16, random)
  {
    BytesJoined(b, at, Bytes4(MAGIC) + Bytes4(args) + Bytes4(env) + Bytes4(0), random);
    BytesJoined(b, at, Bytes4(MAGIC) + Bytes4(args) + Bytes4(env), Bytes4(0));
    BytesJoined(b, at, Bytes4(MAGIC) + Bytes4(args), Bytes4(env));
    BytesJoined(b, at, Bytes4(MAGIC), Bytes4(args));
    Bytes4Value(b, at, MAGIC);
    Bytes4Value(b, at + 4, args);
    Bytes4Value(b, at + 8, env);
  }

  lemma GoodExactly(b: seq<Byte>, at: nat, texts: seq<seq<Byte>>, i: nat, end: nat)
    requires BytesAt(b, at, Packed(texts, |texts|)) && i < |texts| && |texts[i]| < 0x1_0000_0000
    requires end == Cursor(texts, at, |texts|) <= |b|
    ensures GoodEntry(b, Cursor(texts, at, i), end) <==> NoZero(texts[i])
  {
    EntryStands(b, at, texts, i, Cursor(texts, at, i), end);
    GoodText(b, Cursor(texts, at, i), texts[i], end);
  }

  lemma EntryStands(b: seq<Byte>, at: nat, texts: seq<seq<Byte>>, i: nat, c: nat, end: nat)
    requires BytesAt(b, at, Packed(texts, |texts|)) && i < |texts| && |texts[i]| < 0x1_0000_0000
    requires c == Cursor(texts, at, i) && end == Cursor(texts, at, |texts|)
    ensures BytesAt(b, c + 4, texts[i]) && c + 4 + |texts[i]| <= end && c + 4 <= |b|
    ensures Value(b, c, 4) == |texts[i]|
  {
    PackedEntry(b, at, texts, |texts|, i);
    Bytes4Value(b, c, |texts[i]|);
    CursorGrows(texts, at, i, |texts|);
  }

  /** An entry is good when it ends in time and its string has no zero byte. */
  lemma GoodText(b: seq<Byte>, c: nat, t: seq<Byte>, end: nat)
    requires BytesAt(b, c + 4, t) && c + 4 + |t| <= end <= |b| && Value(b, c, 4) == |t|
    ensures GoodEntry(b, c, end) <==> NoZero(t)
  {
    if GoodEntry(b, c, end) {
      forall k | 0 <= k < |t| ensures t[k] != 0 { assert b[c + 4 + k] != 0; }
    }
    if NoZero(t) {
      forall k {:trigger b[k]} | c + 4 <= k < c + 4 + |t| ensures b[k] != 0 { assert t[k - c - 4] != 0; }
    }
  }

  /** The kernel reads the strings the host packed. */
  lemma BlockRead(b: seq<Byte>, at: nat, args: seq<seq<Byte>>, env: seq<seq<Byte>>, random: seq<Byte>)
    requires BlockAt(b, at, args, env, random)
    ensures Value(b, at, 4) == MAGIC && Argc(b, at) == |args| && Envc(b, at) == |env|
    ensures Strings(b, at) == env + args && BytesAt(b, at + 16, random)
    ensures BytesAt(b, at + 32, Packed(env + args, |env + args|))
    ensures forall i :: 0 <= i < |env + args| ==> |(env + args)[i]| < 0x1_0000_0000
  {
    var texts, head, n := env + args, Head(|args|, |env|, random), |env| + |args|;
    BytesJoined(b, at, head, Packed(texts, |texts|));
    forall i | 0 <= i < |texts| ensures |texts[i]| < 0x1_0000_0000 { Sizes(texts, |texts|, i); }
    CountSmall(texts, |texts|);
    HeadRead(b, at, |args|, |env|, random);
    assert Texts(b, at + 32, n) == texts by {
      PackedSplit(b, at + 32, texts, n);
      StringsRead(b, at + 32, texts, n);
      assert texts[..n] == texts;
    }
    StringsAre(b, at, n, env + args);
  }

  lemma StringsAre(b: seq<Byte>, at: nat, n: nat, texts: seq<seq<Byte>>)
    requires at + 32 <= |b| && Argc(b, at) + Envc(b, at) == n && Texts(b, at + 32, n) == texts
    ensures Strings(b, at) == texts
  {
  }

  /** The kernel accepts a packed block exactly when the counts are in range and
      no string holds a zero byte. */
  lemma BlockAccepted(b: seq<Byte>, at: nat, args: seq<seq<Byte>>, env: seq<seq<Byte>>, random: seq<Byte>)
    requires BlockAt(b, at, args, env, random)
    ensures WellFormed(b, at, |Block(args, env, random)|) <==>
      1 <= |args| <= 4096 && |env| <= 8192 && forall i :: 0 <= i < |env + args| ==> NoZero((env + args)[i])
  {
    BlockRead(b, at, args, env, random);
    var texts, end := Strings(b, at), at + |Block(args, env, random)|;
    CursorShift(texts, at + 32, |texts|);
    GoodAll(b, at + 32, texts, end, |texts|);
  }

  lemma {:induction false} GoodAll(b: seq<Byte>, at: nat, texts: seq<seq<Byte>>, end: nat, n: nat)
    requires BytesAt(b, at, Packed(texts, |texts|)) && forall i :: 0 <= i < |texts| ==> |texts[i]| < 0x1_0000_0000
    requires end == Cursor(texts, at, |texts|) <= |b| && n <= |texts|
    ensures GoodEntries(b, at, end, texts, n) <==> forall i :: 0 <= i < n ==> NoZero(texts[i])
  {
    if n > 0 {
      GoodAll(b, at, texts, end, n - 1);
      GoodExactly(b, at, texts, n - 1, end);
    }
  }

  lemma {:induction false} Sizes(texts: seq<seq<Byte>>, n: nat, i: nat)
    requires i < n <= |texts|
    ensures |texts[i]| + n <= Cursor(texts, 0, n)
  {
    if i < n - 1 { Sizes(texts, n - 1, i); } else { CountSmall(texts, n - 1); }
  }

  lemma {:induction false} CountSmall(texts: seq<seq<Byte>>, n: nat)
    requires n <= |texts|
    ensures n <= Cursor(texts, 0, n)
  {
    if n > 0 { CountSmall(texts, n - 1); }
  }
}
