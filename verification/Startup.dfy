/** The startup block: the argument and environment strings as the host packs
    them, and the reading of the block. */
module Startups {
  import opened Frames
  import opened Words
  import opened GuestMemory

  const MAGIC := 0x31545354

  // --- reading entries

  /** How long the string of the entry at `at` is, if it fits into `b`. */
  ghost function Length(b: seq<Byte>, at: nat): nat {
    if at + 4 <= |b| && at + 4 + Value(b, at, 4) <= |b| then Value(b, at, 4) else 0
  }

  /** The bytes of the string whose entry is at `at`. */
  ghost function Text(b: seq<Byte>, at: nat): (r: seq<Byte>)
    ensures |r| == Length(b, at) && forall k {:trigger r[k]} :: 0 <= k < |r| ==> r[k] == b[at + 4 + k]
  {
    seq(Length(b, at), k requires 0 <= k < Length(b, at) => b[at + 4 + k])
  }

  /** A length and so many bytes before `end`, none of them zero. */
  ghost predicate GoodEntry(b: seq<Byte>, at: nat, end: nat) {
    && at + 4 <= end <= |b| && at + 4 + Value(b, at, 4) <= end
    && forall k {:trigger b[k]} :: at + 4 <= k < at + 4 + Value(b, at, 4) ==> b[k] != 0
  }

  /** Where the entry of string `i` starts, the strings before it being known. */
  ghost function Cursor(texts: seq<seq<Byte>>, base: nat, i: nat): nat
    requires i <= |texts|
  {
    if i == 0 then base else Cursor(texts, base, i - 1) + 4 + |texts[i - 1]|
  }

  /** Bytes the first `n` strings need with their terminators. */
  ghost function Total(texts: seq<seq<Byte>>, n: nat): nat
    requires n <= |texts|
  {
    if n == 0 then 0 else Total(texts, n - 1) + |texts[n - 1]| + 1
  }

  /** The strings of the first `n` entries. */
  ghost function Texts(b: seq<Byte>, base: nat, n: nat): (r: seq<seq<Byte>>)
    ensures |r| == n
  {
    if n == 0 then [] else var t := Texts(b, base, n - 1); t + [Text(b, Cursor(t, base, n - 1))]
  }

  lemma {:induction false} CursorPrefix(texts: seq<seq<Byte>>, more: seq<seq<Byte>>, base: nat, i: nat)
    requires i <= |texts| && texts <= more
    ensures Cursor(texts, base, i) == Cursor(more, base, i)
  {
    if i > 0 { CursorPrefix(texts, more, base, i - 1); }
  }

  /** Each of the first `n` strings is the one its entry holds. */
  ghost predicate Split(b: seq<Byte>, base: nat, texts: seq<seq<Byte>>, n: nat)
    requires n <= |texts|
  {
    n == 0 || (Split(b, base, texts, n - 1) && texts[n - 1] == Text(b, Cursor(texts, base, n - 1)))
  }

  lemma {:induction false} SplitGives(b: seq<Byte>, base: nat, texts: seq<seq<Byte>>, n: nat, i: nat)
    requires i < n <= |texts| && Split(b, base, texts, n)
    ensures texts[i] == Text(b, Cursor(texts, base, i))
  {
    if i < n - 1 { SplitGives(b, base, texts, n - 1, i); }
  }

  lemma {:induction false} TextsSplit(b: seq<Byte>, base: nat, texts: seq<seq<Byte>>, n: nat)
    requires n <= |texts| && Texts(b, base, n) <= texts
    ensures Split(b, base, texts, n)
  {
    if n > 0 {
      var t := Texts(b, base, n - 1);
      assert Texts(b, base, n) == t + [Text(b, Cursor(t, base, n - 1))];
      assert t <= texts;
      TextsSplit(b, base, texts, n - 1);
      CursorPrefix(t, texts, base, n - 1);
      assert texts[n - 1] == Texts(b, base, n)[n - 1];
    }
  }

  lemma {:induction false} TotalGrows(texts: seq<seq<Byte>>, m: nat, n: nat)
    requires m <= n <= |texts|
    ensures Total(texts, m) + (n - m) <= Total(texts, n)
  {
    if m < n { TotalGrows(texts, m, n - 1); }
  }

  /** The first `n` entries are good. */
  ghost predicate GoodEntries(b: seq<Byte>, base: nat, end: nat, texts: seq<seq<Byte>>, n: nat)
    requires n <= |texts|
  {
    n == 0 || (GoodEntries(b, base, end, texts, n - 1) && GoodEntry(b, Cursor(texts, base, n - 1), end))
  }

  lemma {:induction false} GoodGives(b: seq<Byte>, base: nat, end: nat, texts: seq<seq<Byte>>, n: nat, i: nat)
    requires i < n <= |texts| && GoodEntries(b, base, end, texts, n)
    ensures GoodEntry(b, Cursor(texts, base, i), end)
  {
    if i < n - 1 { GoodGives(b, base, end, texts, n - 1, i); }
  }

  ghost function Argc(b: seq<Byte>, at: nat): nat
    requires at + 32 <= |b|
  {
    Value(b, at + 4, 4)
  }

  ghost function Envc(b: seq<Byte>, at: nat): nat
    requires at + 32 <= |b|
  {
    Value(b, at + 8, 4)
  }

  ghost function Strings(b: seq<Byte>, at: nat): seq<seq<Byte>>
    requires at + 32 <= |b|
  {
    Texts(b, at + 32, Argc(b, at) + Envc(b, at))
  }

  /** Environment strings first, then arguments, up to the end of the block. */
  ghost predicate WellFormed(b: seq<Byte>, at: nat, length: nat) {
    && 32 <= length && at + length <= |b| && Value(b, at, 4) == MAGIC
    && 1 <= Argc(b, at) <= 4096 && Envc(b, at) <= 8192
    && GoodEntries(b, at + 32, at + length, Strings(b, at), |Strings(b, at)|)
    && Cursor(Strings(b, at), at + 32, |Strings(b, at)|) == at + length
  }

  function LoadU32(arena: Arena, at: nat): nat
    requires at + 4 <= arena.bytes.Length
    reads arena, arena.bytes
  {
    var b := arena.bytes;
    b[at] as int + 0x100 * b[at + 1] as int + 0x10000 * b[at + 2] as int + 0x1000000 * b[at + 3] as int
  }

  lemma LoadIsValue(arena: Arena, at: nat)
    requires arena.Valid() && at + 4 <= |arena.contents.bytes|
    ensures LoadU32(arena, at) == Value(arena.contents.bytes, at, 4)
  {
    var b := arena.contents.bytes;
    assert Value(b, at + 3, 1) == b[at + 3];
    assert Value(b, at + 2, 2) == b[at + 2] as int + 0x100 * b[at + 3] as int;
    assert Value(b, at + 1, 3) == b[at + 1] as int + 0x100 * b[at + 2] as int + 0x10000 * b[at + 3] as int;
  }

  /** Words of equal bytes are equal. */
  lemma {:induction false} SameValue(b: seq<Byte>, d: seq<Byte>, at: nat, n: nat)
    requires at + n <= |b| == |d| && forall k :: at <= k < at + n ==> b[k] == d[k]
    ensures Value(b, at, n) == Value(d, at, n)
    decreases n
  {
    if n > 0 { SameValue(b, d, at + 1, n - 1); }
  }

  /** Read the entry at `at`: where its string ends and how long it is. */
  method StartupEntry(arena: Arena, ghost b: seq<Byte>, at: nat, end: nat) returns (next: nat, length: nat, ok: bool)
    requires arena.Valid() && at <= end <= |arena.contents.bytes| == |b|
    requires forall k :: at <= k < end ==> arena.contents.bytes[k] == b[k]
    ensures ok <==> GoodEntry(b, at, end)
    ensures ok ==> length == |Text(b, at)| && next == at + 4 + length
  {
    if end - at < 4 { return 0, 0, false; }
    LoadIsValue(arena, at);
    SameValue(arena.contents.bytes, b, at, 4);
    length := LoadU32(arena, at);
    if length > end - at - 4 { return 0, 0, false; }
    var index := 0;
    while index < length
      invariant 0 <= index <= length
      invariant forall k {:trigger b[k]} :: at + 4 <= k < at + 4 + index ==> b[k] != 0
    {
      assert arena.contents.bytes[at + 4 + index] == b[at + 4 + index];
      if arena.bytes[at + 4 + index] == 0 { return 0, 0, false; }
      index := index + 1;
    }
    next, ok := at + 4 + length, true;
  }
}
