/** The host's view of guest memory: the interface of the sparse memory over the
    hashed page table.  Reading makes no page, and neither does writing zeros. */
module HostMemory {
  import opened Frames
  import opened Ownership
  import opened GuestMemory
  import opened ImageCopying
  import opened RangeWork
  import opened SparseMemory

  lemma Within(a: nat, i: nat)
    requires a % 65536 + i < 65536
    ensures Key(a + i) == Key(a) && (a + i) % 65536 == a % 65536 + i
  {
    assert a == a / 65536 * 65536 + a % 65536;
    PlaceOf(a / 65536, a % 65536 + i);
  }

  lemma FrameByte(t: Table, c: Contents, base: nat, me: object, a: nat, frame: nat, i: nat)
    requires Coherent(t, c, base, me) && InFrame(t, base, Key(a), frame) && a % 65536 + i < 65536 && a + i < SPACE
    requires |t.mem| == SPACE
    ensures frame + a % 65536 + i < |c.bytes| && c.bytes[frame + a % 65536 + i] == t.mem[a + i]
  {
    Within(a, i);
    ByteInFrame(t, c, base, me, a + i, frame);
  }

  /** The bytes of a frame are those of its page. */
  lemma FrameBytes(t: Table, c: Contents, base: nat, me: object, a: nat, frame: nat, n: nat)
    requires Ownership.Folded(t, c, base, me, Ownership.FOLDS) && InFrame(t, base, Key(a), frame)
    requires a % 65536 + n <= 65536 && a + n <= SPACE && |t.mem| == SPACE && 0 < n
    ensures frame + a % 65536 + n <= |c.bytes| && c.bytes[frame + a % 65536..frame + a % 65536 + n] == t.mem[a..a + n]
  {
    Ownership.Unfold(t, c, base, me, Ownership.FOLDS);
    FrameByte(t, c, base, me, a, frame, n - 1);
    var p, q := c.bytes[frame + a % 65536..frame + a % 65536 + n], t.mem[a..a + n];
    forall i {:trigger p[i]} | 0 <= i < n ensures p[i] == q[i] { FrameByte(t, c, base, me, a, frame, i); }
  }

  /** An absent page reads as zeros. */
  lemma AbsentBytes(t: Table, c: Contents, base: nat, me: object, a: nat, n: nat)
    requires Ownership.Folded(t, c, base, me, Ownership.FOLDS) && Key(a) !in t.frameNo
    requires a % 65536 + n <= 65536 && a + n <= SPACE && |t.mem| == SPACE
    ensures t.mem[a..a + n] == Zeros(n)
  {
    Ownership.Unfold(t, c, base, me, Ownership.FOLDS);
    var q := t.mem[a..a + n];
    forall i {:trigger q[i]} | 0 <= i < n ensures q[i] == 0 {
      Within(a, i);
      AbsentReadsZero(t, c, base, me, a + i);
    }
  }

  ghost predicate Readables(g: GuestMemory, at: int, n: nat)
    requires 0 <= at
    reads g
  {
    forall a: nat {:trigger g.Readable(a)} :: at <= a < at + n ==> g.Readable(a)
  }

  predicate Inside(g: GuestMemory, at: int, n: nat)
    reads g
  {
    0 <= at && at + n <= g.top
  }

  method ReadPiece(g: GuestMemory, a: nat, n: nat) returns (part: seq<Byte>, ok: bool)
    requires g.Valid() && 0 < n && a % 65536 + n <= 65536 && a + n <= g.top
    ensures ok <==> g.Readable(a)
    ensures ok ==> part == g.view.mem[a..a + n]
  {
    Ownership.Unfold(g.view, g.arena.contents, g.arena.base, g, Ownership.FOLDS);
    var page := g.FindPage(a);
    match page {
      case Invalid => return [], false;
      case Unmapped =>
        AbsentBytes(g.view, g.arena.contents, g.arena.base, g, a, n);
        return Zeros(n), true;
      case Frame(at) =>
        FrameBytes(g.view, g.arena.contents, g.arena.base, g, a, at, n);
        return g.arena.bytes[at + a % 65536..at + a % 65536 + n], true;
    }
  }

  lemma PieceReadable(g: GuestMemory, a: nat, i: nat)
    requires a % 65536 + i < 65536 && a + i < g.top
    ensures g.Readable(a + i) <==> g.Readable(a)
  {
    Within(a, i);
  }

  lemma ReadablesMore(g: GuestMemory, at: nat, done: nat, size: nat)
    requires Readables(g, at, done) && g.Readable(at + done)
    requires (at + done) % 65536 + size <= 65536 && at + done + size <= g.top
    ensures Readables(g, at, done + size)
  {
    var a := at + done;
    forall b: nat {:trigger g.Readable(b)} | a <= b < a + size ensures g.Readable(b) { PieceReadable(g, a, b - a); }
  }

  /** Read bytes; this fails outside the memory and when a lookup fails. */
  method Read(g: GuestMemory, at: int, n: nat) returns (out: seq<Byte>, r: Status)
    requires g.Valid()
    ensures r == if !Inside(g, at, n) then Range else if Readables(g, at, n) then Ok else NoMemory
    ensures r == Ok ==> out == g.view.mem[at..at + n]
  {
    out := [];
    if !Inside(g, at, n) { return [], Range; }
    while |out| < n
      invariant |out| <= n && out == g.view.mem[at..at + |out|] && Readables(g, at, |out|)
    {
      var a, left := at + |out|, n - |out|;
      var size := if left < 65536 - a % 65536 then left else 65536 - a % 65536;
      var part, ok := ReadPiece(g, a, size);
      if !ok { return [], NoMemory; }
      ReadablesMore(g, at, |out|, size);
      out := out + part;
    }
    r := Ok;
  }

  /** Write a piece of the data into one page. */
  method WritePiece(g: GuestMemory, b: array<Byte>, p: nat, n: nat, a: nat) returns (ok: bool)
    requires g.Valid() && b != g.arena.bytes && p + n <= b.Length && 0 < n && a % 65536 + n <= 65536 && a + n <= g.top
    modifies g`view, g`pageCount, g.entries, g.arena`next, g.arena`contents, g.arena.bytes
    ensures g.Valid() && OnlyFor(old(g.arena.contents), g.arena.contents, g.arena.base, g, g.arena.imageTop)
    ensures g.view.mem == if ok then Written(old(g.view.mem), a, b[p..p + n]) else old(g.view.mem)
    ensures Extends(old(g.view), g.view) && (!ok ==> Key(a) !in g.view.frameNo)
  {
    OnlyForNothing(g.arena.contents, g.arena.base, g, g.arena.imageTop);
    ghost var x, c0 := b[p..p + n], g.arena.contents;
    var page := g.FindPage(a);
    if page == Unmapped && SomeNonzero(b[p..p + n]) {
      var made, _ := g.GuestPage(a);
      page := made;
    }
    match page {
      case Invalid => return false;
      case Unmapped =>
        AbsentBytes(g.view, g.arena.contents, g.arena.base, g, a, n);
        assert Written(g.view.mem, a, x) == g.view.mem;
      case Frame(at) =>
        ghost var c := g.arena.contents;
        PutSpan(g, at, Key(a), a % 65536, b, p, n, a);
        OnlyForTransitive(c0, c, g.arena.contents, g.arena.base, g, g.arena.imageTop);
    }
    ok := true;
  }

  /** Copy bytes into one frame. */
  method PutSpan(g: GuestMemory, frame: nat, ghost key: nat, offset: nat, b: array<Byte>, p: nat, n: nat, ghost at: nat)
    requires g.Valid() && InFrame(g.view, g.arena.base, key, frame) && at == Page(key) + offset
    requires b != g.arena.bytes && p + n <= b.Length && offset + n <= PAGE_SIZE
    modifies g`view, g.arena`contents, g.arena.bytes
    ensures g.Valid() && OnlyFor(old(g.arena.contents), g.arena.contents, g.arena.base, g, g.arena.imageTop)
    ensures g.view == old(g.view).Write(at, b[p..p + n])
  {
    WriteFolded(g.view, g.arena.contents, g.arena.base, g, g.arena.imageTop, key, frame, offset, b[p..p + n], at);
    g.arena.Receive(frame + offset, b, p, n);
    g.view := g.view.Write(at, b[p..p + n]);
  }

  /** What is written when the write stops at address `stop`. */
  ghost predicate PartWritten(m: seq<Byte>, now: seq<Byte>, at: nat, data: seq<Byte>, stop: nat) {
    at <= stop <= at + |data| && now == Written(m, at, data[..stop - at])
  }

  lemma PartDone(m: seq<Byte>, now: seq<Byte>, at: nat, data: seq<Byte>)
    requires PartWritten(m, now, at, data, at + |data|)
    ensures now == Written(m, at, data)
  {
    assert data[..|data|] == data;
  }

  lemma PartMore(m: seq<Byte>, r: seq<Byte>, now: seq<Byte>, at: nat, data: seq<Byte>, a: nat, size: nat)
    requires PartWritten(m, r, at, data, a) && a + size <= at + |data|
    requires now == Written(r, a, data[a - at..a - at + size])
    ensures PartWritten(m, now, at, data, a + size)
  {
    WrittenOn(m, at, data, a - at, size);
  }

  /** Write all the data.  When this stops, the page it stopped at is not there, and
      what comes before it is written. */
  method Write(g: GuestMemory, at: int, b: array<Byte>) returns (r: Status)
    requires g.Valid() && b != g.arena.bytes
    modifies g`view, g`pageCount, g.entries, g.arena`next, g.arena`contents, g.arena.bytes
    ensures g.Valid() && OnlyFor(old(g.arena.contents), g.arena.contents, g.arena.base, g, g.arena.imageTop)
    ensures r == Range <==> !Inside(g, at, b.Length)
    ensures r == Range ==> g.view == old(g.view)
    ensures Extends(old(g.view), g.view)
    ensures r == Ok ==> g.view.mem == Written(old(g.view.mem), at, b[..])
    ensures r == NoMemory ==>
      exists stop: nat :: stop < at + b.Length && Key(stop) !in g.view.frameNo &&
                          PartWritten(old(g.view.mem), g.view.mem, at, b[..], stop)
  {
    OnlyForNothing(g.arena.contents, g.arena.base, g, g.arena.imageTop);
    if !Inside(g, at, b.Length) { return Range; }
    ghost var m, c0, data := g.view.mem, g.arena.contents, b[..];
    var p := 0;
    assert Written(m, at, data[..0]) == m;
    while p < b.Length
      invariant 0 <= p <= b.Length && b[..] == data && Extends(old(g.view), g.view)
      invariant g.Valid() && OnlyFor(c0, g.arena.contents, g.arena.base, g, g.arena.imageTop)
      invariant PartWritten(m, g.view.mem, at, data, at + p)
    {
      var a, left := at + p, b.Length - p;
      var size := if left < 65536 - a % 65536 then left else 65536 - a % 65536;
      ghost var c, was := g.arena.contents, g.view.mem;
      var ok := WritePiece(g, b, p, size, a);
      OnlyForTransitive(c0, c, g.arena.contents, g.arena.base, g, g.arena.imageTop);
      if !ok { return NoMemory; }
      assert b[p..p + size] == data[p..p + size];
      PartMore(m, was, g.view.mem, at, data, a, size);
      p := p + size;
    }
    PartDone(m, g.view.mem, at, data);
    return Ok;
  }

  /** Zero what the range holds of one page; an absent page stays absent. */
  method DropPiece(g: GuestMemory, a: nat, n: nat) returns (ok: bool)
    requires g.Valid() && 0 < n && a % 65536 + n <= 65536 && a + n <= g.top
    modifies g`view, g.arena`contents, g.arena.bytes
    ensures g.Valid() && OnlyFor(old(g.arena.contents), g.arena.contents, g.arena.base, g, g.arena.imageTop)
    ensures ok == old(g.Readable(a))
    ensures g.view == if ok then old(g.view).Zero(a, a + n) else old(g.view)
  {
    OnlyForNothing(g.arena.contents, g.arena.base, g, g.arena.imageTop);
    Ownership.Unfold(g.view, g.arena.contents, g.arena.base, g, Ownership.FOLDS);
    var page := g.FindPage(a);
    match page {
      case Invalid => return false;
      case Unmapped =>
        AbsentBytes(g.view, g.arena.contents, g.arena.base, g, a, n);
        ZeroAlready(g.view.mem, a, n);
      case Frame(at) =>
        ClearSpan(g, at, Key(a), a % 65536, n, a);
    }
    ok := true;
  }

  lemma ZeroAlready(m: seq<Byte>, a: nat, n: nat)
    requires a + n <= |m| && m[a..a + n] == Zeros(n)
    ensures Zeroed(m, a, a + n) == m
  {
    forall b | a <= b < a + n ensures m[b] == 0 { assert m[b] == m[a..a + n][b - a]; }
  }

  /** Zero a range; this fails outside the memory and when a lookup fails. */
  method Drop(g: GuestMemory, at: int, n: nat) returns (r: Status)
    requires g.Valid()
    modifies g`view, g.arena`contents, g.arena.bytes
    ensures g.Valid() && OnlyFor(old(g.arena.contents), g.arena.contents, g.arena.base, g, g.arena.imageTop)
    ensures r == if !Inside(g, at, n) then Range else if old(Readables(g, at, n)) then Ok else NoMemory
    ensures r == Ok ==> g.view == old(g.view).Zero(at, at + n)
    ensures r == NoMemory ==>
      exists stop: nat :: at <= stop < at + n && g.view == old(g.view).Zero(at, stop)
  {
    OnlyForNothing(g.arena.contents, g.arena.base, g, g.arena.imageTop);
    if !Inside(g, at, n) { return Range; }
    ghost var t, c0 := g.view, g.arena.contents;
    var p := 0;
    assert t.Zero(at, at) == t;
    while p < n
      invariant 0 <= p <= n && g.view == t.Zero(at, at + p) && old(Readables(g, at, p))
      invariant g.Valid() && OnlyFor(c0, g.arena.contents, g.arena.base, g, g.arena.imageTop)
    {
      var a, left := at + p, n - p;
      var size := if left < 65536 - a % 65536 then left else 65536 - a % 65536;
      ghost var c := g.arena.contents;
      var ok := DropPiece(g, a, size);
      OnlyForTransitive(c0, c, g.arena.contents, g.arena.base, g, g.arena.imageTop);
      if !ok {
        assert !old(g.Readable(a)) && g.view == t.Zero(at, a);
        return NoMemory;
      }
      ZeroMore(t.mem, at, p, size);
      p := p + size;
    }
    return Ok;
  }
}
