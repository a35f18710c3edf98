/** Bringing bytes of the live image reservation into guest memory, page by
    page, and clearing guest pages. */
module ImageCopying {
  import opened Frames
  import opened Ownership
  import opened GuestMemory
  import opened Words

  lemma WriteMore(m: seq<Byte>, at: nat, data: seq<Byte>, n: nat)
    requires n < |data|
    ensures Written(Written(m, at, data[..n]), at + n, [data[n]]) == Written(m, at, data[..n + 1])
  {
  }

  /** `m` after the first `n` bytes of the data were copied to `at`. */
  ghost function Brought(m: seq<Byte>, at: nat, data: seq<Byte>, n: nat): seq<Byte>
    requires n <= |data|
  {
    if n == 0 then m else Written(Brought(m, at, data, n - 1), at + n - 1, [data[n - 1]])
  }

  lemma {:induction false} BroughtIs(m: seq<Byte>, at: nat, data: seq<Byte>, n: nat)
    requires n <= |data|
    ensures Brought(m, at, data, n) == Written(m, at, data[..n])
  {
    if n > 0 {
      BroughtIs(m, at, data, n - 1);
      WriteMore(m, at, data, n - 1);
    }
  }

  lemma BringMore(m: seq<Byte>, at: nat, data: seq<Byte>, n: nat, k: nat)
    requires n + k <= |data|
    ensures Written(Brought(m, at, data, n), at + n, data[n..n + k]) == Brought(m, at, data, n + k)
  {
    BroughtIs(m, at, data, n);
    BroughtIs(m, at, data, n + k);
  }

  /** A partial copy changes nothing outside the target. */
  lemma PartlyBrought(m: seq<Byte>, at: nat, data: seq<Byte>, n: nat)
    requires n <= |data|
    ensures ChangedWithin(m, Brought(m, at, data, n), at, at + |data|)
    ensures n == |data| ==> Brought(m, at, data, n) == Written(m, at, data)
  {
    BroughtIs(m, at, data, n);
    assert n == |data| ==> data[..n] == data;
  }

  lemma ZeroMore(m: seq<Byte>, low: nat, n: nat, k: nat)
    ensures Zeroed(Zeroed(m, low, low + n), low + n, low + n + k) == Zeroed(m, low, low + n + k)
  {
  }

  ghost predicate PartlyZeroed(m: seq<Byte>, r: seq<Byte>, low: nat, high: nat) {
    |r| == |m| && forall a {:trigger r[a]} :: 0 <= a < |m| ==> r[a] == m[a] || (low <= a < high && r[a] == 0)
  }

  /** Guest work leaves the bytes of the image reservation as they were. */
  lemma SourceUntouched(c: Contents, d: Contents, base: nat, owner: object, top: nat, source: nat, length: nat, n: nat,
                        k: nat)
    requires OnlyFor(c, d, base, owner, top) && top <= source && source + length <= |c.bytes| && n + k <= length
    ensures source + n + k <= |d.bytes| &&
            d.bytes[source + n..source + n + k] == c.bytes[source..source + length][n..n + k]
  {
  }

  /** The data lies in `bytes` at `source`. */
  ghost predicate LiesIn(data: seq<Byte>, bytes: seq<Byte>, source: nat) {
    source + |data| <= |bytes| && forall k {:trigger data[k]} :: 0 <= k < |data| ==> data[k] == bytes[source + k]
  }

  /** The next piece of the data is still where it was. */
  lemma NextPiece(c: Contents, d: Contents, base: nat, owner: object, top: nat, source: nat, data: seq<Byte>, n: nat,
                  k: nat, piece: seq<Byte>)
    requires OnlyFor(c, d, base, owner, top) && top <= source && LiesIn(data, c.bytes, source) && n + k <= |data|
    requires piece == data[n..n + k]
    ensures |piece| == k && LiesIn(piece, d.bytes, source + n)
  {
    forall i | 0 <= i < k ensures piece[i] == d.bytes[source + n + i] {
      assert piece[i] == data[n + i];
    }
  }

  /** Make every page of a range present. */
  method Writable(g: GuestMemory, address: nat, size: nat) returns (ok: bool)
    requires g.Valid()
    modifies g`view, g`pageCount, g.entries, g.arena`next, g.arena`contents, g.arena.bytes
    ensures g.Valid() && OnlyFor(old(g.arena.contents), g.arena.contents, g.arena.base, g, g.arena.imageTop)
    ensures g.view.mem == old(g.view.mem)
    ensures ok ==> address < g.top && size <= g.top - address
  {
    OnlyForNothing(g.arena.contents, g.arena.base, g, g.arena.imageTop);
    if address >= g.top || size > g.top - address { return false; }
    var offset := 0;
    while offset < size
      invariant 0 <= offset <= size
      invariant g.Valid() && OnlyFor(old(g.arena.contents), g.arena.contents, g.arena.base, g, g.arena.imageTop)
      invariant g.view.mem == old(g.view.mem)
    {
      ghost var c := g.arena.contents;
      var _, present := g.NeedPage(address + offset);
      OnlyForTransitive(old(g.arena.contents), c, g.arena.contents, g.arena.base, g, g.arena.imageTop);
      if !present { return false; }
      var left := PAGE_SIZE - (address + offset) % 65536;
      offset := offset + if left < size - offset then left else size - offset;
    }
    return true;
  }

  /** Copy image bytes into one frame, byte by byte. */
  method LoadSpan(g: GuestMemory, frame: nat, ghost key: nat, within: nat, source: nat, amount: nat, ghost at: nat,
                  ghost data: seq<Byte>)
    requires g.Valid() && InFrame(g.view, g.arena.base, key, frame) && within + amount <= PAGE_SIZE &&
             at == Page(key) + within
    requires g.arena.imageTop <= source && |data| == amount && LiesIn(data, g.arena.contents.bytes, source)
    modifies g`view, g.arena`contents, g.arena.bytes
    ensures g.Valid() && OnlyFor(old(g.arena.contents), g.arena.contents, g.arena.base, g, g.arena.imageTop)
    ensures g.view == old(g.view).Write(at, data)
  {
    ghost var t, c0 := g.view, g.arena.contents;
    OnlyForNothing(c0, g.arena.base, g, g.arena.imageTop);
    var offset := 0;
    assert t.Write(at, data[..0]) == t;
    while offset < amount
      invariant 0 <= offset <= amount
      invariant g.Valid() && OnlyFor(c0, g.arena.contents, g.arena.base, g, g.arena.imageTop)
      invariant g.view == t.Write(at, data[..offset])
    {
      ghost var c := g.arena.contents;
      assert c.bytes[source + offset] == data[offset];
      var byte := g.arena.bytes[source + offset];
      g.PutByte(frame, key, within + offset, byte, at + offset);
      WriteMore(t.mem, at, data, offset);
      OnlyForTransitive(c0, c, g.arena.contents, g.arena.base, g, g.arena.imageTop);
      offset := offset + 1;
    }
    assert data[..amount] == data;
  }

  /** Copy image bytes to a guest address. */
  method CopyIn(g: GuestMemory, destination: nat, source: nat, length: nat, ghost data: seq<Byte>) returns (ok: bool)
    requires g.Valid() && g.arena.imageTop <= source && source + length <= |g.arena.contents.bytes|
    requires data == g.arena.contents.bytes[source..source + length]
    modifies g`view, g`pageCount, g.entries, g.arena`next, g.arena`contents, g.arena.bytes
    ensures g.Valid() && OnlyFor(old(g.arena.contents), g.arena.contents, g.arena.base, g, g.arena.imageTop)
    ensures ok ==> g.view.mem == Written(old(g.view.mem), destination, data) &&
                   (length > 0 ==> destination + length <= g.top)
    ensures ChangedWithin(old(g.view.mem), g.view.mem, destination, destination + length)
  {
    ghost var m, c0 := g.view.mem, g.arena.contents;
    OnlyForNothing(c0, g.arena.base, g, g.arena.imageTop);
    ok := true;
    if length > 0 { ok := Writable(g, destination, length); }
    if !ok { return false; }
    ghost var copied;
    ok, copied := CopyParts(g, c0, destination, source, length, data);
    PartlyBrought(m, destination, data, copied);
  }

  /** Copy part after part, until all is copied or a page is not there. */
  method CopyParts(g: GuestMemory, ghost c0: Contents, destination: nat, source: nat, length: nat,
                   ghost data: seq<Byte>) returns (ok: bool, ghost copied: nat)
    requires g.Valid() && OnlyFor(c0, g.arena.contents, g.arena.base, g, g.arena.imageTop)
    requires g.arena.imageTop <= source && |data| == length && LiesIn(data, c0.bytes, source)
    modifies g`view, g.arena`contents, g.arena.bytes
    ensures g.Valid() && OnlyFor(c0, g.arena.contents, g.arena.base, g, g.arena.imageTop)
    ensures copied <= length && (ok ==> copied == length) &&
            g.view.mem == Brought(old(g.view.mem), destination, data, copied)
  {
    ghost var m := g.view.mem;
    copied := 0;
    var n := 0;
    while n < length
      invariant 0 <= n <= length && copied == n
      invariant g.Valid() && OnlyFor(c0, g.arena.contents, g.arena.base, g, g.arena.imageTop)
      invariant g.view.mem == Brought(m, destination, data, n)
    {
      var part, done := CopyPart(g, c0, destination, source, length, data, n);
      if !done { return false, n; }
      BringMore(m, destination, data, n, part);
      n := n + part;
      copied := n;
    }
    ok := true;
  }

  /** Copy the next bytes of the payload into a page that is there. */
  method CopyPiece(g: GuestMemory, ghost c0: Contents, frame: nat, within: nat, ghost guest: nat, source: nat,
                   ghost data: seq<Byte>, copied: nat, part: nat)
    requires g.Valid() && OnlyFor(c0, g.arena.contents, g.arena.base, g, g.arena.imageTop)
    requires InFrame(g.view, g.arena.base, Key(guest), frame) && within + part <= PAGE_SIZE
    requires guest == Page(Key(guest)) + within
    requires g.arena.imageTop <= source && copied + part <= |data| && LiesIn(data, c0.bytes, source)
    modifies g`view, g.arena`contents, g.arena.bytes
    ensures g.Valid() && OnlyFor(c0, g.arena.contents, g.arena.base, g, g.arena.imageTop)
    ensures g.view == old(g.view).Write(guest, data[copied..copied + part])
  {
    ghost var c, piece := g.arena.contents, data[copied..copied + part];
    NextPiece(c0, c, g.arena.base, g, g.arena.imageTop, source, data, copied, part, piece);
    LoadSpan(g, frame, Key(guest), within, source + copied, part, guest, piece);
    OnlyForTransitive(c0, c, g.arena.contents, g.arena.base, g, g.arena.imageTop);
  }

  /** Copy as much of the rest as fits the next guest page. */
  method CopyPart(g: GuestMemory, ghost c0: Contents, destination: nat, source: nat, length: nat,
                  ghost data: seq<Byte>, copied: nat) returns (part: nat, ok: bool)
    requires g.Valid() && OnlyFor(c0, g.arena.contents, g.arena.base, g, g.arena.imageTop)
    requires g.arena.imageTop <= source && copied < length == |data| && LiesIn(data, c0.bytes, source)
    modifies g`view, g.arena`contents, g.arena.bytes
    ensures g.Valid() && OnlyFor(c0, g.arena.contents, g.arena.base, g, g.arena.imageTop)
    ensures ok ==> 0 < part <= length - copied &&
                   g.view == old(g.view).Write(destination + copied, data[copied..copied + part])
    ensures !ok ==> g.view == old(g.view)
  {
    var guest := destination + copied;
    var page := g.FindPage(guest);
    if !page.Frame? { return 0, false; }
    var within, remaining := guest % 65536, length - copied;
    var room := PAGE_SIZE - within;
    part := if room < remaining then room else remaining;
    CopyPiece(g, c0, page.at, within, guest, source, data, copied, part);
    ok := true;
  }

  /** Zero bytes of one frame. */
  method ClearSpan(g: GuestMemory, frame: nat, ghost key: nat, within: nat, amount: nat, ghost at: nat)
    requires g.Valid() && InFrame(g.view, g.arena.base, key, frame) && within + amount <= PAGE_SIZE &&
             at == Page(key) + within
    modifies g`view, g.arena`contents, g.arena.bytes
    ensures g.Valid() && OnlyFor(old(g.arena.contents), g.arena.contents, g.arena.base, g, g.arena.imageTop)
    ensures g.view == old(g.view).Zero(at, at + amount)
  {
    ZeroFolded(g.view, g.arena.contents, g.arena.base, g, g.arena.imageTop, key, frame, within, amount, at);
    g.arena.Fill(frame + within, amount);
    g.view := g.view.Zero(at, at + amount);
  }

  /** Make the pages of a range present and zero it. */
  method Prepare(g: GuestMemory, start: nat, length: nat) returns (ok: bool)
    requires g.Valid()
    modifies g`view, g`pageCount, g.entries, g.arena`next, g.arena`contents, g.arena.bytes
    ensures g.Valid() && OnlyFor(old(g.arena.contents), g.arena.contents, g.arena.base, g, g.arena.imageTop)
    ensures ok ==> g.view.mem == Zeroed(old(g.view.mem), start, start + length)
    ensures !ok ==> PartlyZeroed(old(g.view.mem), g.view.mem, start, start + length)
  {
    ghost var m, c0 := g.view.mem, g.arena.contents;
    ok := Writable(g, start, length);
    if !ok { return false; }
    var cleared := 0;
    while cleared < length
      invariant 0 <= cleared <= length
      invariant g.Valid() && OnlyFor(c0, g.arena.contents, g.arena.base, g, g.arena.imageTop)
      invariant g.view.mem == Zeroed(m, start, start + cleared)
    {
      ghost var c := g.arena.contents;
      var guest := start + cleared;
      var page := g.FindPage(guest);
      if !page.Frame? { return false; }
      var within, remaining := guest % 65536, length - cleared;
      var room := PAGE_SIZE - within;
      var amount := if room < remaining then room else remaining;
      ClearSpan(g, page.at, Key(guest), within, amount, guest);
      OnlyForTransitive(c0, c, g.arena.contents, g.arena.base, g, g.arena.imageTop);
      ZeroMore(m, start, cleared, amount);
      cleared := cleared + amount;
    }
    return true;
  }
}
