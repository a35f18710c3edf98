/** Which guest owns which physical frame.

    `Contents` is the physical memory with the owner of every frame handed out
    so far; `Table` is one guest's page table with the flat memory it stands
    for.  `Coherent` ties the two together.  `OnlyFor` says what work on behalf
    of one guest leaves alone, which is why guests never disturb each other or
    the image reservation. */
module Ownership {
  import opened Frames
  import opened PageTables

  datatype Contents = Contents(bytes: seq<Byte>, use: seq<(object, nat)>)
  ghost function Filled(c: Contents, at: nat, size: nat): Contents {
    c.(bytes := Zeroed(c.bytes, at, at + size))
  }

  ghost function Shifted(c: Contents, to: nat, from: nat, size: nat): Contents
    requires from + size <= |c.bytes|
  {
    c.(bytes := Moved(c.bytes, to, from, size))
  }

  ghost function Loaded(c: Contents, at: nat, data: seq<Byte>): Contents {
    c.(bytes := Written(c.bytes, at, data))
  }

  ghost function Allocated(c: Contents, base: nat, owner: object, key: nat): Contents {
    Contents(Zeroed(c.bytes, Start(base, |c.use|), Start(base, |c.use|) + PAGE_SIZE), c.use + [(owner, key)])
  }

  datatype Table = Table(entries: seq<Entry>, slotOf: map<nat, nat>, frameNo: map<nat, nat>, mem: seq<Byte>) {
    ghost function Zero(low: nat, high: nat): Table {
      this.(mem := Zeroed(mem, low, high))
    }

    ghost function Move(to: nat, from: nat, size: nat): Table
      requires from + size <= |mem|
    {
      this.(mem := Moved(mem, to, from, size))
    }

    ghost function Write(at: nat, data: seq<Byte>): Table {
      this.(mem := Written(mem, at, data))
    }
  }

  ghost predicate Backed(entries: seq<Entry>, slotOf: map<nat, nat>, frameNo: map<nat, nat>, base: nat)
    requires Probing(entries, slotOf)
  {
    && frameNo.Keys == slotOf.Keys
    && forall k :: k in slotOf ==> entries[slotOf[k]].frame == Start(base, frameNo[k])
  }

  ghost predicate Coherent(t: Table, c: Contents, base: nat, me: object) {
    match t
    case Table(entries, slotOf, frameNo, mem) =>
      && Probing(entries, slotOf)
      && Backed(entries, slotOf, frameNo, base)
      && Represents(mem, c.bytes, frameNo, base, c.use, me)
  }

  const FOLDS := 3

  /** `Coherent`, kept folded so that callers of a guest memory reason from its
      contracts alone; `Unfold` and `Fold` go back and forth. */
  ghost predicate Folded(t: Table, c: Contents, base: nat, me: object, folds: nat) {
    if folds == 0 then Coherent(t, c, base, me) else Folded(t, c, base, me, folds - 1)
  }

  lemma Unfold(t: Table, c: Contents, base: nat, me: object, folds: nat)
    requires Folded(t, c, base, me, folds)
    ensures Coherent(t, c, base, me)
  {
  }

  lemma Fold(t: Table, c: Contents, base: nat, me: object, folds: nat)
    requires Coherent(t, c, base, me)
    ensures Folded(t, c, base, me, folds)
  {
  }

  /** The bytes that work for `owner` must leave alone: every frame of another
      owner, and everything from `top` upwards, where the image reservation is. */
  ghost predicate Spared(bytes: seq<Byte>, bytes': seq<Byte>, base: nat, use: seq<(object, nat)>, owner: object,
                         top: nat) {
    && |bytes'| == |bytes|
    && (forall k, x :: 0 <= k < |use| && use[k].0 != owner && Start(base, k) <= x < Start(base, k) + PAGE_SIZE &&
                       x < |bytes|
          ==> bytes'[x] == bytes[x])
    && (forall x :: top <= x < |bytes| ==> bytes'[x] == bytes[x])
  }

  ghost predicate OnlyFor(c: Contents, c': Contents, base: nat, owner: object, top: nat) {
    match c
    case Contents(bytes, use) =>
      && use <= c'.use
      && (forall k :: |use| <= k < |c'.use| ==> c'.use[k].0 == owner)
      && Spared(bytes, c'.bytes, base, use, owner, top)
  }

  lemma OnlyForNothing(c: Contents, base: nat, owner: object, top: nat)
    ensures OnlyFor(c, c, base, owner, top)
  {
  }

  lemma OnlyForTransitive(c: Contents, d: Contents, e: Contents, base: nat, owner: object, top: nat)
    requires OnlyFor(c, d, base, owner, top) && OnlyFor(d, e, base, owner, top)
    ensures OnlyFor(c, e, base, owner, top)
  {
    forall k, x | 0 <= k < |c.use| && c.use[k].0 != owner && Start(base, k) <= x < Start(base, k) + PAGE_SIZE &&
        x < |c.bytes|
      ensures e.bytes[x] == c.bytes[x]
    {
      assert d.use[k] == c.use[k] && d.bytes[x] == c.bytes[x];
    }
  }

  /** A change of bytes inside one of the owner's frames is only for the owner. */
  lemma OwnFrameChange(c: Contents, c': Contents, base: nat, owner: object, top: nat, k: nat)
    requires k < |c.use| && c.use[k].0 == owner && Start(base, |c.use|) <= top
    requires c'.use == c.use && |c'.bytes| == |c.bytes|
    requires forall x :: 0 <= x < |c.bytes| && !(Start(base, k) <= x < Start(base, k) + PAGE_SIZE) ==>
             c'.bytes[x] == c.bytes[x]
    ensures OnlyFor(c, c', base, owner, top)
  {
  }

  lemma NewFrameChange(c: Contents, base: nat, owner: object, top: nat, key: nat)
    requires Start(base, |c.use|) + PAGE_SIZE <= top <= |c.bytes|
    ensures OnlyFor(c, Allocated(c, base, owner, key), base, owner, top)
  {
  }

  /** Work for one guest is invisible to every other guest. */
  lemma OthersUnaffected(t: Table, c: Contents, c': Contents, base: nat, me: object, owner: object, top: nat)
    requires Coherent(t, c, base, me) && OnlyFor(c, c', base, owner, top) && me != owner
    requires Start(base, |c'.use|) <= |c'.bytes|
    ensures Coherent(t, c', base, me)
  {
    forall p, x | p in t.frameNo && Start(base, t.frameNo[p]) <= x < Start(base, t.frameNo[p]) + PAGE_SIZE
      ensures c'.bytes[x] == c.bytes[x]
    {
      assert c.use[t.frameNo[p]].0 == me;
    }
    OtherFramesChange(t.mem, c.bytes, c'.bytes, t.frameNo, base, c.use, c'.use, me);
  }

  /** Frames of any two pages, of one guest or of two, never meet. */
  lemma FramesNeverMeet(t: Table, u: Table, c: Contents, base: nat, me: object, you: object, p: nat, q: nat)
    requires Coherent(t, c, base, me) && Coherent(u, c, base, you)
    requires p in t.slotOf && q in u.slotOf && (me != you || p != q)
    ensures var f, g := t.entries[t.slotOf[p]].frame, u.entries[u.slotOf[q]].frame;
            f + PAGE_SIZE <= g || g + PAGE_SIZE <= f
  {
    assert c.use[t.frameNo[p]] == (me, p) && c.use[u.frameNo[q]] == (you, q);
  }

  // --- Adding a page

  lemma InsertBacked(entries: seq<Entry>, slotOf: map<nat, nat>, frameNo: map<nat, nat>, base: nat, key: nat, slot: nat,
                     k: nat)
    requires Probing(entries, slotOf) && Backed(entries, slotOf, frameNo, base) && slot < PAGE_CAPACITY &&
             entries[slot].key == 0
    requires Probing(entries[slot := Entry(key, Start(base, k))], slotOf[key := slot])
    ensures Backed(entries[slot := Entry(key, Start(base, k))], slotOf[key := slot], frameNo[key := k], base)
  {
  }

  ghost function Inserted(t: Table, key: nat, slot: nat, base: nat, k: nat): Table
    requires slot < |t.entries|
  {
    Table(t.entries[slot := Entry(key, Start(base, k))], t.slotOf[key := slot], t.frameNo[key := k], t.mem)
  }

  lemma InsertCoherent(t: Table, c: Contents, base: nat, me: object, key: nat, slot: nat)
    requires Coherent(t, c, base, me) && 0 < key <= PAGES
    requires slot < PAGE_CAPACITY && t.entries[slot].key == 0
    requires Passed(t.entries, key, Distance(Hash(key), slot))
    requires Start(base, |c.use|) + PAGE_SIZE <= |c.bytes|
    ensures key !in t.slotOf && Coherent(Inserted(t, key, slot, base, |c.use|), Allocated(c, base, me, key), base, me)
  {
    InsertKeepsProbing(t.entries, t.slotOf, key, slot, Start(base, |c.use|));
    InsertBacked(t.entries, t.slotOf, t.frameNo, base, key, slot, |c.use|);
    AddFrame(t.mem, c.bytes, t.frameNo, base, c.use, me, key);
  }

  // --- Changing bytes of a present page

  /** The page with this key is stored in this frame. */
  ghost predicate InFrame(t: Table, base: nat, key: nat, frame: nat) {
    key in t.frameNo && frame == Start(base, t.frameNo[key])
  }

  lemma SlotInFrame(t: Table, c: Contents, base: nat, me: object, slot: nat)
    requires Coherent(t, c, base, me) && slot < PAGE_CAPACITY && t.entries[slot].key != 0
    ensures InFrame(t, base, t.entries[slot].key, t.entries[slot].frame)
  {
    assert t.slotOf[t.entries[slot].key] == slot;
  }

  /** Frames lie inside the arena, pages inside the address space. */
  lemma PageInArena(t: Table, c: Contents, base: nat, me: object, key: nat, frame: nat)
    requires Coherent(t, c, base, me) && InFrame(t, base, key, frame)
    ensures 0 < key <= PAGES && frame + PAGE_SIZE <= |c.bytes| && frame + PAGE_SIZE <= Start(base, |c.use|)
  {
    assert c.use[t.frameNo[key]] == (me, key);
  }

  lemma WriteCoherent(t: Table, c: Contents, base: nat, me: object, top: nat, key: nat, frame: nat, offset: nat,
                      data: seq<Byte>, at: nat)
    requires Coherent(t, c, base, me) && InFrame(t, base, key, frame) && offset + |data| <= PAGE_SIZE &&
             Start(base, |c.use|) <= top
    requires at == Page(key) + offset
    ensures frame + PAGE_SIZE <= |c.bytes|
    ensures Coherent(t.Write(at, data), Loaded(c, frame + offset, data), base, me)
    ensures OnlyFor(c, Loaded(c, frame + offset, data), base, me, top)
  {
    PageInArena(t, c, base, me, key, frame);
    WriteInFrame(t.mem, c.bytes, t.frameNo, base, c.use, me, key, offset, data, at, frame + offset);
    OwnFrameChange(c, Loaded(c, frame + offset, data), base, me, top, t.frameNo[key]);
  }

  lemma ZeroCoherent(t: Table, c: Contents, base: nat, me: object, top: nat, key: nat, frame: nat, offset: nat,
                     length: nat, at: nat)
    requires Coherent(t, c, base, me) && InFrame(t, base, key, frame) && offset + length <= PAGE_SIZE &&
             Start(base, |c.use|) <= top
    requires at == Page(key) + offset
    ensures frame + PAGE_SIZE <= |c.bytes|
    ensures Coherent(t.Zero(at, at + length), Filled(c, frame + offset, length), base, me)
    ensures OnlyFor(c, Filled(c, frame + offset, length), base, me, top)
  {
    PageInArena(t, c, base, me, key, frame);
    ZeroInFrame(t.mem, c.bytes, t.frameNo, base, c.use, me, key, offset, length);
    OwnFrameChange(c, Filled(c, frame + offset, length), base, me, top, t.frameNo[key]);
  }

  lemma CopyCoherent(t: Table, c: Contents, base: nat, me: object, top: nat,
                     to: nat, toKey: nat, toOffset: nat, from: nat, fromKey: nat, fromOffset: nat, size: nat, at: nat,
                         source: nat)
    requires Coherent(t, c, base, me) && Start(base, |c.use|) <= top
    requires InFrame(t, base, toKey, to) && InFrame(t, base, fromKey, from)
    requires toOffset + size <= PAGE_SIZE && fromOffset + size <= PAGE_SIZE
    requires at == Page(toKey) + toOffset && source == Page(fromKey) + fromOffset && source + size <= |t.mem|
    ensures to + PAGE_SIZE <= |c.bytes| && from + PAGE_SIZE <= |c.bytes|
    ensures Coherent(t.Move(at, source, size), Shifted(c, to + toOffset, from + fromOffset, size), base, me)
    ensures OnlyFor(c, Shifted(c, to + toOffset, from + fromOffset, size), base, me, top)
  {
    PageInArena(t, c, base, me, toKey, to);
    PageInArena(t, c, base, me, fromKey, from);
    MoveInFrame(t.mem, c.bytes, t.frameNo, base, c.use, me, toKey, toOffset, fromKey, fromOffset, size,
                at, to + toOffset, source, from + fromOffset);
    OwnFrameChange(c, Shifted(c, to + toOffset, from + fromOffset, size), base, me, top, t.frameNo[toKey]);
  }

  // --- the same, for folded tables

  lemma WriteFolded(t: Table, c: Contents, base: nat, me: object, top: nat, key: nat, frame: nat, offset: nat,
                    data: seq<Byte>, at: nat)
    requires Folded(t, c, base, me, FOLDS) && InFrame(t, base, key, frame) && offset + |data| <= PAGE_SIZE &&
             Start(base, |c.use|) <= top
    requires at == Page(key) + offset
    ensures frame + PAGE_SIZE <= |c.bytes|
    ensures Folded(t.Write(at, data), Loaded(c, frame + offset, data), base, me, FOLDS)
    ensures OnlyFor(c, Loaded(c, frame + offset, data), base, me, top)
  {
    Unfold(t, c, base, me, FOLDS);
    WriteCoherent(t, c, base, me, top, key, frame, offset, data, at);
    Fold(t.Write(at, data), Loaded(c, frame + offset, data), base, me, FOLDS);
  }

  lemma ZeroFolded(t: Table, c: Contents, base: nat, me: object, top: nat, key: nat, frame: nat, offset: nat,
                   length: nat, at: nat)
    requires Folded(t, c, base, me, FOLDS) && InFrame(t, base, key, frame) && offset + length <= PAGE_SIZE &&
             Start(base, |c.use|) <= top
    requires at == Page(key) + offset
    ensures frame + PAGE_SIZE <= |c.bytes|
    ensures Folded(t.Zero(at, at + length), Filled(c, frame + offset, length), base, me, FOLDS)
    ensures OnlyFor(c, Filled(c, frame + offset, length), base, me, top)
  {
    Unfold(t, c, base, me, FOLDS);
    ZeroCoherent(t, c, base, me, top, key, frame, offset, length, at);
    Fold(t.Zero(at, at + length), Filled(c, frame + offset, length), base, me, FOLDS);
  }

  lemma CopyFolded(t: Table, c: Contents, base: nat, me: object, top: nat,
                   to: nat, toKey: nat, toOffset: nat, from: nat, fromKey: nat, fromOffset: nat, size: nat, at: nat,
                       source: nat)
    requires Folded(t, c, base, me, FOLDS) && Start(base, |c.use|) <= top
    requires InFrame(t, base, toKey, to) && InFrame(t, base, fromKey, from)
    requires toOffset + size <= PAGE_SIZE && fromOffset + size <= PAGE_SIZE
    requires at == Page(toKey) + toOffset && source == Page(fromKey) + fromOffset && source + size <= |t.mem|
    ensures to + PAGE_SIZE <= |c.bytes| && from + PAGE_SIZE <= |c.bytes|
    ensures Folded(t.Move(at, source, size), Shifted(c, to + toOffset, from + fromOffset, size), base, me, FOLDS)
    ensures OnlyFor(c, Shifted(c, to + toOffset, from + fromOffset, size), base, me, top)
  {
    Unfold(t, c, base, me, FOLDS);
    CopyCoherent(t, c, base, me, top, to, toKey, toOffset, from, fromKey, fromOffset, size, at, source);
    Fold(t.Move(at, source, size), Shifted(c, to + toOffset, from + fromOffset, size), base, me, FOLDS);
  }

  /** The page in an occupied slot, for a folded table. */
  lemma SlotFolded(t: Table, c: Contents, base: nat, me: object, slot: nat)
    requires Folded(t, c, base, me, FOLDS) && slot < |t.entries| && t.entries[slot].key != 0
    ensures InFrame(t, base, t.entries[slot].key, t.entries[slot].frame)
  {
    Unfold(t, c, base, me, FOLDS);
    SlotInFrame(t, c, base, me, slot);
  }

  lemma ByteInFrame(t: Table, c: Contents, base: nat, me: object, a: nat, frame: nat)
    requires Coherent(t, c, base, me) && a < SPACE && InFrame(t, base, Key(a), frame)
    ensures frame + Offset(a) < |c.bytes| && c.bytes[frame + Offset(a)] == t.mem[a]
  {
    PageInArena(t, c, base, me, Key(a), frame);
    assert t.mem[a] == Stored(c.bytes, t.frameNo, base, a);
  }

  lemma AbsentReadsZero(t: Table, c: Contents, base: nat, me: object, a: nat)
    requires Coherent(t, c, base, me) && a < SPACE && Key(a) !in t.slotOf
    ensures t.mem[a] == 0
  {
    assert t.mem[a] == Stored(c.bytes, t.frameNo, base, a);
  }
}
