/** Clearing and copying address ranges by scanning the page table slot by slot. */
module RangeWork {
  import opened Frames
  import opened PageTables
  import opened Ownership

  /** The table `u` still has every page of `t` where it was. */
  ghost predicate Extends(t: Table, u: Table) {
    && (forall k :: k in t.slotOf ==> k in u.slotOf && u.slotOf[k] == t.slotOf[k])
    && (forall k :: k in t.frameNo ==> k in u.frameNo && u.frameNo[k] == t.frameNo[k])
  }

  /** Every page of the range has its frame. */
  ghost predicate Framed(t: Table, low: nat, high: nat) {
    forall a: nat {:trigger Key(a)} :: low <= a < high ==> Key(a) in t.frameNo
  }

  lemma FramedMore(t: Table, u: Table, low: nat, n: nat)
    requires Framed(t, low, low + n) && Extends(t, u) && Key(low + n) in u.frameNo
    ensures Framed(u, low, low + n + 1)
  {
  }

  lemma NotFramed(t: Table, low: nat, n: nat, size: nat)
    requires n < size && Key(low + n) !in t.frameNo
    ensures !Framed(t, low, low + size)
  {
  }

  ghost predicate Scanned(slotOf: map<nat, nat>, a: nat, slot: nat) {
    Key(a) in slotOf && slotOf[Key(a)] < slot
  }

  // --- Clearing [low, high)

  /** `m` after the pages in the first `slot` slots were cleared in the range. */
  ghost function Cleared(m: seq<Byte>, slotOf: map<nat, nat>, low: nat, high: nat, slot: nat): (r: seq<Byte>)
    ensures |r| == |m|
    ensures forall a :: 0 <= a < |m| ==> r[a] == if low <= a < high && Scanned(slotOf, a, slot) then 0 else m[a]
  {
    seq(|m|, a requires 0 <= a < |m| => if low <= a < high && Scanned(slotOf, a, slot) then 0 else m[a])
  }

  lemma ClearSlot(t: Table, m: seq<Byte>, low: nat, high: nat, slot: nat)
    requires Probing(t.entries, t.slotOf) && slot < PAGE_CAPACITY && t.entries[slot].key != 0
    ensures var page := Page(t.entries[slot].key);
            Cleared(m, t.slotOf, low, high, slot + 1) ==
            Zeroed(Cleared(m, t.slotOf, low, high, slot), if low > page then low else page,
                   if high < page + PAGE_SIZE then high else page + PAGE_SIZE)
  {
    var r, s := Cleared(m, t.slotOf, low, high, slot), Cleared(m, t.slotOf, low, high, slot + 1);
    var page := Page(t.entries[slot].key);
    var z := Zeroed(r, if low > page then low else page, if high < page + PAGE_SIZE then high else page + PAGE_SIZE);
    forall a | 0 <= a < |m| ensures s[a] == z[a] {
      assert Scanned(t.slotOf, a, slot + 1) <==> Scanned(t.slotOf, a, slot) || Key(a) == t.entries[slot].key;
      assert Key(a) == t.entries[slot].key <==> page <= a < page + PAGE_SIZE;
    }
  }

  lemma ClearEmptySlot(t: Table, m: seq<Byte>, low: nat, high: nat, slot: nat)
    requires Probing(t.entries, t.slotOf) && slot < PAGE_CAPACITY && t.entries[slot].key == 0
    ensures Cleared(m, t.slotOf, low, high, slot + 1) == Cleared(m, t.slotOf, low, high, slot)
  {
  }

  lemma ClearDone(t: Table, c: Contents, base: nat, me: object, low: nat, high: nat)
    requires Coherent(t, c, base, me)
    ensures Cleared(t.mem, t.slotOf, low, high, PAGE_CAPACITY) == Zeroed(t.mem, low, high)
  {
    forall a | 0 <= a < SPACE
      ensures Cleared(t.mem, t.slotOf, low, high, PAGE_CAPACITY)[a] == Zeroed(t.mem, low, high)[a]
    {
      if Key(a) !in t.slotOf { AbsentReadsZero(t, c, base, me, a); }
    }
  }

  // --- Copying [source, source + length) to [target, target + length)

  /** While the table is scanned, each target byte is either copied already, or
      still zero and its source page is yet to come. Nothing else changes. */
  ghost predicate Copying(m: seq<Byte>, t: Table, source: nat, target: nat, length: nat, slot: nat)
    requires source + length <= |m| && target + length <= |m|
  {
    && |t.mem| == |m|
    && (forall a :: 0 <= a < |m| && !(target <= a < target + length) ==> t.mem[a] == m[a])
    && (forall a {:trigger t.mem[a]} :: target <= a < target + length ==>
          t.mem[a] == m[a - target + source] || (t.mem[a] == 0 && !Scanned(t.slotOf, a - target + source, slot)))
  }

  ghost predicate Separate(source: nat, target: nat, length: nat) {
    source + length <= target || target + length <= source
  }

  /** A page that appears during the scan was absent, hence zero, before: its
      source bytes are copied even if its slot is already behind. */
  lemma CopyingNewPage(m: seq<Byte>, t: Table, c: Contents, u: Table, d: Contents, base: nat, me: object,
                       source: nat, target: nat, length: nat, slot: nat, low: nat, here: nat, key: nat, frame: nat)
    requires Folded(t, c, base, me, FOLDS) && Folded(u, d, base, me, FOLDS) && Extends(t, u) && u.mem == t.mem
    requires slot < |t.entries| == |u.entries| && key > 0 && t.entries[slot] == Entry(key, frame)
    requires CopyingTo(m, t, source, target, length, slot, low, here)
    ensures CopyingTo(m, u, source, target, length, slot, low, here)
    ensures u.entries[slot] == Entry(key, frame) && InFrame(u, base, key, frame)
  {
    Unfold(t, c, base, me, FOLDS);
    Unfold(u, d, base, me, FOLDS);
    assert t.slotOf[key] == slot;
    forall a | target <= a < target + length
      ensures u.mem[a] == m[a - target + source] || (u.mem[a] == 0 && !Scanned(u.slotOf, a - target + source, slot))
    {
      var b := a - target + source;
      assert t.mem[b] == m[b];
      if Key(b) !in t.slotOf { AbsentReadsZero(t, c, base, me, b); }
    }
  }

  /** In addition, the source range [low, here) is copied. */
  ghost predicate CopyingTo(m: seq<Byte>, t: Table, source: nat, target: nat, length: nat, slot: nat, low: nat,
                            here: nat) {
    && source + length <= |m| && target + length <= |m| && Separate(source, target, length)
    && source <= low && here <= source + length
    && Copying(m, t, source, target, length, slot)
    && forall a {:trigger t.mem[a]} :: target + low <= a + source < target + here ==> t.mem[a] == m[a - target + source]
  }

  lemma CopyingWrite(m: seq<Byte>, t: Table, source: nat, target: nat, length: nat, slot: nat, low: nat,
                     here: nat, size: nat, at: nat)
    requires CopyingTo(m, t, source, target, length, slot, low, here)
    requires low <= here && here + size <= source + length && at == target + (here - source)
    ensures here + size <= |t.mem| &&
            CopyingTo(m, t.Move(at, here, size), source, target, length, slot, low, here + size)
  {
    var u := t.Move(at, here, size);
    forall a {:trigger u.mem[a]} | target + here <= a + source < target + here +
        size ensures u.mem[a] == m[a - target + source] {
      assert u.mem[a] == t.mem[a - target + source] == m[a - target + source];
    }
  }

  lemma CopyingSlotDone(m: seq<Byte>, t: Table, source: nat, target: nat, length: nat, slot: nat, low: nat, high: nat)
    requires source + length <= |m| && target + length <= |m|
    requires Probing(t.entries, t.slotOf) && slot < PAGE_CAPACITY && t.entries[slot].key != 0
    requires var page := Page(t.entries[slot].key);
             && low == (if source > page then source else page)
             && high == if source + length < page + PAGE_SIZE then source + length else page + PAGE_SIZE
    requires Copying(m, t, source, target, length, slot)
    requires low < high ==> CopyingTo(m, t, source, target, length, slot, low, high)
    ensures Copying(m, t, source, target, length, slot + 1)
  {
    forall a | target <= a < target + length
      ensures t.mem[a] == m[a - target + source] || (t.mem[a] == 0 && !Scanned(t.slotOf, a - target + source, slot + 1))
    {
      var b := a - target + source;
      if Scanned(t.slotOf, b, slot + 1) && !Scanned(t.slotOf, b, slot) {
        assert Key(b) == t.entries[slot].key;
        assert low <= b < high;
      }
    }
  }

  lemma CopyingEmptySlot(m: seq<Byte>, t: Table, source: nat, target: nat, length: nat, slot: nat)
    requires source + length <= |m| && target + length <= |m|
    requires Probing(t.entries, t.slotOf) && slot < PAGE_CAPACITY && t.entries[slot].key == 0
    requires Copying(m, t, source, target, length, slot)
    ensures Copying(m, t, source, target, length, slot + 1)
  {
    forall a | target <= a < target + length
      ensures t.mem[a] == m[a - target + source] || (t.mem[a] == 0 && !Scanned(t.slotOf, a - target + source, slot + 1))
    {
    }
  }

  lemma CopyingDone(m: seq<Byte>, t: Table, c: Contents, base: nat, me: object, source: nat, target: nat, length: nat)
    requires source + length <= |m| && target + length <= |m| && Separate(source, target, length)
    requires Coherent(t, c, base, me)
    requires Copying(m, t, source, target, length, PAGE_CAPACITY)
    ensures t.mem == Moved(m, target, source, length)
  {
    forall a | target <= a < target + length ensures t.mem[a] == m[a - target + source] {
      var b := a - target + source;
      assert t.mem[b] == m[b];
      if Key(b) !in t.slotOf { AbsentReadsZero(t, c, base, me, b); }
    }
  }
}
