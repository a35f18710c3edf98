/** What protection bits and segment flags mean for a program: which loads, stores
    and instruction fetches they let through, after whatever calls set them. */
module Permissions {
  import opened RangeWork
  import opened Mappings
  import opened MapProtecting
  import opened MapTables
  import opened Spaces
  import opened Processes

  /** The bits of a permission mask, one by one. */
  lemma GrantsIsMask(granted: bv3, asked: bv3)
    ensures Grants(granted as nat, asked as nat) <==> granted & asked == asked
  {
    MaskBit(granted, asked, 1);
    MaskBit(granted, asked, 2);
    MaskBit(granted, asked, 4);
  }

  lemma MaskBit(granted: bv3, asked: bv3, bit: bv3)
    requires bit == 1 || bit == 2 || bit == 4
    ensures Bit(granted as nat, bit as nat) <==> granted & bit == bit
  {
  }

  // --- which part of the address space decides

  /** No segment holds the range, and neither do stack and heap. */
  ghost predicate Elsewhere(s: Space, low: nat, high: nat) {
    && NoSegment(s.segments, low, high)
    && (s.stack == 0 || low < s.stack) && !(s.brkBase != 0 && s.brkBase <= low && high <= s.brk)
  }

  /** The flags of the first segment that holds a range decide each kind of access. */
  lemma SegmentDecides(s: Space, i: nat, low: nat, size: nat)
    requires FirstSegment(s.segments, i, low, low + size) && low < s.top && low + size <= s.top
    ensures Allowed(s, low, size, READ) <==> s.segments[i].flags % 2 == 1
    ensures Allowed(s, low, size, WRITE) <==> s.segments[i].flags / 2 % 2 == 1
    ensures Allowed(s, low, size, EXECUTE) <==> s.segments[i].flags / 4 % 2 == 1
  {
    assert SegmentHolds(s.segments, i, low, low + size);
  }

  /** Elsewhere, the protection of the first mapping that holds a range decides loads
      and stores; nothing there is executed. */
  lemma MappingDecides(s: Space, i: nat, low: nat, size: nat)
    requires FirstMapping(s.list, i, low, low + size) && Elsewhere(s, low, low + size)
    requires low < s.top && low + size <= s.top
    ensures Allowed(s, low, size, READ) <==> s.list[i].protection % 2 == 1
    ensures Allowed(s, low, size, WRITE) <==> s.list[i].protection / 2 % 2 == 1
    ensures !Allowed(s, low, size, EXECUTE)
  {
  }

  ghost predicate InOneMapping(s: Space, low: nat, high: nat) {
    exists i: nat :: MappingHolds(s.list, i, low, high)
  }

  /** A range that no segment, stack, heap or mapping holds is out of bounds. */
  lemma NothingAllows(s: Space, low: nat, size: nat, asked: nat)
    requires Elsewhere(s, low, low + size) && !InOneMapping(s, low, low + size)
    ensures !Allowed(s, low, size, asked)
  {
  }

  /** Stack and heap are read and written, and not executed. */
  lemma StackAndHeap(s: Space, low: nat, size: nat)
    requires low < s.top && low + size <= s.top
    requires NoSegment(s.segments, low, low + size)
    requires 0 < s.stack <= low || 0 < s.brkBase <= low <= low + size <= s.brk
    ensures Allowed(s, low, size, READ) && Allowed(s, low, size, WRITE) && !Allowed(s, low, size, EXECUTE)
  {
  }

  // --- after mprotect

  /** After mprotect the new protection decides, for every range inside one mapping
      of the protected range. */
  lemma ProtectedDecides(s: Space, t: Space, low: nat, high: nat, protection: nat, i: nat, a: nat, size: nat)
    requires Sound(s) && Sound(t) && RangeProtected(s, t, low, high, protection)
    requires 0 < size && low <= a && a + size <= high && FirstMapping(t.list, i, a, a + size)
    requires Elsewhere(s, a, a + size)
    ensures Allowed(t, a, size, READ) <==> protection % 2 == 1
    ensures Allowed(t, a, size, WRITE) <==> protection / 2 % 2 == 1
    ensures !Allowed(t, a, size, EXECUTE)
  {
    OwnerIs(t.list, i, a);
    ProtectedSame(s, t, low, high, protection, a, a + size);
    assert t.list[i].end <= t.top;
    MappingDecides(t, i, a, size);
  }

  lemma ProtectedSame(s: Space, t: Space, low: nat, high: nat, protection: nat, a: nat, end: nat)
    requires RangeProtected(s, t, low, high, protection) && Elsewhere(s, a, end)
    ensures Repainted(s.list, t.list, low, high, protection) && Elsewhere(t, a, end) && t.top == s.top
  {
  }

  lemma FirstOne(s: Space, low: nat, high: nat) returns (i: nat)
    requires InOneMapping(s, low, high)
    ensures FirstMapping(s.list, i, low, high)
  {
    i := 0;
    while !MappingHolds(s.list, i, low, high)
      invariant i <= |s.list| && forall j :: 0 <= j < i ==> !MappingHolds(s.list, j, low, high)
      decreases |s.list| - i
    {
      i := i + 1;
    }
  }

  /** However mprotect divides mappings: what lies in one of them has exactly the
      new protection, and what spans two is refused. */
  lemma ProtectedTouch(s: Space, t: Space, low: nat, high: nat, protection: nat, a: nat, size: nat)
    requires Sound(s) && Sound(t) && RangeProtected(s, t, low, high, protection)
    requires 0 < size && low <= a && a + size <= high && Elsewhere(s, a, a + size)
    ensures Allowed(t, a, size, READ) <==> InOneMapping(t, a, a + size) && protection % 2 == 1
    ensures Allowed(t, a, size, WRITE) <==> InOneMapping(t, a, a + size) && protection / 2 % 2 == 1
    ensures !Allowed(t, a, size, EXECUTE)
  {
    ProtectedSame(s, t, low, high, protection, a, a + size);
    if InOneMapping(t, a, a + size) {
      var i := FirstOne(t, a, a + size);
      ProtectedDecides(s, t, low, high, protection, i, a, size);
    } else {
      NothingAllows(t, a, size, READ);
      NothingAllows(t, a, size, WRITE);
      NothingAllows(t, a, size, EXECUTE);
    }
  }

  /** Protect a range, then store to a part of it, load from it and fetch instructions
      from it. */
  method ProtectThenTouch(p: Process, address: nat, length: nat, protection: nat, a: nat, size: nat, value: nat)
    returns (r: int, stored: bool, loaded: bool, fetched: bool)
    requires p.Valid() && 0 < size && address <= a && a + size <= address + PageUp(length)
    requires Elsewhere(p.State(), a, a + size)
    modifies p.table`count, p.table`list, p.table.maps
    modifies p.memory`view, p.memory`pageCount, p.memory.entries, p.memory.arena`next, p.memory.arena`contents,
             p.memory.arena.bytes
    ensures p.Valid()
    ensures r == 0 && protection / 2 % 2 == 0 ==> !stored && p.memory.view.mem == old(p.memory.view.mem)
    ensures r == 0 && protection % 2 == 0 ==> !loaded
    ensures r == 0 ==> !fetched
    ensures r == 0 && InOneMapping(p.State(), a, a + size) ==>
              && (loaded <==> protection % 2 == 1)
              && (stored <==> protection / 2 % 2 == 1 && Framed(p.memory.view, a, a + size))
  {
    ghost var s := p.State();
    r := p.Protect(address, length, protection);
    ghost var t := p.State();
    if r == 0 { ProtectedTouch(s, t, address, address + PageUp(length), protection, a, size); }
    stored := p.StoreInteger(a, value, size);
    assert p.State() == t.(mem := p.memory.view.mem);
    SameAllowed(t, p.State(), a, size, READ);
    SameAllowed(t, p.State(), a, size, EXECUTE);
    var word;
    loaded, word := p.LoadInteger(a, size);
    fetched := p.GuestAllowed(a, size, EXECUTE);
  }

  lemma SameAllowed(s: Space, t: Space, low: nat, size: nat, asked: nat)
    requires t == s.(mem := t.mem)
    ensures Allowed(s, low, size, asked) <==> Allowed(t, low, size, asked)
  {
  }

  /** Store to a range of a segment, load from it and fetch instructions from it. */
  method TouchSegment(p: Process, ghost i: nat, a: nat, size: nat, value: nat)
    returns (stored: bool, loaded: bool, fetched: bool)
    requires p.Valid() && a < p.memory.top && a + size <= p.memory.top && FirstSegment(p.segments, i, a, a + size)
    modifies p.memory`view, p.memory`pageCount, p.memory.entries, p.memory.arena`next, p.memory.arena`contents,
             p.memory.arena.bytes
    ensures p.Valid() && p.segments == old(p.segments)
    ensures loaded <==> p.segments[i].flags % 2 == 1
    ensures fetched <==> p.segments[i].flags / 4 % 2 == 1
    ensures stored <==> p.segments[i].flags / 2 % 2 == 1 && Framed(p.memory.view, a, a + size)
    ensures !stored && p.segments[i].flags / 2 % 2 == 0 ==> p.memory.view.mem == old(p.memory.view.mem)
  {
    ghost var s := p.State();
    SegmentDecides(s, i, a, size);
    stored := p.StoreInteger(a, value, size);
    SameAllowed(s, p.State(), a, size, READ);
    SameAllowed(s, p.State(), a, size, EXECUTE);
    var word;
    loaded, word := p.LoadInteger(a, size);
    fetched := p.GuestAllowed(a, size, EXECUTE);
  }
}
