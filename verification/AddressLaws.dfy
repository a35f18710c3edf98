/** Where a process's heap may end, and where the kernel puts a mapping that asks
    for no address. */
module AddressLaws {
  import opened Mappings
  import opened MapTables
  import opened Spaces

  /** The break may move exactly to where it stays more than 1 MiB below the stack
      and below every address that a mapping owns. */
  lemma BreakExactly(s: Space, requested: nat)
    requires Sound(s)
    ensures BreakAllowed(s, requested) <==>
            && s.brkBase <= requested && requested + 1024 * 1024 < s.stack
            && forall a: nat :: Owned(s.list, a) ==> requested + 1024 * 1024 < a
  {
    forall i | 0 <= i < |s.list| ensures Tidy(s.list[i]) && Owned(s.list, s.list[i].address) {
      assert Has(s.list[i], s.list[i].address);
    }
    if BreakAllowed(s, requested) {
      forall a: nat | Owned(s.list, a) ensures requested + 1024 * 1024 < a {
        var i :| 0 <= i < |s.list| && Has(s.list[i], a);
      }
    }
  }

  /** After a move of the break, 1 MiB lies between the heap and the stack and between
      the heap and every mapping. */
  lemma HeapApart(s: Space, t: Space, requested: nat, a: nat, b: nat)
    requires Sound(s) && BreakAllowed(s, requested) && BreakMoved(s, t, requested)
    requires t.brkBase <= a < t.brk && (t.stack <= b || Owned(t.list, b))
    ensures a + 1024 * 1024 < b
  {
    BreakExactly(s, requested);
    assert t == Rebroken(s, requested);
  }

  /** A mapping that asks for no address is put right behind all others, as long as
      there is room below the stack. */
  lemma PlacedBehind(s: Space, length: nat, protection: nat, flags: nat, r: int)
    requires Sound(s) && 0 < length <= s.top && protection <= 7 && (flags == 0x21 || flags == 0x22)
    requires s.brk + 16 * 1024 * 1024 <= s.mapNext && |s.list| < MAP_CAPACITY
    requires s.mapNext + PageUp(length) + 1024 * 1024 < s.stack
    requires MapAnswer(s, 0, length, protection, flags, r)
    ensures r == s.mapNext && forall a :: Owned(s.list, a) ==> a < r
  {
    assert s.stack <= s.top;
    assert MapArguments(s.top, length, protection, flags) && !Fixed(flags) && Hint(s.top, 0) == 0;
    PageUpMonotone(s.brk + 1024 * 1024, s.mapNext);
    PageUpMonotone(s.brk + 16 * 1024 * 1024, s.mapNext);
    assert FirstCandidate(s, PageUp(length)) == s.mapNext;
    assert Try(s.mapNext, 0) == s.mapNext && Fits(s, Try(s.mapNext, 0), PageUp(length));
    assert FoundAfter(s, PageUp(length), s.mapNext, 0);
    assert !NothingFound(s, PageUp(length));
    var k :| 0 <= k < MAP_CAPACITY + 2 && FoundAfter(s, PageUp(length), r, k);
  }

  lemma PageUpMonotone(x: nat, y: nat)
    requires x <= y && Aligned(y)
    ensures PageUp(x) <= y
  {
  }

  /** So two mappings in a row lie one behind the other. */
  lemma TwoInARow(s: Space, t: Space, m: Mapping, length: nat, r: int)
    requires Sound(s) && Sound(t) && RangeMapped(s, t, m) && m.end > s.mapNext && |t.list| < MAP_CAPACITY
    requires 0 < length <= t.top && t.brk + 16 * 1024 * 1024 <= t.mapNext
    requires t.mapNext + PageUp(length) + 1024 * 1024 < t.stack && MapAnswer(t, 0, length, 3, 0x22, r)
    ensures r == m.end
  {
    PlacedBehind(t, length, 3, 0x22, r);
  }

  // --- mremap

  /** Whether a mapping stays or moves: its bytes come along, and what it gains is zero. */
  lemma RemapKeepsBytes(s: Space, t: Space, address: nat, oldLength: nat, newLength: nat, flags: nat, r: int, k: nat)
    requires Sound(s) && RemapAnswer(s, t, address, oldLength, newLength, flags, 0, r) && r >= 0
    requires k < PageUp(newLength) && r + k < |s.mem| == |t.mem| && address + k < |s.mem|
    ensures t.mem[r + k] == if k < PageUp(oldLength) then s.mem[address + k] else 0
  {
    var i :| 0 <= i < |s.list| && Exactly(s.list, i, address, address + PageUp(oldLength)) &&
      Remapped(s, t, i, PageUp(newLength), flags == 1, r);
    OneRemapped(s, t, i, PageUp(newLength), flags == 1, r, k);
  }

  lemma OneRemapped(s: Space, t: Space, i: nat, size: nat, mayMove: bool, r: int, k: nat)
    requires Sound(s) && i < |s.list| && Remapped(s, t, i, size, mayMove, r) && r >= 0
    requires k < size && r + k < |s.mem| == |t.mem| && s.list[i].address + k < |s.mem|
    ensures var m := s.list[i];
            t.mem[r + k] == if k < m.end - m.address then s.mem[m.address + k] else 0
  {
    var m := s.list[i];
    assert Tidy(m);
    if size == m.end - m.address {
    } else if size < m.end - m.address || Placeable(s, m.address, m.address + size, i) {
      assert t == Reended(s, i, m.address + size);
    } else {
      assert RangeMoved(s, t, m, r, size);
      assert t.mem[r + k] == MovedByte(s.mem, m, r, size, r + k);
    }
  }

  /** Without leave to move, a mapping stays where it is or the call is refused and
      nothing changes. */
  lemma RemapStays(s: Space, t: Space, address: nat, oldLength: nat, newLength: nat, r: int)
    requires Sound(s) && RemapAnswer(s, t, address, oldLength, newLength, 0, 0, r)
    ensures r == address || (r < 0 && t == s)
  {
    if RemapArguments(s.top, address, oldLength, newLength, 0, 0) &&
       !NoneExactly(s.list, address, address + PageUp(oldLength)) {
      var i :| 0 <= i < |s.list| && Exactly(s.list, i, address, address + PageUp(oldLength)) &&
        Remapped(s, t, i, PageUp(newLength), false, r);
    }
  }
}
