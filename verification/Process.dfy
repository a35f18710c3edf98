/** The memory system calls of one process: brk, mmap, munmap, mprotect and
    mremap over anonymous mappings.  Every method keeps `Valid()`, which
    includes `Sound(State())`, and says what it did to the address space. */
module Processes {
  import opened Frames
  import opened Ownership
  import opened GuestMemory
  import opened Mappings
  import opened MapCutting
  import opened MapTables
  import opened Spaces
  import opened Words
  import opened RangeWork

  /** Real and effective user and group ids. */
  datatype Users = Users(ruid: U32, euid: U32, rgid: U32, egid: U32)

  class Process {
    const memory: GuestMemory
    const table: MapTable
    var brkBase: nat
    var brk: nat
    var stackBottom: nat
    var mapNext: nat
    var segments: seq<Segment>
    var stackPointer: nat
    // What the program image says, for the loader and the initial stack
    var imageFloor: nat
    var entry: U64
    var phdr: U64
    var phent: U32
    var phnum: U32
    var users: Users

    ghost function State(): Space
      reads this, memory, table
    {
      Space(table.list, brkBase, brk, stackBottom, memory.top, mapNext, segments, memory.view.mem)
    }

    ghost predicate Ready()
      reads this, memory, memory.entries, memory.arena, memory.arena.bytes, table, table.maps
    {
      && memory.Valid() && table.Valid()
      && table.maps as object != memory.entries && table.maps as object != memory.arena.bytes
    }

    ghost predicate Valid()
      reads this, memory, memory.entries, memory.arena, memory.arena.bytes, table, table.maps
    {
      Ready() && Sound(State())
    }

    constructor (m: GuestMemory, ids: Users)
      requires m.Valid()
      ensures Ready() && memory == m && table.list == [] && fresh(table) && fresh(table.maps)
    {
      memory := m;
      table := new MapTable();
      brkBase, brk, stackBottom, mapNext, segments := 0, 0, 0, 0x4000000000, [];
      stackPointer, imageFloor, entry, phdr, phent, phnum, users := 0, 0, 0, 0, 0, 0, ids;
    }

    // --- munmap

    method CountSplits(low: nat, high: nat) returns (hit: bool, splits: nat)
      requires table.Valid() && low <= high
      ensures hit <==> !Free(table.list, low, high, -1)
      ensures splits == SplitCount(table.list, low, high, |table.list|)
    {
      hit, splits := false, 0;
      var index := 0;
      while index < table.count
        invariant 0 <= index <= table.count
        invariant hit <==> exists i :: 0 <= i < index && Meets(table.list[i], low, high)
        invariant splits == SplitCount(table.list, low, high, index)
      {
        var m := table.maps[index];
        if low < m.end && high > m.address {
          hit := true;
          if low > m.address && high < m.end { splits := splits + 1; }
        }
        index := index + 1;
      }
    }

    /** One step of removing [low, high): look at mapping `index`. */
    method UnmapStep(ghost ms: seq<Mapping>, ghost m: seq<Byte>, low: nat, high: nat, index: nat) returns (next: nat)
      requires Ready() && low < high && Aligned(low) && Aligned(high)
      requires Cutting(ms, table.list, low, high, index) && index < table.count
      requires |ms| + SplitCount(ms, low, high, |ms|) <= MAP_CAPACITY
      requires LostAreZero(m, memory.view.mem, ms, table.list)
      modifies table`count, table`list, table.maps, memory`view, memory.arena`contents, memory.arena.bytes
      ensures Ready() && OnlyFor(old(memory.arena.contents), memory.arena.contents, memory.arena.base, memory,
                                 memory.arena.imageTop)
      ensures Cutting(ms, table.list, low, high, next)
      ensures Free(old(table.list), low, high, -1) ==> table.list == old(table.list) && next == index + 1
      ensures Stepped(old(table.list), table.list, low, high, index, next)
      ensures Free(table.list, low, high, -1) || next + old(table.count) > index + table.count
      ensures LostAreZero(m, memory.view.mem, ms, table.list)
    {
      var mapping := table.maps[index];
      ghost var ns, r := table.list, memory.view.mem;
      var l, h := Low(mapping, low), High(mapping, high);
      if low >= mapping.end || high <= mapping.address {
        PassOver(ms, table.list, low, high, index);
        OnlyForNothing(memory.arena.contents, memory.arena.base, memory, memory.arena.imageTop);
        return index + 1;
      }
      memory.ClearMappedRange(l, h);
      next := RemoveStep(ms, low, high, index);
      LoseRange(m, r, memory.view.mem, ms, ns, table.list, index, l, h);
    }

    method RemoveStep(ghost ms: seq<Mapping>, low: nat, high: nat, index: nat) returns (next: nat)
      requires table.Valid() && low < high && Aligned(low) && Aligned(high)
      requires Cutting(ms, table.list, low, high, index) && index < table.count && Meets(table.list[index], low, high)
      requires |ms| + SplitCount(ms, low, high, |ms|) <= MAP_CAPACITY
      modifies table`count, table`list, table.maps
      ensures table.Valid()
      ensures Cutting(ms, table.list, low, high, next)
      ensures Free(table.list, low, high, -1) || next + old(table.count) > index + table.count
      ensures var m := old(table.list)[index]; CutOut(old(table.list), table.list, Low(m, low), High(m, high))
      ensures Stepped(old(table.list), table.list, low, high, index, next)
    {
      var mapping := table.maps[index];
      if low <= mapping.address && high >= mapping.end {
        RemoveWhole(ms, table.list, low, high, index);
        table.Remove(index);
        return index;
      }
      if low <= mapping.address {
        RemoveFront(ms, table.list, low, high, index);
        table.Put(index, Later(mapping, high));
        return index + 1;
      }
      if high >= mapping.end {
        RemoveBack(ms, table.list, low, high, index);
        table.Put(index, Earlier(mapping, low));
        return index + 1;
      }
      RemoveMiddle(ms, table.list, low, high, index);
      CutBack(table.list, index, low);
      OthersMiss(table.list, low, high, index);
      table.Put(index, Earlier(mapping, low));
      table.Append(Later(mapping, high));
      return index + 1;
    }

    method AnonymousUnmap(address: nat, length: nat) returns (r: int)
      requires Valid()
      modifies table`count, table`list, table.maps, memory`view, memory.arena`contents, memory.arena.bytes
      ensures Valid() && OnlyFor(old(memory.arena.contents), memory.arena.contents, memory.arena.base, memory,
                                 memory.arena.imageTop)
      ensures r == UnmapAnswer(old(table.list), memory.top, address, length)
      ensures r != 0 ==> State() == old(State())
      ensures r == 0 ==> RangeUnmapped(old(State()), State(), address, address + PageUp(length))
      ensures r == 0 && EndsExactly(old(table.list), address, address + PageUp(length)) ==>
        table.list == Mappings.Without(old(table.list), |old(table.list)| - 1)
    {
      OnlyForNothing(memory.arena.contents, memory.arena.base, memory, memory.arena.imageTop);
      if length == 0 || !Aligned(address) || address >= memory.top || length > memory.top - address { return -22; }
      var size := PageUp(length);
      if size == 0 || size > memory.top - address { return -22; }
      var end := address + size;
      var hit, splits := CountSplits(address, end);
      if !hit { return NOT_OWNED; }
      if splits > MAP_CAPACITY - table.count { return -12; }
      RemoveRange(address, end);
      UnmapKeepsSound(old(State()), State(), address, end);
      return 0;
    }

    method RemoveRange(low: nat, high: nat)
      requires Ready() && low < high && Aligned(low) && Aligned(high)
      requires |table.list| + SplitCount(table.list, low, high, |table.list|) <= MAP_CAPACITY
      modifies table`count, table`list, table.maps, memory`view, memory.arena`contents, memory.arena.bytes
      ensures Ready() && OnlyFor(old(memory.arena.contents), memory.arena.contents, memory.arena.base, memory,
                                 memory.arena.imageTop)
      ensures RangeUnmapped(old(State()), State(), low, high)
      ensures EndsExactly(old(table.list), low, high) ==>
              table.list == Mappings.Without(old(table.list), |old(table.list)| - 1)
    {
      OnlyForNothing(memory.arena.contents, memory.arena.base, memory, memory.arena.imageTop);
      ghost var ms, m := table.list, memory.view.mem;
      CuttingStart(ms, low, high);
      var index := 0;
      while index < table.count
        invariant Ready() &&
                  OnlyFor(old(memory.arena.contents), memory.arena.contents, memory.arena.base, memory,
                          memory.arena.imageTop)
        invariant 0 <= index <= table.count && Cutting(ms, table.list, low, high, index)
        invariant LostAreZero(m, memory.view.mem, ms, table.list)
        invariant Nearing(ms, table.list, low, high, index)
        decreases !Free(table.list, low, high, -1), table.count - index
      {
        ghost var c, ns, i := memory.arena.contents, table.list, index;
        index := UnmapStep(ms, m, low, high, index);
        NearingStep(ms, ns, table.list, low, high, i, index);
        OnlyForTransitive(old(memory.arena.contents), c, memory.arena.contents, memory.arena.base, memory,
                          memory.arena.imageTop);
      }
      CuttingDone(ms, table.list, low, high);
      CutMemory(old(State()), State(), low, high);
    }

    // --- mmap

    method MappingConflict(address: nat, end: nat, except: int) returns (conflict: bool)
      requires table.Valid()
      ensures conflict <==> !Placeable(State(), address, end, except)
    {
      if address < PageUp(brk + MAP_GUARD) || end <= address || end > memory.top ||
         stackBottom <= MAP_GUARD || end >= stackBottom - MAP_GUARD { return true; }
      conflict := table.AnyMeets(address, end, except);
    }

    method CanPlace(ghost s: Space, candidate: nat, size: nat) returns (ok: bool)
      requires table.Valid() && s == State()
      ensures ok <==> Fits(s, candidate, size)
    {
      if candidate > memory.top || size > memory.top - candidate { return false; }
      var conflict := MappingConflict(candidate, candidate + size, -1);
      ok := !conflict;
    }

    method First(ghost s: Space, size: nat) returns (candidate: nat)
      requires s == State() && Aligned(mapNext)
      ensures candidate == FirstCandidate(s, size) && Aligned(candidate)
    {
      var minimum := PageUp(brk + MAP_SPACING);
      candidate := mapNext;
      if candidate < minimum || candidate > memory.top || size > memory.top - candidate { candidate := minimum; }
    }

    method Search(ghost s: Space, size: nat) returns (candidate: nat, ok: bool)
      requires table.Valid() && s == State() && Aligned(mapNext) && size > 0
      ensures if ok then Found(s, size, candidate) && Aligned(candidate) else NothingFound(s, size)
    {
      candidate := First(s, size);
      ghost var first := candidate;
      var attempts := 0;
      ok := CanPlace(s, candidate, size);
      while attempts <= MAP_CAPACITY && !ok
        invariant 0 <= attempts <= MAP_CAPACITY + 1 && candidate == Try(first, attempts) && Aligned(candidate)
        invariant ok <==> Fits(s, candidate, size)
        invariant NoneFits(s, size, first, attempts)
        decreases MAP_CAPACITY + 1 - attempts, !ok
      {
        if candidate > memory.top - MAP_SPACING {
          TooHigh(s, size, first, attempts);
          return candidate, false;
        }
        NextTry(first, attempts);
        candidate := PageUp(candidate + MAP_SPACING);
        attempts := attempts + 1;
        ok := CanPlace(s, candidate, size);
      }
      if ok { assert FoundAfter(s, size, candidate, attempts); }
    }

    /** Check the arguments of mmap and choose a place; nothing changes yet. */
    method ChoosePlace(ghost s: Space, address: nat, length: nat, protection: nat, flags: nat) returns (r: int)
      requires table.Valid() && s == State() && Aligned(mapNext)
      ensures MapAnswer(s, address, length, protection, flags, r)
      ensures r >= 0 ==> 0 < length && Fits(s, r, PageUp(length)) && Aligned(r) && table.count < MAP_CAPACITY
    {
      var top := memory.top;
      if length == 0 || length > top || protection > 7 || flags > 0x7fff_ffff { return -22; }
      if !Bit(flags, 0x20) || (flags % 4 != 1 && flags % 4 != 2) || !KnownFlags(flags) { return -22; }
      var size := PageUp(length);
      if size == 0 || size > top { return -12; }
      var candidate, ok := address, false;
      if Fixed(flags) {
        if !Aligned(candidate) { return -12; }
        ok := CanPlace(s, candidate, size);
        if !ok { return -12; }
      } else {
        candidate := Hint(top, candidate);
        if candidate != 0 { ok := CanPlace(s, candidate, size); }
        if !ok { candidate, ok := Search(s, size); }
        if !ok { return -12; }
      }
      if table.count >= MAP_CAPACITY { return -12; }
      r := candidate;
    }

    method AnonymousMap(address: nat, length: nat, protection: nat, flags: nat) returns (r: int)
      requires Valid()
      modifies this`mapNext, table`count, table`list, table.maps, memory`view, memory.arena`contents, memory.arena.bytes
      ensures Valid() && OnlyFor(old(memory.arena.contents), memory.arena.contents, memory.arena.base, memory,
                                 memory.arena.imageTop)
      ensures MapAnswer(old(State()), address, length, protection, flags, r)
      ensures r < 0 ==> State() == old(State())
      ensures r >= 0 ==> RangeMapped(old(State()), State(), Mapping(r, r + PageUp(length), protection, flags, -1, 0, 0))
    {
      OnlyForNothing(memory.arena.contents, memory.arena.base, memory, memory.arena.imageTop);
      ghost var s := State();
      r := ChoosePlace(s, address, length, protection, flags);
      if r >= 0 { Establish(s, r, PageUp(length), protection, flags); }
    }

    /** Enter a mapping whose place was found free. */
    method Establish(ghost s: Space, candidate: nat, size: nat, protection: nat, flags: nat)
      requires Valid() && s == State() && Fits(s, candidate, size) && 0 < size && Aligned(candidate) && Aligned(size)
      requires table.count < MAP_CAPACITY
      modifies this`mapNext, table`count, table`list, table.maps, memory`view, memory.arena`contents, memory.arena.bytes
      ensures Valid() && OnlyFor(old(memory.arena.contents), memory.arena.contents, memory.arena.base, memory,
                                 memory.arena.imageTop)
      ensures RangeMapped(s, State(), Mapping(candidate, candidate + size, protection, flags, -1, 0, 0))
    {
      var m := Mapping(candidate, candidate + size, protection, flags, -1, 0, 0);
      MapDisjoint(s, m);
      MapKeepsSound(s, Enlarged(s, m), m);
      memory.ClearMappedRange(candidate, candidate + size);
      assert memory.view.mem == s.mem;
      table.Append(m);
      var next := PageUp(candidate + size);
      if next > mapNext { mapNext := next; }
      assert State() == Enlarged(s, m);
    }

    // --- mprotect

    method Protect(address: nat, length: nat, protection: nat) returns (r: int)
      requires Valid()
      modifies table`count, table`list, table.maps
      ensures Valid()
      ensures r == ProtectAnswer(old(table.list), memory.top, address, length, protection)
      ensures r != 0 ==> State() == old(State())
      ensures r == 0 ==> RangeProtected(old(State()), State(), address, address + PageUp(length), protection)
    {
      r := table.Protect(memory.top, address, length, protection);
      if r == 0 { ProtectKeepsSound(old(State()), State(), address, address + PageUp(length), protection); }
    }

    // --- brk

    method BreakCollides(requested: nat) returns (collision: bool)
      requires table.Valid()
      ensures !collision <==> forall i :: 0 <= i < |table.list| ==> requested + MAP_GUARD < table.list[i].address
    {
      collision := false;
      var index := 0;
      while index < table.count
        invariant 0 <= index <= table.count
        invariant !collision <==> forall i :: 0 <= i < index ==> requested + MAP_GUARD < table.list[i].address
      {
        var start := table.maps[index].address;
        if start <= MAP_GUARD || requested >= start - MAP_GUARD { collision := true; }
        index := index + 1;
      }
    }

    method ProgramBreak(requested: nat) returns (r: nat)
      requires Valid()
      modifies this`brk, memory`view, memory.arena`contents, memory.arena.bytes
      ensures Valid() && OnlyFor(old(memory.arena.contents), memory.arena.contents, memory.arena.base, memory,
                                 memory.arena.imageTop)
      ensures r == brk
      ensures if requested != 0 && BreakAllowed(old(State()), requested) then
              BreakMoved(old(State()), State(), requested)
              else State() == old(State())
    {
      OnlyForNothing(memory.arena.contents, memory.arena.base, memory, memory.arena.imageTop);
      if requested == 0 { return brk; }
      ghost var s := State();
      var collision := BreakCollides(requested);
      if requested < brkBase || stackBottom == 0 || requested >= stackBottom ||
         stackBottom - requested <= MAP_GUARD || collision { return brk; }
      BreakKeepsSound(s, Rebroken(s, requested), requested);
      if requested < brk { memory.ClearMappedRange(requested, brk); }
      brk := requested;
      assert State() == Rebroken(s, requested);
      r := requested;
    }

    // --- mremap

    /** The mapping that is exactly [low, high), or the count if there is none. */
    method FindExact(low: nat, high: nat) returns (found: nat)
      requires table.Valid()
      ensures found <= table.count
      ensures found < table.count ==> Exactly(table.list, found, low, high)
      ensures found == table.count ==> NoneExactly(table.list, low, high)
    {
      found := table.count;
      var index := 0;
      while index < table.count
        invariant 0 <= index <= table.count && found <= table.count
        invariant found < table.count ==> Exactly(table.list, found, low, high)
        invariant found == table.count ==> forall i :: 0 <= i < index ==> !Exactly(table.list, i, low, high)
      {
        var m := table.maps[index];
        if m.address == low && m.end == high && m.backing == 0 { found := index; }
        index := index + 1;
      }
    }

    /** Change the end of one mapping, clearing what it loses or gains. */
    method Resize(ghost s: Space, index: nat, end: nat)
      requires Valid() && s == State() && index < table.count && Aligned(end) && s.list[index].address < end
      requires end > s.list[index].end ==> Placeable(s, s.list[index].address, end, index)
      modifies this`mapNext, table`list, table.maps, memory`view, memory.arena`contents, memory.arena.bytes
      ensures Valid() && OnlyFor(old(memory.arena.contents), memory.arena.contents, memory.arena.base, memory,
                                 memory.arena.imageTop)
      ensures RangeResized(s, State(), index, end)
    {
      var m := table.maps[index];
      ResizeKeepsSound(s, Reended(s, index, end), index, end);
      if end < m.end {
        memory.ClearMappedRange(end, m.end);
      } else {
        memory.ClearMappedRange(m.end, end);
        assert memory.view.mem == s.mem == Zeroed(s.mem, end, m.end);
      }
      table.Put(index, Earlier(m, end));
      if end > mapNext { mapNext := end; }
      assert State() == Reended(s, index, end);
    }

    /** Remove one whole mapping. */
    method UnmapWhole(ghost s: Space, index: nat, m: Mapping) returns (r: int)
      requires Valid() && s == State() && index < table.count && s.list[index] == m
      modifies table`count, table`list, table.maps, memory`view, memory.arena`contents, memory.arena.bytes
      ensures Valid() && OnlyFor(old(memory.arena.contents), memory.arena.contents, memory.arena.base, memory,
                                 memory.arena.imageTop)
      ensures r == 0 && RangeUnmapped(s, State(), m.address, m.end)
      ensures index == |s.list| - 1 ==> State().list == Mappings.Without(s.list, index)
    {
      ExactUnmap(s, index, m, m.end - m.address);
      r := AnonymousUnmap(m.address, m.end - m.address);
    }

    /** Take back the new mapping after a failed copy. */
    method Undo(ghost s: Space, ghost s1: Space, ghost s2: Space, n: Mapping)
      requires Valid() && s2 == State() && Abandoned(s, s1, s2, n)
      modifies table`count, table`list, table.maps, memory`view, memory.arena`contents, memory.arena.bytes
      ensures Valid() && OnlyFor(old(memory.arena.contents), memory.arena.contents, memory.arena.base, memory,
                                 memory.arena.imageTop)
      ensures Restored(s, State())
    {
      var _ := UnmapWhole(s2, table.count - 1, n);
      MoveUndone(s, s1, s2, State(), n);
    }

    /** Give up the old mapping after a successful copy. */
    method Commit(ghost s: Space, ghost s1: Space, ghost s2: Space, index: nat, m: Mapping, ghost n: Mapping)
      returns (ok: bool)
      requires Valid() && s2 == State() && Arrived(s, s1, s2, index, n) && s.list[index] == m
      modifies table`count, table`list, table.maps, memory`view, memory.arena`contents, memory.arena.bytes
      ensures Valid() && OnlyFor(old(memory.arena.contents), memory.arena.contents, memory.arena.base, memory,
                                 memory.arena.imageTop)
      ensures ok && RangeMoved(s, State(), m, n.address, n.end - n.address)
    {
      var removed := UnmapWhole(s2, index, m);
      MoveDone(s, s1, s2, State(), index, n);
      ok := removed == 0;
    }

    /** Fill the new place of a mapping, then give up the old one; or, when the
        copy fails, take the new mapping back. */
    method CopyOver(ghost s: Space, index: nat, m: Mapping, n: Mapping) returns (ok: bool)
      requires Valid() && Entered(s, State(), index, m, n)
      modifies table`count, table`list, table.maps
      modifies memory`view, memory`pageCount, memory.entries, memory.arena`next, memory.arena`contents,
               memory.arena.bytes
      ensures Valid() && OnlyFor(old(memory.arena.contents), memory.arena.contents, memory.arena.base, memory,
                                 memory.arena.imageTop)
      ensures if ok then RangeMoved(s, State(), m, n.address, n.end - n.address) else Restored(s, State())
    {
      ghost var s1, c1 := State(), memory.arena.contents;
      EnteredApart(s, s1, index, m, n);
      ok := memory.CopyAllocatedRange(m.address, n.address, m.end - m.address);
      ghost var s2, c2 := State(), memory.arena.contents;
      if ok {
        CopyArrived(s, s1, s2, index, m, n);
        ok := Commit(s, s1, s2, index, m, n);
      } else {
        CopyAbandoned(s, s1, s2, index, m, n);
        Undo(s, s1, s2, n);
      }
      OnlyForTransitive(c1, c2, memory.arena.contents, memory.arena.base, memory, memory.arena.imageTop);
    }

    /** Move a mapping to a larger place. */
    method Move(ghost s: Space, index: nat, size: nat) returns (r: int)
      requires Valid() && s == State() && index < table.count && s.list[index].end - s.list[index].address < size &&
               Aligned(size)
      modifies this`mapNext, table`count, table`list, table.maps
      modifies memory`view, memory`pageCount, memory.entries, memory.arena`next, memory.arena`contents,
               memory.arena.bytes
      ensures Valid() && OnlyFor(old(memory.arena.contents), memory.arena.contents, memory.arena.base, memory,
                                 memory.arena.imageTop)
      ensures MoveAnswer(s, State(), index, size, r)
    {
      var m := table.maps[index];
      r := AnonymousMap(0, size, m.protection, Loosened(m.flags));
      MapForMove(s, State(), index, m, size, r);
      if r < 0 { return r; }
      ghost var c := memory.arena.contents;
      var ok := CopyOver(s, index, m, Mapping(r, r + size, m.protection, Loosened(m.flags), -1, 0, 0));
      OnlyForTransitive(old(memory.arena.contents), c, memory.arena.contents, memory.arena.base, memory,
                        memory.arena.imageTop);
      if !ok { r := -12; }
    }

    /** Give the mapping that is exactly [address, end) a new size. */
    method Remap(ghost s: Space, index: nat, address: nat, end: nat, newSize: nat, mayMove: bool) returns (r: int)
      requires Valid() && s == State() && index < table.count && Exactly(s.list, index, address, end) && 0 < newSize &&
               Aligned(newSize)
      modifies this`mapNext, table`count, table`list, table.maps
      modifies memory`view, memory`pageCount, memory.entries, memory.arena`next, memory.arena`contents,
               memory.arena.bytes
      ensures Valid() && OnlyFor(old(memory.arena.contents), memory.arena.contents, memory.arena.base, memory,
                                 memory.arena.imageTop)
      ensures Remapped(s, State(), index, newSize, mayMove, r)
    {
      OnlyForNothing(memory.arena.contents, memory.arena.base, memory, memory.arena.imageTop);
      assert Tidy(s.list[index]);
      if newSize == end - address { return address; }
      if newSize < end - address {
        Resize(s, index, address + newSize);
        return address;
      }
      var conflict := MappingConflict(address, address + newSize, index);
      if !conflict {
        Resize(s, index, address + newSize);
        return address;
      }
      if !mayMove { return -12; }
      r := Move(s, index, newSize);
    }

    method RemapAnonymous(address: nat, oldLength: nat, newLength: nat, flags: nat, fixedAddress: nat) returns (r: int)
      requires Valid()
      modifies this`mapNext, table`count, table`list, table.maps
      modifies memory`view, memory`pageCount, memory.entries, memory.arena`next, memory.arena`contents,
               memory.arena.bytes
      ensures Valid() && OnlyFor(old(memory.arena.contents), memory.arena.contents, memory.arena.base, memory,
                                 memory.arena.imageTop)
      ensures RemapAnswer(old(State()), State(), address, oldLength, newLength, flags, fixedAddress, r)
    {
      ghost var s := State();
      OnlyForNothing(memory.arena.contents, memory.arena.base, memory, memory.arena.imageTop);
      var top := memory.top;
      if !Aligned(address) || oldLength == 0 || newLength == 0 || oldLength > top || newLength > top || flags > 1 ||
         fixedAddress != 0 {
        return -22;
      }
      var oldSize, newSize := PageUp(oldLength), PageUp(newLength);
      if oldSize == 0 || newSize == 0 || address > top || oldSize > top - address { return -22; }
      var found := FindExact(address, address + oldSize);
      if found == table.count { return NOT_OWNED; }
      r := Remap(s, found, address, address + oldSize, newSize, flags == 1);
    }

    // --- permitted access

    method SegmentFor(low: nat, high: nat) returns (found: nat)
      ensures if found < |segments| then FirstSegment(segments, found, low, high)
              else found == |segments| && NoSegment(segments, low, high)
    {
      found := 0;
      while found < |segments|
        invariant 0 <= found <= |segments|
        invariant forall j :: 0 <= j < found ==> !SegmentHolds(segments, j, low, high)
      {
        if low >= segments[found].address && high <= segments[found].end { return found; }
        found := found + 1;
      }
    }

    method MappingFor(low: nat, high: nat) returns (found: nat)
      requires table.Valid()
      ensures if found < table.count then FirstMapping(table.list, found, low, high)
              else found == table.count && forall j :: 0 <= j < |table.list| ==> !MappingHolds(table.list, j, low, high)
    {
      found := 0;
      while found < table.count
        invariant 0 <= found <= table.count
        invariant forall j :: 0 <= j < found ==> !MappingHolds(table.list, j, low, high)
      {
        if low >= table.maps[found].address && high <= table.maps[found].end { return found; }
        found := found + 1;
      }
    }

    method GuestAllowed(address: nat, size: nat, permission: nat) returns (ok: bool)
      requires table.Valid()
      ensures ok <==> Allowed(State(), address, size, permission)
    {
      if address >= memory.top || size > memory.top - address { return false; }
      var end := address + size;
      var segment := SegmentFor(address, end);
      if segment < |segments| {
        assert SegmentHolds(segments, segment, address, end);
        return Grants(segments[segment].flags, permission);
      }
      if Bit(permission, EXECUTE) { return false; }
      if stackBottom != 0 && address >= stackBottom && end <= memory.top { return true; }
      if brkBase != 0 && address >= brkBase && end <= brk { return true; }
      var mapping := MappingFor(address, end);
      ok := mapping < table.count && Grants(table.maps[mapping].protection, permission);
    }

    /** A store instruction of the program: all its bytes, or a fault. */
    method StoreInteger(address: nat, value: nat, size: nat) returns (ok: bool)
      requires Valid()
      modifies memory`view, memory`pageCount, memory.entries, memory.arena`next, memory.arena`contents,
               memory.arena.bytes
      ensures Valid() && OnlyFor(old(memory.arena.contents), memory.arena.contents, memory.arena.base, memory,
                                 memory.arena.imageTop)
      ensures State() == old(State()).(mem := memory.view.mem)
      ensures ok <==> Allowed(old(State()), address, size, WRITE) && Framed(memory.view, address, address + size)
      ensures ok ==> Deposited(old(memory.view.mem), memory.view.mem, address, value, size)
      ensures !Allowed(old(State()), address, size, WRITE) ==> !ok && memory.view.mem == old(memory.view.mem)
      ensures ChangedWithin(old(memory.view.mem), memory.view.mem, address, address + size)
    {
      ghost var s := State();
      OnlyForNothing(memory.arena.contents, memory.arena.base, memory, memory.arena.imageTop);
      var allowed := GuestAllowed(address, size, WRITE);
      if !allowed { return false; }
      AllowedInUse(s, address, size, WRITE);
      ok := memory.StoreWord(address, value, size);
      StoreKeepsSound(s, State(), address, address + size);
    }

    /** A load instruction of the program. */
    method LoadInteger(address: nat, size: nat) returns (ok: bool, value: nat)
      requires Valid()
      ensures ok <==> Allowed(State(), address, size, READ)
      ensures ok ==> value == if size > 0 && memory.AllReadable(address, size) then
              Value(memory.view.mem, address, size) else 0
      ensures !ok ==> value == 0
    {
      ok := GuestAllowed(address, size, READ);
      if !ok { return false, 0; }
      value := memory.LoadWord(address, size);
    }
  }
}
