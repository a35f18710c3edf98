/** The address space of one process as a value, and what each memory system
    call does to it, address by address. */
module Spaces {
  import opened Frames
  import opened Mappings
  import opened MapCutting
  import opened MapProtecting
  import opened MapTables

  datatype Segment = Segment(address: nat, end: nat, flags: nat, nameHash: nat, nameLength: nat)

  datatype Space = Space(list: seq<Mapping>, brkBase: nat, brk: nat, stack: nat, top: nat, mapNext: nat,
                         segments: seq<Segment>, mem: seq<Byte>)

  ghost predicate InSegment(segments: seq<Segment>, a: int) {
    exists i :: 0 <= i < |segments| && segments[i].address <= a < segments[i].end
  }

  /** Addresses a program may have bytes at. */
  ghost predicate InUse(s: Space, a: int) {
    || InSegment(s.segments, a)
    || s.brkBase <= a < s.brk
    || (s.stack != 0 && s.stack <= a < s.top)
    || Owned(s.list, a)
  }

  /** Mappings keep 1 MiB away from the break and from the stack. */
  ghost predicate Guarded(list: seq<Mapping>, brk: nat, stack: nat, top: nat, mapNext: nat) {
    forall i :: 0 <= i < |list| ==>
      brk + MAP_GUARD <= list[i].address && list[i].end + MAP_GUARD < stack && list[i].end <= top &&
          list[i].end <= mapNext
  }

  ghost predicate Clean(s: Space) {
    |s.mem| == SPACE && forall a {:trigger s.mem[a]} :: 0 <= a < SPACE && s.mem[a] != 0 ==> InUse(s, a)
  }

  ghost predicate Sound(s: Space) {
    match s
    case Space(list, brkBase, brk, stack, top, mapNext, segments, mem) =>
      && Disjoint(list) && |list| <= MAP_CAPACITY
      && Guarded(list, brk, stack, top, mapNext)
      && Aligned(mapNext)
      && brkBase <= brk <= SPACE && top < SPACE && stack <= top
      && (forall i :: 0 <= i < |segments| ==> segments[i].end <= brkBase)
      && Clean(s)
  }

  // --- munmap

  ghost predicate RangeUnmapped(s: Space, t: Space, low: nat, high: nat) {
    match s
    case Space(_, _, _, _, _, _, _, _) =>
      && t == s.(list := t.list, mem := t.mem) && |t.mem| == |s.mem|
      && CutOut(s.list, t.list, low, high)
      && forall a {:trigger t.mem[a]} :: 0 <= a < |s.mem| ==>
           t.mem[a] == if low <= a < high && Owned(s.list, a) then 0 else s.mem[a]
  }

  lemma CutMemory(s: Space, t: Space, low: nat, high: nat)
    requires t == s.(list := t.list, mem := t.mem)
    requires CutOut(s.list, t.list, low, high) && LostAreZero(s.mem, t.mem, s.list, t.list)
    ensures RangeUnmapped(s, t, low, high)
  {
  }

  lemma GuardedShrinks(list: seq<Mapping>, rest: seq<Mapping>, brk: nat, stack: nat, top: nat, mapNext: nat)
    requires Guarded(list, brk, stack, top, mapNext) && Disjoint(rest)
    requires forall a :: Owned(rest, a) ==> Owned(list, a)
    ensures Guarded(rest, brk, stack, top, mapNext)
  {
    forall i | 0 <= i < |rest|
      ensures brk + MAP_GUARD <= rest[i].address && rest[i].end + MAP_GUARD < stack && rest[i].end <= top &&
              rest[i].end <= mapNext
    {
      assert Has(rest[i], rest[i].address) && Has(rest[i], rest[i].end - 1);
      assert Owned(rest, rest[i].address) && Owned(rest, rest[i].end - 1);
    }
  }

  lemma UnmapKeepsSound(s: Space, t: Space, low: nat, high: nat)
    requires Sound(s) && RangeUnmapped(s, t, low, high) && Disjoint(t.list) && |t.list| <= MAP_CAPACITY
    ensures Sound(t)
  {
    forall a ensures Owned(t.list, a) <==> Owned(s.list, a) && !(low <= a < high) {
      assert Owner(t.list, a) == if low <= a < high then None else Owner(s.list, a);
    }
    GuardedShrinks(s.list, t.list, s.brk, s.stack, s.top, s.mapNext);
    forall a {:trigger t.mem[a]} | 0 <= a < SPACE && t.mem[a] != 0 ensures InUse(t, a) {
      assert s.mem[a] != 0;
    }
  }

  // --- mprotect

  ghost predicate RangeProtected(s: Space, t: Space, low: nat, high: nat, protection: nat) {
    match s
    case Space(_, _, _, _, _, _, _, _) =>
      t == s.(list := t.list) && Repainted(s.list, t.list, low, high, protection)
  }

  lemma ProtectKeepsSound(s: Space, t: Space, low: nat, high: nat, protection: nat)
    requires Sound(s) && RangeProtected(s, t, low, high, protection) && Disjoint(t.list) && |t.list| <= MAP_CAPACITY
    ensures Sound(t)
  {
    forall a ensures Owned(t.list, a) <==> Owned(s.list, a) {
      assert Owner(t.list, a) == if low <= a < high then Repaint(Owner(s.list, a), protection) else Owner(s.list, a);
    }
    GuardedShrinks(s.list, t.list, s.brk, s.stack, s.top, s.mapNext);
    forall a {:trigger t.mem[a]} | 0 <= a < SPACE && t.mem[a] != 0 ensures InUse(t, a) {
      assert s.mem[a] != 0;
    }
  }

  // --- mmap

  /** May a mapping of these addresses be made?  `except` is a mapping number to ignore. */
  ghost predicate Placeable(s: Space, low: nat, high: nat, except: int) {
    match s
    case Space(list, _, brk, stack, top, _, _, _) =>
      && PageUp(brk + MAP_GUARD) <= low < high <= top
      && high + MAP_GUARD < stack
      && Free(list, low, high, except)
  }

  ghost function Enlarged(s: Space, m: Mapping): Space {
    s.(list := s.list + [m], mapNext := if m.end > s.mapNext then m.end else s.mapNext)
  }

  /** The new mapping is the only change: its bytes are zero as they were. */
  ghost predicate RangeMapped(s: Space, t: Space, m: Mapping) {
    match s
    case Space(_, _, _, _, _, _, _, _) =>
      && t == Enlarged(s, m)
      && forall a {:trigger t.mem[a]} :: m.address <= a < m.end && a < |t.mem| ==> t.mem[a] == 0
  }

  lemma MapDisjoint(s: Space, m: Mapping)
    requires Sound(s) && Tidy(m) && Placeable(s, m.address, m.end, -1)
    ensures Disjoint(s.list + [m])
  {
    forall i | 0 <= i < |s.list| ensures Mappings.Apart(s.list[i], m) {
      assert !Meets(s.list[i], m.address, m.end);
    }
    AppendDisjoint(s.list, m);
  }

  lemma MapKeepsSound(s: Space, t: Space, m: Mapping)
    requires Sound(s) && t == Enlarged(s, m) && Tidy(m) && Placeable(s, m.address, m.end, -1) &&
             |t.list| <= MAP_CAPACITY
    ensures Sound(t)
    ensures forall a :: m.address <= a < m.end ==> !InUse(s, a) && s.mem[a] == 0
  {
    MapDisjoint(s, m);
    forall a ensures Owned(t.list, a) <==> Owned(s.list, a) || Has(m, a) {
      OwnerAppended(s.list, m, a);
    }
    forall a {:trigger t.mem[a]} | 0 <= a < SPACE && t.mem[a] != 0 ensures InUse(t, a) {
      assert s.mem[a] != 0;
    }
    forall a | m.address <= a < m.end ensures !InUse(s, a) && s.mem[a] == 0 {
      assert forall i :: 0 <= i < |s.list| ==> !Meets(s.list[i], m.address, m.end);
    }
  }

  // --- growing or shrinking one mapping in place

  ghost function Reended(s: Space, index: nat, end: nat): Space
    requires index < |s.list|
  {
    s.(list := s.list[index := Earlier(s.list[index], end)], mem := Zeroed(s.mem, end, s.list[index].end),
       mapNext := if end > s.mapNext then end else s.mapNext)
  }

  /** The mapping ends at `end`: what it gave up is zero, and so is what it gained. */
  ghost predicate RangeResized(s: Space, t: Space, index: nat, end: nat) {
    match s
    case Space(_, _, _, _, _, _, _, _) =>
      && index < |s.list| && t == Reended(s, index, end)
      && forall a {:trigger t.mem[a]} :: s.list[index].end <= a < end && a < |t.mem| ==> t.mem[a] == 0
  }

  lemma ResizeKeepsSound(s: Space, t: Space, index: nat, end: nat)
    requires Sound(s) && index < |s.list| && t == Reended(s, index, end) && Aligned(end) && s.list[index].address < end
    requires end > s.list[index].end ==> Placeable(s, s.list[index].address, end, index)
    ensures Sound(t) && RangeResized(s, t, index, end)
    ensures forall a :: s.list[index].end <= a < end ==> !InUse(s, a) && s.mem[a] == 0
  {
    var m := s.list[index];
    var n := Earlier(m, end);
    forall i | 0 <= i < |s.list| && i != index ensures Mappings.Apart(s.list[i], n) {
      assert Mappings.Apart(s.list[i], m);
      assert end > m.end ==> !Meets(s.list[i], m.address, end);
    }
    assert Disjoint(t.list);
    forall a ensures Owned(t.list, a) <==> Has(n, a) || (Owned(s.list, a) && !Has(m, a)) {
      OwnerUpdated(s.list, index, n, a);
    }
    forall a {:trigger t.mem[a]} | 0 <= a < SPACE && t.mem[a] != 0 ensures InUse(t, a) {
      assert s.mem[a] != 0;
    }
    forall a | m.end <= a < end ensures !InUse(s, a) && s.mem[a] == 0 {
      forall i | 0 <= i < |s.list| ensures !Has(s.list[i], a) {
        assert i != index ==> !Meets(s.list[i], m.address, end);
      }
    }
  }

  // --- brk

  ghost predicate BreakAllowed(s: Space, requested: nat) {
    && s.brkBase <= requested && requested + MAP_GUARD < s.stack
    && forall i :: 0 <= i < |s.list| ==> requested + MAP_GUARD < s.list[i].address
  }

  ghost function Rebroken(s: Space, requested: nat): Space {
    s.(brk := requested, mem := Zeroed(s.mem, requested, s.brk))
  }

  /** The break is where it was asked to be; what it gave up is zero, and so is
      what it gained. */
  ghost predicate BreakMoved(s: Space, t: Space, requested: nat) {
    match s
    case Space(_, _, _, _, _, _, _, _) =>
      t == Rebroken(s, requested) && forall a {:trigger t.mem[a]} :: s.brk <= a < requested && a < |t.mem| ==>
          t.mem[a] == 0
  }

  lemma BreakKeepsSound(s: Space, t: Space, requested: nat)
    requires Sound(s) && BreakAllowed(s, requested) && t == Rebroken(s, requested)
    ensures Sound(t) && BreakMoved(s, t, requested)
  {
    forall a {:trigger t.mem[a]} | 0 <= a < SPACE && t.mem[a] != 0 ensures InUse(t, a) {
      assert s.mem[a] != 0;
    }
    forall a {:trigger t.mem[a]} | s.brk <= a < requested ensures t.mem[a] == 0 {
      assert !InSegment(s.segments, a) && !Owned(s.list, a);
      assert t.mem[a] == s.mem[a];
    }
  }

  // --- stores

  /** Bytes changed only where the program may have bytes. */
  ghost predicate Stored(s: Space, t: Space, low: nat, high: nat) {
    match s
    case Space(_, _, _, _, _, _, _, _) =>
      && t == s.(mem := t.mem) && |t.mem| == |s.mem|
      && forall a {:trigger t.mem[a]} :: 0 <= a < |s.mem| && !(low <= a < high) ==> t.mem[a] == s.mem[a]
  }

  lemma StoreKeepsSound(s: Space, t: Space, low: nat, high: nat)
    requires Sound(s) && Stored(s, t, low, high) && forall a :: low <= a < high ==> InUse(s, a)
    ensures Sound(t)
  {
    forall a {:trigger t.mem[a]} | 0 <= a < SPACE && t.mem[a] != 0 ensures InUse(t, a) {
      assert !(low <= a < high) ==> t.mem[a] == s.mem[a];
      assert InUse(s, a);
    }
  }

  // --- the arguments and the answers of mmap

  predicate Bit(n: nat, weight: nat)
    requires weight > 0
  {
    n / weight % 2 == 1
  }

  const MAP_FIXED := 0x10
  const MAP_FIXED_NOREPLACE := 0x100000

  predicate Fixed(flags: nat) {
    Bit(flags, 0x10) || Bit(flags, 0x100000)
  }

  /** No flag bits are set but the two type bits and the three known flags. */
  predicate KnownFlags(flags: nat) {
    flags == flags % 4 + (if Bit(flags, 0x10) then 0x10 else 0) + (if Bit(flags, 0x20) then 0x20 else 0)
      + (if Bit(flags, 0x100000) then 0x100000 else 0)
  }

  /** An anonymous private or shared mapping of at least one byte. */
  predicate MapArguments(top: nat, length: nat, protection: nat, flags: nat) {
    && 0 < length <= top && protection <= 7 && flags <= 0x7fff_ffff
    && Bit(flags, 0x20) && (flags % 4 == 1 || flags % 4 == 2) && KnownFlags(flags)
  }

  /** The address hint, rounded up to a page; zero when rounding would pass the top. */
  function Hint(top: nat, address: nat): nat {
    if address == 0 || address > top - MAP_PAGE + 1 then 0 else PageUp(address)
  }

  ghost predicate Fits(s: Space, candidate: nat, size: nat) {
    Placeable(s, candidate, candidate + size, -1)
  }

  /** Where the search for a free place begins. */
  function FirstCandidate(s: Space, size: nat): nat {
    var minimum := PageUp(s.brk + MAP_SPACING);
    if s.mapNext < minimum || s.mapNext > s.top || size > s.top - s.mapNext then minimum else s.mapNext
  }

  function Try(first: nat, k: nat): nat {
    first + k * 0x1000000
  }

  ghost predicate NoneFits(s: Space, size: nat, first: nat, n: nat) {
    forall k :: 0 <= k < n ==> !Fits(s, Try(first, k), size)
  }

  /** The search tries places 16 MiB apart and gives up after MAP_CAPACITY + 2. */
  ghost predicate FoundAfter(s: Space, size: nat, at: int, k: nat) {
    && at == Try(FirstCandidate(s, size), k) && Fits(s, at, size)
    && NoneFits(s, size, FirstCandidate(s, size), k)
  }

  ghost predicate Found(s: Space, size: nat, at: int) {
    exists k :: 0 <= k < MAP_CAPACITY + 2 && FoundAfter(s, size, at, k)
  }

  ghost predicate NothingFound(s: Space, size: nat) {
    NoneFits(s, size, FirstCandidate(s, size), MAP_CAPACITY + 2)
  }

  lemma NextTry(first: nat, k: nat)
    requires Aligned(Try(first, k))
    ensures PageUp(Try(first, k) + MAP_SPACING) == Try(first, k + 1) && Aligned(Try(first, k + 1))
  {
    assert Try(first, k + 1) == Try(first, k) + MAP_SPACING;
    AlignedUp(Try(first, k + 1));
  }

  lemma AlignedUp(a: nat)
    requires Aligned(a)
    ensures PageUp(a) == a
  {
  }

  lemma TooHigh(s: Space, size: nat, first: nat, n: nat)
    requires Try(first, n) > s.top - MAP_SPACING && size > 0
    requires NoneFits(s, size, first, n + 1)
    ensures NoneFits(s, size, first, MAP_CAPACITY + 2)
  {
    forall k | n < k < MAP_CAPACITY + 2 ensures !Fits(s, Try(first, k), size) {
      assert Try(first, k) > s.top;
    }
  }

  /** What mmap answers: the address of the new mapping or an error. */
  ghost predicate MapAnswer(s: Space, address: nat, length: nat, protection: nat, flags: nat, r: int) {
    match s
    case Space(_, _, _, _, _, _, _, _) =>
      if !MapArguments(s.top, length, protection, flags) then r == -22
      else if PageUp(length) > s.top then r == -12
      else if Fixed(flags) then
        r == if Aligned(address) && Fits(s, address, PageUp(length)) && |s.list| < MAP_CAPACITY then address else -12
      else if Hint(s.top, address) != 0 && Fits(s, Hint(s.top, address), PageUp(length)) then
        r == if |s.list| < MAP_CAPACITY then Hint(s.top, address) else -12
      else if NothingFound(s, PageUp(length)) || |s.list| >= MAP_CAPACITY then r == -12
      else Found(s, PageUp(length), r)
  }

  // --- mremap

  predicate RemapArguments(top: nat, address: nat, oldLength: nat, newLength: nat, flags: nat, fixedAddress: nat) {
    && Aligned(address) && 0 < oldLength <= top && 0 < newLength <= top && flags <= 1 && fixedAddress == 0
    && address <= top && PageUp(oldLength) <= top - address
  }

  ghost predicate Exactly(list: seq<Mapping>, i: nat, low: nat, high: nat) {
    i < |list| && list[i].address == low && list[i].end == high && list[i].backing == 0
  }

  function Without(flags: nat, weight: nat): nat
    requires weight > 0
  {
    if Bit(flags, weight) then flags - weight else flags
  }

  /** Flags a moved mapping is made with: those it had, without the fixed ones. */
  function Loosened(flags: nat): nat {
    Without(Without(flags, MAP_FIXED), MAP_FIXED_NOREPLACE)
  }

  ghost function MovedByte(mem: seq<Byte>, m: Mapping, to: nat, size: nat, a: nat): Byte
    requires a < |mem|
  {
    if to <= a < to + (m.end - m.address) && a - to + m.address < |mem| then mem[a - to + m.address]
    else if to <= a < to + size || m.address <= a < m.end then 0
    else mem[a]
  }

  ghost function MovedOwner(list: seq<Mapping>, m: Mapping, to: nat, size: nat, a: int): Option<Rights> {
    if to <= a < to + size then Some(Rights(m.protection, Loosened(m.flags), -1, a - to, 0))
    else if m.address <= a < m.end then None
    else Owner(list, a)
  }

  /** The old bytes now lie at `to`, followed by zeros; the old range is zero and
      unowned; every other byte and every other owner is as before. */
  ghost predicate RangeMoved(s: Space, t: Space, m: Mapping, to: nat, size: nat) {
    match s
    case Space(_, _, _, _, _, _, _, _) =>
      && t == s.(list := t.list, mem := t.mem, mapNext := t.mapNext) && |t.mem| == |s.mem|
      && (forall a {:trigger t.mem[a]} :: 0 <= a < |s.mem| ==> t.mem[a] == MovedByte(s.mem, m, to, size, a))
      && (forall a :: Owner(t.list, a) == MovedOwner(s.list, m, to, size, a))
  }

  /** What mremap answers and does to a mapping that is `list[i]`. */
  ghost predicate Remapped(s: Space, t: Space, i: nat, size: nat, mayMove: bool, r: int)
    requires i < |s.list|
  {
    match s
    case Space(_, _, _, _, _, _, _, _) =>
      var m := s.list[i];
      if size == m.end - m.address then r == m.address && t == s
      else if size < m.end - m.address || Placeable(s, m.address, m.address + size, i) then
        r == m.address && RangeResized(s, t, i, m.address + size)
      else if !mayMove then r == -12 && t == s
      else MoveAnswer(s, t, i, size, r)
  }

  ghost predicate MoveAnswer(s: Space, t: Space, i: nat, size: nat, r: int)
    requires i < |s.list|
  {
    match s
    case Space(_, _, _, _, _, _, _, _) =>
      if r < 0 then Restored(s, t) && r == Refusal(s.top, s.list[i], size)
      else Found(s, size, r) && RangeMoved(s, t, s.list[i], r, size)
  }

  /** The answer when a mapping cannot be moved; its flags are checked again. */
  function Refusal(top: nat, m: Mapping, size: nat): int {
    if MapArguments(top, size, m.protection, Loosened(m.flags)) then -12 else -22
  }

  /** A mapping that mmap made keeps flags that pass: moving it is refused with -12. */
  lemma RefusedForRoom(top: nat, length: nat, protection: nat, m: Mapping, size: nat)
    requires MapArguments(top, length, protection, m.flags) && m.protection <= 7 && 0 < size <= top
    ensures Refusal(top, m, size) == -12
  {
  }

  lemma NoSplits(list: seq<Mapping>, i: nat, n: nat)
    requires Disjoint(list) && i < |list| && n <= |list|
    ensures SplitCount(list, list[i].address, list[i].end, n) == 0
  {
    if n > 0 {
      NoSplits(list, i, n - 1);
      assert i != n - 1 ==> Mappings.Apart(list[i], list[n - 1]);
    }
  }

  lemma WholePages(low: nat, high: nat)
    requires Aligned(low) && Aligned(high) && low <= high
    ensures PageUp(high - low) == high - low
  {
  }

  lemma ExactUnmap(s: Space, i: nat, m: Mapping, size: nat)
    requires Sound(s) && i < |s.list| && s.list[i] == m && size == m.end - m.address
    ensures UnmapAnswer(s.list, s.top, m.address, size) == 0
    ensures m.address + PageUp(size) == m.end
  {
    NoSplits(s.list, i, |s.list|);
    assert Tidy(s.list[i]);
    WholePages(m.address, m.end);
    assert !Free(s.list, m.address, m.end, -1) by {
      assert Meets(s.list[i], m.address, m.end);
    }
  }

  /** A move after its copy: mapped at the new place, the bytes are there too. */
  ghost predicate Arrived(s: Space, s1: Space, s2: Space, i: nat, n: Mapping) {
    match s
    case Space(_, _, _, _, _, _, _, _) =>
      && Sound(s) && Sound(s1) && i < |s.list| && s1 == Enlarged(s, n)
      && n == Mapping(n.address, n.end, s.list[i].protection, Loosened(s.list[i].flags), -1, 0, 0)
      && s.list[i].end - s.list[i].address <= n.end - n.address
      && s.list[i].end <= |s1.mem|
      && s2 == s1.(mem := Moved(s1.mem, n.address, s.list[i].address, s.list[i].end - s.list[i].address))
      && forall a :: n.address <= a < n.end && a < |s.mem| ==> s.mem[a] == 0
  }

  ghost predicate Moving(s: Space, s1: Space, s2: Space, t: Space, i: nat, n: Mapping) {
    match s
    case Space(_, _, _, _, _, _, _, _) =>
      Arrived(s, s1, s2, i, n) && RangeUnmapped(s2, t, s.list[i].address, s.list[i].end)
  }

  /** A move whose copy failed: mapped at the new place, bytes changed only there. */
  ghost predicate Abandoned(s: Space, s1: Space, s2: Space, n: Mapping) {
    match s
    case Space(_, _, _, _, _, _, _, _) =>
      && Sound(s) && Sound(s1) && s1 == Enlarged(s, n) && s2 == s1.(mem := s2.mem) && |s2.mem| == |s1.mem|
      && (forall a {:trigger s2.mem[a]} :: 0 <= a < |s.mem| && !(n.address <= a < n.end) ==> s2.mem[a] == s.mem[a])
      && forall a :: n.address <= a < n.end && a < |s.mem| ==> s.mem[a] == 0
  }

  /** The address space is as it was, but for where the next search begins. */
  ghost predicate Restored(s: Space, t: Space) {
    match s
    case Space(_, _, _, _, _, _, _, _) =>
      t == s.(mapNext := t.mapNext)
  }

  lemma MovedOwners(s: Space, s1: Space, s2: Space, t: Space, i: nat, n: Mapping, a: int)
    requires Moving(s, s1, s2, t, i, n)
    ensures Owner(t.list, a) == MovedOwner(s.list, s.list[i], n.address, n.end - n.address, a)
  {
    var m := s.list[i];
    assert Mappings.Apart(s1.list[i], s1.list[|s.list|]);
    OwnerAppended(s.list, n, a);
    assert Owner(t.list, a) == if m.address <= a < m.end then None else Owner(s1.list, a);
  }

  lemma MovedBytes(s: Space, s1: Space, s2: Space, t: Space, i: nat, n: Mapping, a: nat)
    requires Moving(s, s1, s2, t, i, n) && a < |s.mem|
    ensures |t.mem| == |s.mem| && t.mem[a] == MovedByte(s.mem, s.list[i], n.address, n.end - n.address, a)
  {
    var m := s.list[i];
    assert Mappings.Apart(s1.list[i], s1.list[|s.list|]);
    if m.address <= a < m.end { OwnerIs(s2.list, i, a); }
    assert t.mem[a] == if m.address <= a < m.end && Owned(s2.list, a) then 0 else s2.mem[a];
  }

  lemma MoveDone(s: Space, s1: Space, s2: Space, t: Space, i: nat, n: Mapping)
    requires Moving(s, s1, s2, t, i, n)
    ensures RangeMoved(s, t, s.list[i], n.address, n.end - n.address)
  {
    forall a ensures Owner(t.list, a) == MovedOwner(s.list, s.list[i], n.address, n.end - n.address, a) {
      MovedOwners(s, s1, s2, t, i, n, a);
    }
    forall a {:trigger t.mem[a]} | 0 <= a < |s.mem|
      ensures t.mem[a] == MovedByte(s.mem, s.list[i], n.address, n.end - n.address, a)
    {
      MovedBytes(s, s1, s2, t, i, n, a);
    }
  }

  lemma MoveUndone(s: Space, s1: Space, s2: Space, t: Space, n: Mapping)
    requires Abandoned(s, s1, s2, n) && RangeUnmapped(s2, t, n.address, n.end) && |s2.list| > 0
    requires t.list == Mappings.Without(s2.list, |s2.list| - 1)
    ensures Restored(s, t)
  {
    WithoutLast(s.list, n);
    forall a | 0 <= a < |s.mem| ensures t.mem[a] == s.mem[a] {
      if n.address <= a < n.end { OwnerIs(s1.list, |s.list|, a); }
    }
    assert t.mem == s.mem;
  }

  /** A move after mmap made the new mapping. */
  ghost predicate Entered(s: Space, s1: Space, i: nat, m: Mapping, n: Mapping) {
    match s
    case Space(_, _, _, _, _, _, _, _) =>
      && Sound(s) && i < |s.list| && m == s.list[i] && RangeMapped(s, s1, n)
      && n == Mapping(n.address, n.end, m.protection, Loosened(m.flags), -1, 0, 0)
      && m.end - m.address <= n.end - n.address
      && forall a :: n.address <= a < n.end && a < |s.mem| ==> s.mem[a] == 0
  }

  lemma EnteredApart(s: Space, s1: Space, i: nat, m: Mapping, n: Mapping)
    requires Entered(s, s1, i, m, n) && Sound(s1)
    ensures m.address < m.end <= n.address || n.address < n.end <= m.address < m.end
    ensures n.end <= s.top < SPACE == |s1.mem| && m.end <= s.top
    ensures s1.list[i] == m && s1.list[|s.list|] == n
    ensures forall a :: n.address <= a < n.end ==> s1.mem[a] == 0 && InUse(s1, a)
  {
    assert s1.list[i] == m && s1.list[|s.list|] == n;
    assert Tidy(m);
    assert Mappings.Apart(s1.list[i], s1.list[|s.list|]);
    forall a | n.address <= a < n.end ensures Owned(s1.list, a) { assert Has(s1.list[|s.list|], a); }
  }

  lemma CopyArrived(s: Space, s1: Space, s2: Space, i: nat, m: Mapping, n: Mapping)
    requires Entered(s, s1, i, m, n) && Sound(s1) && m.end <= |s1.mem|
    requires s2 == s1.(mem := Moved(s1.mem, n.address, m.address, m.end - m.address))
    ensures Arrived(s, s1, s2, i, n) && Sound(s2)
  {
    EnteredApart(s, s1, i, m, n);
    StoreKeepsSound(s1, s2, n.address, n.end);
  }

  lemma CopyAbandoned(s: Space, s1: Space, s2: Space, i: nat, m: Mapping, n: Mapping)
    requires Entered(s, s1, i, m, n) && Sound(s1)
    requires s2 == s1.(mem := s2.mem) && |s2.mem| == |s1.mem|
    requires forall a :: 0 <= a < SPACE && !(n.address <= a < n.address + (m.end - m.address)) && a < |s1.mem| ==>
             s2.mem[a] == s1.mem[a]
    ensures Abandoned(s, s1, s2, n) && Sound(s2) && |s.list| < |s2.list| && s2.list[|s2.list| - 1] == n
  {
    EnteredApart(s, s1, i, m, n);
    StoreKeepsSound(s1, s2, n.address, n.end);
  }

  lemma MapForMove(s: Space, s1: Space, i: nat, m: Mapping, size: nat, r: int)
    requires Sound(s) && i < |s.list| && m == s.list[i] && m.end - m.address < size && Aligned(size)
    requires MapAnswer(s, 0, size, m.protection, Loosened(m.flags), r)
    requires r < 0 ==> s1 == s
    requires r >= 0 ==> RangeMapped(s, s1, Mapping(r, r + PageUp(size), m.protection, Loosened(m.flags), -1, 0, 0))
    ensures PageUp(size) == size
    ensures if r < 0 then Restored(s, s1) && r == Refusal(s.top, m, size)
            else Refusal(s.top, m, size) == -12 && Found(s, size, r) &&
                 Entered(s, s1, i, m, Mapping(r, r + size, m.protection, Loosened(m.flags), -1, 0, 0))
  {
  }

  ghost predicate NoneExactly(list: seq<Mapping>, low: nat, high: nat) {
    forall i :: 0 <= i < |list| ==> !Exactly(list, i, low, high)
  }

  ghost predicate RemappedOne(s: Space, t: Space, low: nat, high: nat, size: nat, mayMove: bool, r: int) {
    exists i :: 0 <= i < |s.list| && Exactly(s.list, i, low, high) && Remapped(s, t, i, size, mayMove, r)
  }

  /** What mremap answers, and what it does when a mapping is exactly the old range. */
  ghost predicate RemapAnswer(s: Space, t: Space, address: nat, oldLength: nat, newLength: nat, flags: nat,
                              fixedAddress: nat, r: int) {
    if !RemapArguments(s.top, address, oldLength, newLength, flags, fixedAddress) then r == -22 && t == s
    else if NoneExactly(s.list, address, address + PageUp(oldLength)) then r == NOT_OWNED && t == s
    else RemappedOne(s, t, address, address + PageUp(oldLength), PageUp(newLength), flags == 1, r)
  }

  // --- what a program may touch

  const READ := 1
  const WRITE := 2
  const EXECUTE := 4

  /** All permission bits asked for are among those granted. */
  predicate Grants(granted: nat, asked: nat) {
    (Bit(asked, READ) ==> Bit(granted, READ)) && (Bit(asked, WRITE) ==> Bit(granted, WRITE)) &&
        (Bit(asked, EXECUTE) ==> Bit(granted, EXECUTE))
  }

  ghost predicate SegmentHolds(segments: seq<Segment>, i: nat, low: nat, high: nat) {
    i < |segments| && segments[i].address <= low && high <= segments[i].end
  }

  ghost predicate MappingHolds(list: seq<Mapping>, i: nat, low: nat, high: nat) {
    i < |list| && list[i].address <= low && high <= list[i].end
  }

  /** The first segment that holds the whole range decides, if there is one. */
  ghost predicate FirstSegment(segments: seq<Segment>, i: nat, low: nat, high: nat) {
    SegmentHolds(segments, i, low, high) && forall j :: 0 <= j < i ==> !SegmentHolds(segments, j, low, high)
  }

  ghost predicate FirstMapping(list: seq<Mapping>, i: nat, low: nat, high: nat) {
    MappingHolds(list, i, low, high) && forall j :: 0 <= j < i ==> !MappingHolds(list, j, low, high)
  }

  ghost predicate NoSegment(segments: seq<Segment>, low: nat, high: nat) {
    forall i :: 0 <= i < |segments| ==> !SegmentHolds(segments, i, low, high)
  }

  ghost predicate SegmentAllows(segments: seq<Segment>, low: nat, high: nat, asked: nat) {
    exists i :: 0 <= i < |segments| && FirstSegment(segments, i, low, high) && Grants(segments[i].flags, asked)
  }

  ghost predicate MappingAllows(list: seq<Mapping>, low: nat, high: nat, asked: nat) {
    exists i :: 0 <= i < |list| && FirstMapping(list, i, low, high) && Grants(list[i].protection, asked)
  }

  /** Segments first; without one, only data access to stack, heap and mappings. */
  ghost predicate Allowed(s: Space, low: nat, size: nat, asked: nat) {
    && low < s.top && size <= s.top - low
    && if !NoSegment(s.segments, low, low + size) then SegmentAllows(s.segments, low, low + size, asked)
       else
         && !Bit(asked, EXECUTE)
         && (|| (s.stack != 0 && s.stack <= low)
             || (s.brkBase != 0 && s.brkBase <= low && low + size <= s.brk)
             || MappingAllows(s.list, low, low + size, asked))
  }

  lemma AllowedInUse(s: Space, low: nat, size: nat, asked: nat)
    requires Allowed(s, low, size, asked)
    ensures forall a :: low <= a < low + size ==> InUse(s, a)
  {
    if !NoSegment(s.segments, low, low + size) {
      var i :| 0 <= i < |s.segments| && FirstSegment(s.segments, i, low, low + size);
      forall a | low <= a < low + size ensures InSegment(s.segments, a) {
        assert s.segments[i].address <= a < s.segments[i].end;
      }
    } else if MappingAllows(s.list, low, low + size, asked) {
      var i :| 0 <= i < |s.list| && FirstMapping(s.list, i, low, low + size);
      forall a | low <= a < low + size ensures Owned(s.list, a) { assert Has(s.list[i], a); }
    }
  }
}
