/** Physical arena and guest memory of the Teto kernel.

    The kernel keeps guest memory in 64 KiB frames found through a page table.
    The classes below work on the real arrays; their ghost `view`s say what the
    arrays mean, and every contract speaks of the flat memory `view.mem`. */
module GuestMemory {
  import opened Frames
  import opened PageTables
  import opened Ownership
  import opened RangeWork
  import opened Words

  /** Physical memory: guest frames grow upwards from `base`, the one live
      image reservation hangs down from `end`. */
  class Arena {
    const bytes: array<Byte>
    const base: nat
    const end: nat
    var next: nat
    var imageTop: nat
    var imageSize: nat
    var imageLock: bool
    ghost var contents: Contents

    ghost predicate Valid()
      reads this, bytes
    {
      && contents.bytes == bytes[..]
      && Start(base, |contents.use|) == next <= imageTop
      && imageTop + imageSize == end == |contents.bytes| <= 0x7fff_ffff
      && (imageLock <==> imageSize > 0)
    }

    constructor (size: nat, physical: nat)
      requires physical + PAGE_SIZE <= size <= 0x7fff_ffff
      ensures Valid() && fresh(bytes) && next == base == physical && imageTop == end == size && contents.use == []
    {
      bytes := new Byte[size](_ => 0);
      base, end, next, imageTop, imageSize, imageLock := physical, size, physical, size, 0, false;
      new;
      contents := Contents(bytes[..], []);
    }

    method Fill(at: nat, size: nat)
      requires Valid() && at + size <= |contents.bytes|
      modifies bytes, `contents
      ensures Valid() && contents == Filled(old(contents), at, size)
    {
      forall x | at <= x < at + size { bytes[x] := 0; }
      contents := contents.(bytes := bytes[..]);
    }

    /** Like memmove: the two ranges may overlap. */
    method Copy(to: nat, from: nat, size: nat)
      requires Valid() && to + size <= |contents.bytes| && from + size <= |contents.bytes|
      modifies bytes, `contents
      ensures Valid() && contents == Shifted(old(contents), to, from, size)
    {
      forall i | 0 <= i < size { bytes[to + i] := bytes[from + i]; }
      forall x | 0 <= x < bytes.Length
        ensures bytes[x] == if to <= x < to + size then old(bytes[from + x - to]) else old(bytes[x])
      {
        if to <= x < to + size { assert bytes[to + (x - to)] == old(bytes[from + (x - to)]); }
      }
      contents := contents.(bytes := bytes[..]);
    }

    method Store(at: nat, value: Byte)
      requires Valid() && at < |contents.bytes|
      modifies bytes, `contents
      ensures Valid() && contents == Loaded(old(contents), at, [value])
    {
      bytes[at] := value;
      contents := contents.(bytes := bytes[..]);
    }

    /** Copy bytes of another array in. */
    method Receive(at: nat, source: array<Byte>, from: nat, size: nat)
      requires Valid() && source != bytes && at + size <= |contents.bytes| && from + size <= source.Length
      modifies bytes, `contents
      ensures Valid() && contents == Loaded(old(contents), at, source[from..from + size])
    {
      forall i | 0 <= i < size { bytes[at + i] := source[from + i]; }
      contents := contents.(bytes := bytes[..]);
      assert contents.bytes == Written(old(contents.bytes), at, source[from..from + size]);
    }

    /** Hand the next frame, filled with zeros, to `owner`. */
    method Allocate(ghost owner: object, ghost key: nat) returns (frame: nat)
      requires Valid() && next + PAGE_SIZE <= imageTop
      modifies this`next, this`contents, bytes
      ensures Valid() && OnlyFor(old(contents), contents, base, owner, imageTop)
      ensures frame == Start(base, |old(contents.use)|) && next == old(next) + PAGE_SIZE
      ensures contents == Allocated(old(contents), base, owner, key)
    {
      frame := next;
      Fill(frame, PAGE_SIZE);
      next := frame + PAGE_SIZE;
      contents := contents.(use := contents.use + [(owner, key)]);
      NewFrameChange(old(contents), base, owner, imageTop, key);
    }

    /** Reserve image space, rounded up to 16 bytes, at the top of the arena. */
    method ImageReserve(size: nat, contended: bool) returns (at: nat, ok: bool)
      requires Valid()
      modifies `imageTop, `imageSize, `imageLock
      ensures Valid()
      ensures ok <==> 0 < size <= 0x7fff_fff0 && !old(imageLock) && !contended && next + (size + 15) / 16 * 16 <= end
      ensures ok ==> imageLock && imageTop == at == end - imageSize && size <= imageSize < size + 16 &&
                     imageSize % 16 == 0
      ensures !ok ==> imageTop == old(imageTop) && imageSize == old(imageSize) && imageLock == old(imageLock)
    {
      if size == 0 || size > 0x7fff_fff0 || imageLock || contended { return 0, false; }
      var aligned := (size + 15) / 16 * 16;
      if aligned < size || aligned > end || end - aligned < next { return 0, false; }
      at, ok := end - aligned, true;
      imageTop, imageSize, imageLock := at, aligned, true;
    }

    predicate ImageContains(at: nat, size: nat)
      reads this
      ensures ImageContains(at, size) && Valid() ==> imageTop <= at && at + size <= end
    {
      imageLock && at >= imageTop && at - imageTop <= imageSize && size <= imageSize - (at - imageTop)
    }

    method ImageRelease(at: nat, size: nat, contended: bool) returns (ok: bool)
      requires Valid()
      modifies `imageTop, `imageSize, `imageLock
      ensures Valid()
      ensures ok <==> (0 < size <= 0x7fff_fff0 && old(imageLock) && !contended &&
        at == old(imageTop) && (size + 15) / 16 * 16 == old(imageSize))
      ensures ok ==> !imageLock && imageTop == end
      ensures !ok ==> imageTop == old(imageTop) && imageSize == old(imageSize) && imageLock == old(imageLock)
    {
      if size == 0 || size > 0x7fff_fff0 { return false; }
      var aligned := (size + 15) / 16 * 16;
      if !imageLock || at != imageTop || aligned != imageSize || contended { return false; }
      imageTop, imageSize, imageLock := end, 0, false;
      ok := true;
    }
  }

  datatype Lookup = Frame(at: nat) | Unmapped | Invalid

  /** What looking up an address must give.  It fails outside the address space,
      for an absent page in a full table, and when a page is wanted but cannot
      be had: the memory lock is taken or no frame is left below the image. */
  ghost function Answer(t: Table, base: nat, top: nat, address: nat, create: bool, available: bool, next: nat): Lookup
  {
    if address >= top then Invalid
    else if Key(address) in t.frameNo then Frame(Start(base, t.frameNo[Key(address)]))
    else if Full(t.entries) then Invalid
    else if !create then Unmapped
    else if available then Frame(next)
    else Invalid
  }

  class GuestMemory {
    const arena: Arena
    const entries: array<Entry>
    var top: nat
    var pageCount: nat
    ghost var view: Table

    ghost predicate Valid()
      reads this, entries, arena, arena.bytes
    {
      && arena.Valid()
      && this as object != arena && entries as object != arena.bytes as object
      && top < SPACE
      && |view.mem| == SPACE && entries.Length == PAGE_CAPACITY && view.entries == entries[..]
      && pageCount == |view.slotOf|
      && Folded(view, arena.contents, arena.base, this, FOLDS)
    }

    constructor (physical: Arena, virtualTop: nat)
      requires physical.Valid() && virtualTop < SPACE
      ensures Valid() && fresh(entries) && arena == physical && top == virtualTop
      ensures view.slotOf == map[] && forall a :: 0 <= a < SPACE ==> view.mem[a] == 0
    {
      arena := physical;
      entries := new Entry[PAGE_CAPACITY](_ => Entry(0, 0));
      top, pageCount := virtualTop, 0;
      new;
      view := Table(entries[..], map[], map[], seq(SPACE, _ => 0));
      Fold(view, arena.contents, arena.base, this, FOLDS);
    }

    /** Forget every page; the frames stay with this guest but are not used again. */
    method Clear(virtualTop: nat)
      requires Valid() && virtualTop < SPACE
      modifies `top, `view, `pageCount, entries
      ensures Valid() && top == virtualTop && view.mem == seq(SPACE, _ => 0)
    {
      Unfold(view, arena.contents, arena.base, this, FOLDS);
      forall i | 0 <= i < entries.Length { entries[i] := Entry(0, 0); }
      top, pageCount := virtualTop, 0;
      view := Table(entries[..], map[], map[], seq(SPACE, _ => 0));
      Fold(view, arena.contents, arena.base, this, FOLDS);
    }

    /** Claim the empty slot that probing for `key` stopped at. */
    method Insert(key: nat, slot: nat) returns (frame: nat)
      requires Valid() && 0 < key <= PAGES
      requires slot < PAGE_CAPACITY && entries[slot].key == 0
      requires Passed(view.entries, key, Distance(Hash(key), slot))
      requires arena.next + PAGE_SIZE <= arena.imageTop
      modifies this`view, this`pageCount, entries, arena`next, arena`contents, arena.bytes
      ensures Valid() && OnlyFor(old(arena.contents), arena.contents, arena.base, this, arena.imageTop)
      ensures key !in old(view.slotOf) && view == Inserted(old(view), key, slot, arena.base, |old(arena.contents.use)|)
      ensures InFrame(view, arena.base, key, frame) && arena.next == old(arena.next) + PAGE_SIZE
    {
      Unfold(view, arena.contents, arena.base, this, FOLDS);
      ghost var t, c := view, arena.contents;
      frame := arena.Allocate(this, key);
      entries[slot] := Entry(key, frame);
      pageCount := pageCount + 1;
      view := Inserted(t, key, slot, arena.base, |c.use|);
      InsertCoherent(t, c, arena.base, this, key, slot);
      Fold(view, arena.contents, arena.base, this, FOLDS);
    }

    /** Search the table for `key`, from its hash slot upwards and around. */
    method Probe(key: nat) returns (slot: nat, found: bool)
      requires Valid() && key > 0
      ensures found ==> key in view.slotOf && slot == view.slotOf[key]
      ensures !found ==> key !in view.slotOf && if slot == PAGE_CAPACITY then Full(view.entries)
        else slot < PAGE_CAPACITY && view.entries[slot].key == 0 && Passed(view.entries, key, Distance(Hash(key), slot))
    {
      Unfold(view, arena.contents, arena.base, this, FOLDS);
      slot := Hash(key);
      var probe := 0;
      while probe < PAGE_CAPACITY
        invariant 0 <= probe <= PAGE_CAPACITY && slot < PAGE_CAPACITY
        invariant probe < PAGE_CAPACITY ==> Distance(Hash(key), slot) == probe
        invariant Passed(view.entries, key, probe)
      {
        if entries[slot].key == key { return slot, true; }
        if entries[slot].key == 0 {
          AbsentAtEmptySlot(view.entries, view.slotOf, key, slot);
          return slot, false;
        }
        PassedStep(view.entries, key, slot, probe);
        slot := Next(slot);
        probe := probe + 1;
      }
      AbsentWhenExhausted(view.entries, view.slotOf, key);
      return PAGE_CAPACITY, false;
    }

    /** Look an address up without making its page. */
    method FindPage(address: nat) returns (r: Lookup)
      requires Valid()
      ensures r == Answer(view, arena.base, top, address, false, false, arena.next)
    {
      Unfold(view, arena.contents, arena.base, this, FOLDS);
      if address >= top { return Invalid; }
      var slot, found := Probe(Key(address));
      if found {
        SlotInFrame(view, arena.contents, arena.base, this, slot);
        return Frame(entries[slot].frame);
      }
      r := if slot == PAGE_CAPACITY then Invalid else Unmapped;
    }

    /** Look an address up, making its page if it is absent. */
    method GuestPage(address: nat) returns (r: Lookup, contended: bool)
      requires Valid()
      modifies this`view, this`pageCount, entries, arena`next, arena`contents, arena.bytes
      ensures Valid() && OnlyFor(old(arena.contents), arena.contents, arena.base, this, arena.imageTop)
      ensures r == Answer(old(view), arena.base, top, address, true, !contended &&
                          old(arena.next) + PAGE_SIZE <= arena.imageTop, old(arena.next))
      ensures view.mem == old(view.mem) && Extends(old(view), view)
      ensures if r.Frame? then InFrame(view, arena.base, Key(address), r.at) else view == old(view)
    {
      Unfold(view, arena.contents, arena.base, this, FOLDS);
      OnlyForNothing(arena.contents, arena.base, this, arena.imageTop);
      contended := false;
      if address >= top { return Invalid, false; }
      var key := Key(address);
      var slot, found := Probe(key);
      if found {
        SlotInFrame(view, arena.contents, arena.base, this, slot);
        return Frame(entries[slot].frame), false;
      }
      if slot == PAGE_CAPACITY { return Invalid, false; }
      contended := *;
      if contended || arena.next > arena.imageTop ||
         PAGE_SIZE > arena.imageTop - arena.next { return Invalid, contended; }
      var frame := Insert(key, slot);
      r := Frame(frame);
    }

    /** Find or make the page of an address. */
    method NeedPage(address: nat) returns (frame: nat, ok: bool)
      requires Valid()
      modifies this`view, this`pageCount, entries, arena`next, arena`contents, arena.bytes
      ensures Valid() && OnlyFor(old(arena.contents), arena.contents, arena.base, this, arena.imageTop)
      ensures view.mem == old(view.mem) && Extends(old(view), view)
      ensures ok ==> address < top && InFrame(view, arena.base, Key(address), frame)
      ensures ok <==> address < top && Key(address) in view.frameNo
    {
      var page, _ := GuestPage(address);
      if page.Frame? { return page.at, true; }
      return 0, false;
    }

    /** Zero the bytes [low, high) of the page in a slot. */
    method ZeroSpan(slot: nat, ghost key: nat, low: nat, high: nat)
      requires Valid() && slot < PAGE_CAPACITY && entries[slot].key == key != 0 && low <= high <= PAGE_SIZE
      modifies this`view, arena`contents, arena.bytes
      ensures Valid() && OnlyFor(old(arena.contents), arena.contents, arena.base, this, arena.imageTop)
      ensures view == old(view).Zero(Page(key) + low, Page(key) + high)
    {
      ghost var at := Page(key) + low;
      var frame := entries[slot].frame;
      SlotFolded(view, arena.contents, arena.base, this, slot);
      ZeroFolded(view, arena.contents, arena.base, this, arena.imageTop, key, frame, low, high - low, at);
      arena.Fill(frame + low, high - low);
      view := view.Zero(at, at + (high - low));
    }

    method ClearMappedRange(start: nat, end: nat)
      requires Valid() && start <= end
      modifies this`view, arena`contents, arena.bytes
      ensures Valid() && OnlyFor(old(arena.contents), arena.contents, arena.base, this, arena.imageTop)
      ensures view == old(view).Zero(start, end)
    {
      Unfold(view, arena.contents, arena.base, this, FOLDS);
      ghost var m := view.mem;
      var slot := 0;
      while slot < PAGE_CAPACITY
        invariant 0 <= slot <= PAGE_CAPACITY
        invariant Valid() && OnlyFor(old(arena.contents), arena.contents, arena.base, this, arena.imageTop)
        invariant view == old(view).(mem := Cleared(m, view.slotOf, start, end, slot))
      {
        ClearSlotStep(m, start, end, slot);
        slot := slot + 1;
      }
      ClearDone(old(view), old(arena.contents), arena.base, this, start, end);
    }

    method ClearSlotStep(ghost m: seq<Byte>, start: nat, end: nat, slot: nat)
      requires Valid() && slot < PAGE_CAPACITY && |m| == SPACE && start <= end
      requires view.mem == Cleared(m, view.slotOf, start, end, slot)
      modifies this`view, arena`contents, arena.bytes
      ensures Valid() && OnlyFor(old(arena.contents), arena.contents, arena.base, this, arena.imageTop)
      ensures view == old(view).(mem := Cleared(m, view.slotOf, start, end, slot + 1))
    {
      Unfold(view, arena.contents, arena.base, this, FOLDS);
      var key := entries[slot].key;
      if key == 0 {
        ClearEmptySlot(view, m, start, end, slot);
      } else {
        var page := Page(key);
        var pageEnd := page + PAGE_SIZE;
        ClearSlot(view, m, start, end, slot);
        if start < pageEnd && end > page {
          var low := if start > page then start else page;
          var high := if end < pageEnd then end else pageEnd;
          ZeroSpan(slot, key, low - page, high - page);
        }
      }
    }

    /** Copy bytes from one frame to another, or within one. */
    method CopySpan(to: nat, ghost toKey: nat, toOffset: nat, from: nat, ghost fromKey: nat, fromOffset: nat, size: nat,
                    ghost at: nat, ghost source: nat)
      requires Valid() && InFrame(view, arena.base, toKey, to) && InFrame(view, arena.base, fromKey, from)
      requires toOffset + size <= PAGE_SIZE && fromOffset + size <= PAGE_SIZE
      requires at == Page(toKey) + toOffset && source == Page(fromKey) + fromOffset
      requires |view.mem| == SPACE && source + size <= SPACE
      modifies this`view, arena`contents, arena.bytes
      ensures Valid() && OnlyFor(old(arena.contents), arena.contents, arena.base, this, arena.imageTop)
      ensures view == old(view).Move(at, source, size)
    {
      CopyFolded(view, arena.contents, arena.base, this, arena.imageTop, to, toKey, toOffset, from, fromKey, fromOffset,
                 size, at, source);
      arena.Copy(to + toOffset, from + fromOffset, size);
      view := view.Move(at, source, size);
    }

    /** Copy the next part of the source into a page that is there, up to its end. */
    method CopyIntoPage(ghost m: seq<Byte>, ghost source: nat, ghost target: nat, ghost length: nat, ghost slot: nat,
                        ghost low: nat,
                        ghost here: nat, to: nat, from: nat, ghost fromKey: nat, fromOffset: nat, address: nat,
                            limit: nat)
      returns (part: nat)
      requires Valid() && InFrame(view, arena.base, Key(address), to) && InFrame(view, arena.base, fromKey, from)
      requires 0 < limit && fromOffset + limit <= PAGE_SIZE
      requires CopyingTo(m, view, source, target, length, slot, low, here) && low <= here &&
               here + limit <= source + length
      requires here == Page(fromKey) + fromOffset && address == target + (here - source)
      modifies this`view, arena`contents, arena.bytes
      ensures Valid() && OnlyFor(old(arena.contents), arena.contents, arena.base, this, arena.imageTop)
      ensures view.entries == old(view.entries)
      ensures 0 < part <= limit && CopyingTo(m, view, source, target, length, slot, low, here + part)
    {
      var within := address % 65536;
      var room := PAGE_SIZE - within;
      part := if room < limit then room else limit;
      CopyingWrite(m, view, source, target, length, slot, low, here, part, address);
      CopySpan(to, Key(address), within, from, fromKey, fromOffset, part, address, here);
    }

    method CopyPart(ghost m: seq<Byte>, ghost source: nat, ghost target: nat, ghost length: nat, ghost slot: nat,
                    ghost low: nat,
                    ghost here: nat, from: nat, ghost fromKey: nat, fromOffset: nat, address: nat, limit: nat)
      returns (part: nat, ok: bool)
      requires Valid() && slot < PAGE_CAPACITY && view.entries[slot] == Entry(fromKey, from) && fromKey > 0
      requires 0 < limit && fromOffset + limit <= PAGE_SIZE
      requires CopyingTo(m, view, source, target, length, slot, low, here) && low <= here &&
               here + limit <= source + length
      requires here == Page(fromKey) + fromOffset && address == target + (here - source)
      modifies this`view, this`pageCount, entries, arena`next, arena`contents, arena.bytes
      ensures Valid() && OnlyFor(old(arena.contents), arena.contents, arena.base, this, arena.imageTop)
      ensures view.entries[slot] == Entry(fromKey, from)
      ensures if ok then 0 < part <= limit && CopyingTo(m, view, source, target, length, slot, low, here + part)
              else CopyingTo(m, view, source, target, length, slot, low, here)
    {
      ghost var t, c := view, arena.contents;
      var to, found := NeedPage(address);
      CopyingNewPage(m, t, c, view, arena.contents, arena.base, this, source, target, length, slot, low, here, fromKey,
                     from);
      if !found { return 0, false; }
      ghost var d := arena.contents;
      part := CopyIntoPage(m, source, target, length, slot, low, here, to, from, fromKey, fromOffset, address, limit);
      OnlyForTransitive(c, d, arena.contents, arena.base, this, arena.imageTop);
      ok := true;
    }

    /** Copy what the page in `slot` holds of the source range. */
    method CopyPage(ghost m: seq<Byte>, source: nat, target: nat, length: nat, slot: nat) returns (ok: bool)
      requires Valid() && |m| == SPACE && source + length <= SPACE && target + length <= SPACE &&
               Separate(source, target, length)
      requires slot < PAGE_CAPACITY && Copying(m, view, source, target, length, slot)
      modifies this`view, this`pageCount, entries, arena`next, arena`contents, arena.bytes
      ensures Valid() && OnlyFor(old(arena.contents), arena.contents, arena.base, this, arena.imageTop)
      ensures Copying(m, view, source, target, length, if ok then slot + 1 else slot)
    {
      Unfold(view, arena.contents, arena.base, this, FOLDS);
      var key := entries[slot].key;
      if key == 0 {
        CopyingEmptySlot(m, view, source, target, length, slot);
        return true;
      }
      var page := Page(key);
      var pageEnd := page + PAGE_SIZE;
      var low := if source > page then source else page;
      var high := if source + length < pageEnd then source + length else pageEnd;
      if source < pageEnd && source + length > page {
        var from := entries[slot].frame;
        var copied, amount := 0, high - low;
        while copied < amount
          invariant 0 <= copied <= amount
          invariant Valid() && OnlyFor(old(arena.contents), arena.contents, arena.base, this, arena.imageTop)
          invariant view.entries[slot] == Entry(key, from)
          invariant CopyingTo(m, view, source, target, length, slot, low, low + copied)
        {
          ghost var c := arena.contents;
          var part, done := CopyPart(m, source, target, length, slot, low, low + copied, from, key, low - page + copied,
                                     target + low - source + copied, amount - copied);
          OnlyForTransitive(old(arena.contents), c, arena.contents, arena.base, this, arena.imageTop);
          if !done { return false; }
          copied := copied + part;
        }
      }
      Unfold(view, arena.contents, arena.base, this, FOLDS);
      CopyingSlotDone(m, view, source, target, length, slot, low, high);
      return true;
    }
    /** Copy a range to one that reads as zero and does not meet it.  Pages of
        the source that are absent are skipped; pages of the target are made as
        needed, in the very table that is being scanned. */
    method CopyAllocatedRange(source: nat, target: nat, length: nat) returns (ok: bool)
      requires Valid() && source + length <= SPACE && target + length <= SPACE && Separate(source, target, length)
      requires forall a :: target <= a < target + length ==> view.mem[a] == 0
      modifies this`view, this`pageCount, entries, arena`next, arena`contents, arena.bytes
      ensures Valid() && OnlyFor(old(arena.contents), arena.contents, arena.base, this, arena.imageTop)
      ensures ok ==> view.mem == Moved(old(view.mem), target, source, length)
      ensures forall a :: 0 <= a < SPACE && !(target <= a < target + length) ==> view.mem[a] == old(view.mem)[a]
    {
      ghost var m := view.mem;
      var slot := 0;
      while slot < PAGE_CAPACITY
        invariant 0 <= slot <= PAGE_CAPACITY
        invariant Valid() && OnlyFor(old(arena.contents), arena.contents, arena.base, this, arena.imageTop)
        invariant Copying(m, view, source, target, length, slot)
      {
        ghost var c := arena.contents;
        var done := CopyPage(m, source, target, length, slot);
        OnlyForTransitive(old(arena.contents), c, arena.contents, arena.base, this, arena.imageTop);
        if !done { return false; }
        slot := slot + 1;
      }
      Unfold(view, arena.contents, arena.base, this, FOLDS);
      CopyingDone(m, view, arena.contents, arena.base, this, source, target, length);
      return true;
    }

    // --- loads and stores

    method PutByte(frame: nat, ghost key: nat, offset: nat, value: Byte, ghost at: nat)
      requires Valid() && InFrame(view, arena.base, key, frame) && offset < PAGE_SIZE && at == Page(key) + offset
      modifies this`view, arena`contents, arena.bytes
      ensures Valid() && OnlyFor(old(arena.contents), arena.contents, arena.base, this, arena.imageTop)
      ensures view == old(view).Write(at, [value])
    {
      WriteFolded(view, arena.contents, arena.base, this, arena.imageTop, key, frame, offset, [value], at);
      arena.Store(frame + offset, value);
      view := view.Write(at, [value]);
    }

    method StoreByte(address: nat, value: Byte) returns (ok: bool)
      requires Valid()
      modifies this`view, this`pageCount, entries, arena`next, arena`contents, arena.bytes
      ensures Valid() && OnlyFor(old(arena.contents), arena.contents, arena.base, this, arena.imageTop)
      ensures view.mem == if ok then Written(old(view.mem), address, [value]) else old(view.mem)
      ensures (ok <==> address < top && Key(address) in view.frameNo) && Extends(old(view), view)
    {
      ghost var c := arena.contents;
      var frame, found := NeedPage(address);
      if !found { return false; }
      ghost var d := arena.contents;
      PutByte(frame, Key(address), address % 65536, value, address);
      OnlyForTransitive(c, d, arena.contents, arena.base, this, arena.imageTop);
      ok := true;
    }

    /** Store the low `size` bytes of a value.  It succeeds exactly when the range lies
        in memory and each of its pages is there or could be made; a store that fails
        may have written its first bytes. */
    method StoreWord(address: nat, value: nat, size: nat) returns (ok: bool)
      requires Valid()
      modifies this`view, this`pageCount, entries, arena`next, arena`contents, arena.bytes
      ensures Valid() && OnlyFor(old(arena.contents), arena.contents, arena.base, this, arena.imageTop)
      ensures ok <==> address < top && size <= top - address && Framed(view, address, address + size)
      ensures Extends(old(view), view) && (ok ==> Holds(view.mem, address, value, size))
      ensures ChangedWithin(old(view.mem), view.mem, address, address + size)
    {
      OnlyForNothing(arena.contents, arena.base, this, arena.imageTop);
      if address >= top || size > top - address { return false; }
      ghost var m := view.mem;
      var index, rest := 0, value;
      while index < size
        invariant 0 <= index <= size
        invariant Valid() && OnlyFor(old(arena.contents), arena.contents, arena.base, this, arena.imageTop)
        invariant rest == Rest(value, index)
        invariant Deposited(m, view.mem, address, value, index)
        invariant Extends(old(view), view) && Framed(view, address, address + index)
      {
        ghost var c, r, t := arena.contents, view.mem, view;
        RestByte(value, index);
        var stored := StoreByte(address + index, rest % 256);
        OnlyForTransitive(old(arena.contents), c, arena.contents, arena.base, this, arena.imageTop);
        if !stored {
          NotFramed(view, address, index, size);
          return false;
        }
        DepositStep(m, r, view.mem, address, value, index);
        FramedMore(t, view, address, index);
        rest := rest / 256;
        index := index + 1;
      }
      return true;
    }

    /** The byte at an address, or -1 if the lookup fails. */
    method LoadByte(address: nat) returns (r: int)
      requires Valid()
      ensures r == if Readable(address) then view.mem[address] else -1
    {
      var page := FindPage(address);
      Unfold(view, arena.contents, arena.base, this, FOLDS);
      match page {
        case Invalid =>
          return -1;
        case Unmapped =>
          AbsentReadsZero(view, arena.contents, arena.base, this, address);
          return 0;
        case Frame(at) =>
          ByteInFrame(view, arena.contents, arena.base, this, address, at);
          return arena.bytes[at + address % 65536];
      }
    }

    ghost predicate Readable(address: nat)
      reads this
    {
      address < top && (Key(address) in view.frameNo || !Full(view.entries))
    }

    /** Load a little-endian word; zero if one of its bytes cannot be read. */
    method LoadWord(address: nat, size: nat) returns (r: nat)
      requires Valid()
      ensures r == if size > 0 && AllReadable(address, size) then Value(view.mem, address, size) else 0
    {
      r := 0;
      var index, weight := 0, 1;
      while index < size
        invariant 0 <= index <= size && weight == Pow256(index)
        invariant AllReadable(address, index)
        invariant r == if index > 0 then Value(view.mem, address, index) else 0
      {
        var byte := LoadByte(address + index);
        if byte < 0 { return 0; }
        ValueTop(view.mem, address, index);
        r := r + weight * byte;
        weight := 256 * weight;
        index := index + 1;
      }
    }

    ghost predicate AllReadable(address: nat, size: nat)
      reads this
      ensures AllReadable(address, size) && size > 0 ==> address + size <= top
    {
      (forall a :: address <= a < address + size ==> Readable(a)) &&
      (size > 0 ==> Readable(address + size - 1))
    }
  }
}
