/** Loading a program image: the sections of a THX file become segments of a
    fresh address space whose memory is their payloads and zero elsewhere. */
module Images {
  import opened Frames
  import opened Ownership
  import opened GuestMemory
  import opened Mappings
  import opened Spaces
  import opened Processes
  import opened ImageCopying
  import opened Words

  const SEGMENT_CAPACITY := 128

  datatype Status = Ok | BadSection | BadMemory

  /** One section as the file describes it; `at` counts from the payload. */
  datatype Section = Section(nameHash: nat, nameLength: nat, flags: nat, align: nat, size: nat, address: nat, at: nat,
                             length: nat)

  predicate PowerOfTwo(n: nat) {
    n == 1 || (n > 0 && n % 2 == 0 && PowerOfTwo(n / 2))
  }

  /** What alignments are allowed. */
  lemma PowerOfTwoMeans(n: nat)
    ensures PowerOfTwo(n) <==> exists k: nat :: n == Pow2(k)
  {
    if PowerOfTwo(n) { var k := Exponent(n); }
    if k: nat :| n == Pow2(k) { PowerIsOne(k); }
  }

  lemma {:induction false} Exponent(n: nat) returns (k: nat)
    requires PowerOfTwo(n)
    ensures n == Pow2(k)
  {
    k := 0;
    if n != 1 {
      k := Exponent(n / 2);
      k := k + 1;
    }
  }

  lemma {:induction false} PowerIsOne(k: nat)
    ensures PowerOfTwo(Pow2(k))
  {
    if k > 0 { PowerIsOne(k - 1); }
  }

  ghost predicate Clashes(s: Segment, address: nat, end: nat, nameHash: nat, nameLength: nat) {
    (address < s.end && end > s.address) || (s.nameHash == nameHash && s.nameLength == nameLength)
  }

  ghost predicate NoClash(segments: seq<Segment>, address: nat, end: nat, nameHash: nat, nameLength: nat) {
    forall i :: 0 <= i < |segments| ==> !Clashes(segments[i], address, end, nameHash, nameLength)
  }

  /** The data lies at the start of the segment, and the rest of the segment is zero. */
  ghost predicate Filling(s: Segment, d: seq<Byte>, mem: seq<Byte>) {
    && s.address + |d| <= s.end <= |mem|
    && forall a {:trigger mem[a]} :: s.address <= a < s.end ==> mem[a] == if a - s.address < |d| then d[a - s.address]
       else 0
  }

  /** Every segment holds its data; every byte outside the segments is zero. */
  ghost predicate Laid(segments: seq<Segment>, data: seq<seq<Byte>>, mem: seq<Byte>) {
    && |data| == |segments| && |mem| == SPACE
    && (forall i :: 0 <= i < |segments| ==> Filling(segments[i], data[i], mem))
    && (forall a {:trigger mem[a]} :: 0 <= a < SPACE && mem[a] != 0 ==> InSegment(segments, a))
  }

  /** Segments lie in the address space, do not meet, have different names,
      and `floor` is the end of the highest. */
  ghost predicate Arranged(segments: seq<Segment>, top: nat, floor: nat) {
    && |segments| <= SEGMENT_CAPACITY
    && (forall i :: 0 <= i < |segments| ==>
        0x10000 <= segments[i].address <= segments[i].end <= top && segments[i].end <= floor && segments[i].flags <= 7)
    && (forall i, j :: 0 <= i < j < |segments| ==>
          !Clashes(segments[i], segments[j].address, segments[j].end, segments[j].nameHash, segments[j].nameLength))
    && (floor == 0 || exists i :: 0 <= i < |segments| && segments[i].end == floor)
  }

  lemma FillingOther(r: Segment, e: seq<Byte>, mem: seq<Byte>, s: Segment, d: seq<Byte>)
    requires Filling(r, e, mem) && s.address + |d| <= s.end && !Clashes(r, s.address, s.end, s.nameHash, s.nameLength)
    ensures Filling(r, e, Written(mem, s.address, d))
  {
  }

  lemma FillingNew(segments: seq<Segment>, mem: seq<Byte>, s: Segment, d: seq<Byte>)
    requires |mem| == SPACE && forall a {:trigger mem[a]} :: 0 <= a < SPACE && mem[a] != 0 ==> InSegment(segments, a)
    requires NoClash(segments, s.address, s.end, s.nameHash, s.nameLength) && s.address + |d| <= s.end <= SPACE
    ensures Filling(s, d, Written(mem, s.address, d))
  {
    forall a | s.address <= a < s.end ensures mem[a] == 0 {
      forall i | 0 <= i < |segments| ensures !(segments[i].address <= a < segments[i].end) {
        assert !Clashes(segments[i], s.address, s.end, s.nameHash, s.nameLength);
      }
    }
  }

  lemma LaidMore(segments: seq<Segment>, data: seq<seq<Byte>>, mem: seq<Byte>, s: Segment, d: seq<Byte>)
    requires Laid(segments, data, mem) && NoClash(segments, s.address, s.end, s.nameHash, s.nameLength)
    requires s.address + |d| <= s.end <= SPACE
    ensures Laid(segments + [s], data + [d], Written(mem, s.address, d))
  {
    var n, w := segments + [s], Written(mem, s.address, d);
    forall i | 0 <= i < |n| ensures Filling(n[i], (data + [d])[i], w) {
      if i < |segments| { FillingOther(segments[i], data[i], mem, s, d); } else { FillingNew(segments, mem, s, d); }
    }
    forall a {:trigger w[a]} | 0 <= a < SPACE && w[a] != 0 ensures InSegment(n, a) {
      if s.address <= a < s.address + |d| {
        assert n[|segments|] == s;
      } else {
        var i :| 0 <= i < |segments| && segments[i].address <= a < segments[i].end;
        assert n[i] == segments[i];
      }
    }
  }

  lemma ArrangedMore(segments: seq<Segment>, top: nat, floor: nat, s: Segment)
    requires Arranged(segments, top, floor) && |segments| < SEGMENT_CAPACITY
    requires NoClash(segments, s.address, s.end, s.nameHash, s.nameLength)
    requires 0x10000 <= s.address <= s.end <= top && s.flags <= 7
    ensures Arranged(segments + [s], top, if s.end > floor then s.end else floor)
  {
    var n := segments + [s];
    assert n[|segments|] == s;
    if floor != 0 {
      var i :| 0 <= i < |segments| && segments[i].end == floor;
      assert n[i].end == floor;
    }
  }

  /** A partly loaded image as a value. */
  datatype Draft = Draft(segments: seq<Segment>, data: seq<seq<Byte>>, mem: seq<Byte>, top: nat, floor: nat)

  ghost predicate Laying(draft: Draft) {
    match draft
    case Draft(segments, data, mem, top, floor) => Laid(segments, data, mem) && Arranged(segments, top, floor) &&
                                                   top < SPACE
  }

  ghost function Extended(draft: Draft, s: Segment, d: seq<Byte>): Draft {
    Draft(draft.segments + [s], draft.data + [d], Written(draft.mem, s.address, d), draft.top,
          if s.end > draft.floor then s.end else draft.floor)
  }

  /** May this segment with so many bytes of data be added? */
  ghost predicate Placed(segments: seq<Segment>, top: nat, s: Segment, length: nat) {
    && length <= s.end - s.address && s.flags <= 7
    && 0x10000 <= s.address && s.end <= top && |segments| < SEGMENT_CAPACITY
    && NoClash(segments, s.address, s.end, s.nameHash, s.nameLength)
  }

  lemma LayingMore(draft: Draft, s: Segment, d: seq<Byte>)
    requires Laying(draft) && Placed(draft.segments, draft.top, s, |d|)
    ensures Laying(Extended(draft, s, d))
  {
    LaidMore(draft.segments, draft.data, draft.mem, s, d);
    ArrangedMore(draft.segments, draft.top, draft.floor, s);
  }

  /** A process whose image is being loaded; kept folded like `Ownership.Folded`. */
  ghost predicate Held(p: Process, data: seq<seq<Byte>>, folds: nat)
    reads p, p.memory, p.memory.entries, p.memory.arena, p.memory.arena.bytes, p.table, p.table.maps
  {
    if folds == 0 then p.Ready() && p.table.list == [] && Aligned(p.mapNext) && Laying(Drafted(p, data))
    else Held(p, data, folds - 1)
  }

  ghost predicate Loading(p: Process, data: seq<seq<Byte>>)
    reads p, p.memory, p.memory.entries, p.memory.arena, p.memory.arena.bytes, p.table, p.table.maps
  {
    Held(p, data, FOLDS)
  }

  lemma Open(p: Process, data: seq<seq<Byte>>, folds: nat)
    requires Held(p, data, folds)
    ensures p.Ready() && p.table.list == [] && Aligned(p.mapNext) && Laying(Drafted(p, data))
  {
  }

  lemma Close(p: Process, data: seq<seq<Byte>>, folds: nat)
    requires p.Ready() && p.table.list == [] && Aligned(p.mapNext) && Laying(Drafted(p, data))
    ensures Held(p, data, folds)
  {
  }

  ghost function Drafted(p: Process, data: seq<seq<Byte>>): Draft
    reads p, p.memory
  {
    Draft(p.segments, data, p.memory.view.mem, p.memory.top, p.imageFloor)
  }

  method ImageBegin(p: Process, virtualTop: nat, entry: nat, phdr: nat, phent: U32, phnum: U32) returns (r: Status)
    requires p.Ready()
    modifies p, p.table`count, p.table`list, p.table.maps, p.memory`top, p.memory`view, p.memory`pageCount,
             p.memory.entries
    ensures r == if 0x100000 <= virtualTop < SPACE && 0x10000 <= entry < virtualTop && phdr < virtualTop then Ok
            else BadMemory
    ensures r == Ok ==> Loading(p, []) && p.memory.top == virtualTop && p.entry == entry && p.segments == []
  {
    if virtualTop < 0x100000 || virtualTop > 0xffff_ffff_ffff || entry < 0x10000 || entry >= virtualTop ||
       (phdr >= virtualTop && phdr != 0) {
      return BadMemory;
    }
    p.entry, p.phdr, p.phent, p.phnum := entry, phdr, phent, phnum;
    Restart(p, virtualTop);
    r := Ok;
  }

  /** Empty the page table, the segments and the mappings. */
  method Restart(p: Process, virtualTop: nat)
    requires p.Ready() && virtualTop < SPACE
    modifies p`segments, p`mapNext, p`imageFloor, p`brkBase, p`brk
    modifies p.table`count, p.table`list, p.table.maps, p.memory`top, p.memory`view, p.memory`pageCount,
             p.memory.entries
    ensures Loading(p, []) && p.memory.top == virtualTop && p.segments == []
  {
    p.memory.Clear(virtualTop);
    p.table.Clear();
    p.segments, p.mapNext, p.imageFloor, p.brkBase, p.brk := [], 0x4000000000, 0, 0, 0;
    Close(p, [], FOLDS);
  }

  method FindClash(p: Process, address: nat, end: nat, nameHash: nat, nameLength: nat) returns (clash: bool)
    ensures !clash <==> NoClash(p.segments, address, end, nameHash, nameLength)
  {
    var index := 0;
    while index < |p.segments|
      invariant 0 <= index <= |p.segments|
      invariant forall i :: 0 <= i < index ==> !Clashes(p.segments[i], address, end, nameHash, nameLength)
    {
      var s := p.segments[index];
      if address < s.end && end > s.address { return true; }
      if s.nameHash == nameHash && s.nameLength == nameLength { return true; }
      index := index + 1;
    }
    return false;
  }

  /** Place one segment with its data; without success nothing is placed. */
  method ImageSegment(p: Process, nameHash: nat, nameLength: nat, address: nat, size: nat, flags: nat, imageAt: nat,
                      length: nat,
                      ghost data: seq<seq<Byte>>) returns (r: Status)
    requires Loading(p, data)
    modifies p`segments, p`imageFloor
    modifies p.memory`view, p.memory`pageCount, p.memory.entries, p.memory.arena`next, p.memory.arena`contents,
             p.memory.arena.bytes
    ensures OnlyFor(old(p.memory.arena.contents), p.memory.arena.contents, p.memory.arena.base, p.memory,
                    p.memory.arena.imageTop)
    ensures r != BadSection <==> p.memory.arena.ImageContains(imageAt, length) &&
                                 Placed(old(p.segments), p.memory.top,
                                        Segment(address, address + size, flags, nameHash, nameLength), length)
    ensures r == Ok ==> imageAt + length <= |old(p.memory.arena.contents).bytes|
    ensures r == Ok ==> Loading(p, data + [old(p.memory.arena.contents).bytes[imageAt..imageAt + length]])
    ensures r == Ok ==> p.segments == old(p.segments) + [Segment(address, address + size, flags, nameHash, nameLength)]
    ensures r != Ok ==> p.Ready() && p.segments == old(p.segments)
  {
    Open(p, data, FOLDS);
    OnlyForNothing(p.memory.arena.contents, p.memory.arena.base, p.memory, p.memory.arena.imageTop);
    if length > size || flags > 7 || !p.memory.arena.ImageContains(imageAt, length) { return BadSection; }
    var end := address + size;
    if address < 0x10000 || end < address || end > p.memory.top { return BadSection; }
    if |p.segments| >= SEGMENT_CAPACITY { return BadSection; }
    var clash := FindClash(p, address, end, nameHash, nameLength);
    if clash { return BadSection; }
    var done := PlaceSegment(p, Segment(address, end, flags, nameHash, nameLength), imageAt, length,
                             data, p.memory.arena.contents.bytes[imageAt..imageAt + length]);
    r := if done then Ok else BadMemory;
  }

  method PlaceSegment(p: Process, s: Segment, imageAt: nat, length: nat, ghost data: seq<seq<Byte>>, ghost d: seq<Byte>)
    returns (ok: bool)
    requires Loading(p, data) && Placed(p.segments, p.memory.top, s, length)
    requires p.memory.arena.imageTop <= imageAt && imageAt + length <= |p.memory.arena.contents.bytes|
    requires d == p.memory.arena.contents.bytes[imageAt..imageAt + length]
    modifies p`segments, p`imageFloor
    modifies p.memory`view, p.memory`pageCount, p.memory.entries, p.memory.arena`next, p.memory.arena`contents,
             p.memory.arena.bytes
    ensures OnlyFor(old(p.memory.arena.contents), p.memory.arena.contents, p.memory.arena.base, p.memory,
                    p.memory.arena.imageTop)
    ensures if ok then Loading(p, data + [d]) && p.segments == old(p.segments) + [s]
            else p.Ready() && p.segments == old(p.segments)
  {
    Open(p, data, FOLDS);
    ghost var draft := Drafted(p, data);
    LayingMore(draft, s, d);
    ok := CopyIn(p.memory, s.address, imageAt, length, d);
    if !ok { return false; }
    p.segments := p.segments + [s];
    if s.end > p.imageFloor { p.imageFloor := s.end; }
    assert Drafted(p, data + [d]) == Extended(draft, s, d);
    Close(p, data + [d], FOLDS);
  }

  ghost predicate Entered(segments: seq<Segment>, entry: nat) {
    exists i :: 0 <= i < |segments| && Bit(segments[i].flags, EXECUTE) && segments[i].address <= entry < segments[i].end
  }

  /** Accept the image if the entry is executable, and set the break. */
  method ImageFinish(p: Process, ghost data: seq<seq<Byte>>) returns (r: Status)
    requires Loading(p, data)
    modifies p`brkBase, p`brk
    ensures r == if Entered(p.segments, p.entry) then Ok else BadSection
    ensures r == Ok ==> p.Ready() && p.brkBase == p.imageFloor && p.brk == (p.imageFloor + 4095) / 4096 * 4096
    ensures r == Ok ==> Sound(p.State().(stack := 0))
  {
    Open(p, data, FOLDS);
    var index, executable := 0, false;
    while index < |p.segments|
      invariant 0 <= index <= |p.segments|
      invariant executable <==>
                exists i :: 0 <= i < index && Bit(p.segments[i].flags, EXECUTE) &&
                            p.segments[i].address <= p.entry < p.segments[i].end
    {
      var s := p.segments[index];
      if Bit(s.flags, EXECUTE) && p.entry >= s.address && p.entry < s.end { executable := true; }
      index := index + 1;
    }
    if !executable { return BadSection; }
    p.brkBase, p.brk := p.imageFloor, (p.imageFloor + 4095) / 4096 * 4096;
    r := Ok;
  }

  function Placement(s: Section): Segment {
    Segment(s.address, s.address + s.size, s.flags, s.nameHash, s.nameLength)
  }

  /** The segments of the first `n` sections. */
  ghost function Placements(sections: seq<Section>, n: nat): (r: seq<Segment>)
    requires n <= |sections|
    ensures |r| == n && forall i :: 0 <= i < n ==> r[i] == Placement(sections[i])
  {
    if n == 0 then [] else Placements(sections, n - 1) + [Placement(sections[n - 1])]
  }

  /** What the section object must say about itself. */
  predicate Described(s: Section, payloadLength: nat) {
    PowerOfTwo(s.align) && s.address % s.align == 0 && s.length <= s.size && s.at <= payloadLength &&
        s.length <= payloadLength - s.at
  }

  /** Section `i` describes itself well and fits with those before it. */
  ghost predicate AcceptableAt(sections: seq<Section>, i: nat, top: nat, payloadLength: nat)
    requires i < |sections|
  {
    Described(sections[i], payloadLength) &&
        Placed(Placements(sections, i), top, Placement(sections[i]), sections[i].length)
  }

  ghost predicate Acceptable(sections: seq<Section>, top: nat, payloadLength: nat) {
    |sections| > 0 && forall i :: 0 <= i < |sections| ==> AcceptableAt(sections, i, top, payloadLength)
  }

  ghost function Payload(bytes: seq<Byte>, from: nat, length: nat): seq<Byte> {
    if from + length <= |bytes| then bytes[from..from + length] else []
  }

  /** The payload bytes of the first `n` sections. */
  ghost function Payloads(bytes: seq<Byte>, payload: nat, sections: seq<Section>, n: nat): (r: seq<seq<Byte>>)
    requires n <= |sections|
    ensures |r| == n && forall i :: 0 <= i < n ==> r[i] == Payload(bytes, payload + sections[i].at, sections[i].length)
  {
    if n == 0 then [] else Payloads(bytes, payload, sections, n - 1) +
                           [Payload(bytes, payload + sections[n - 1].at, sections[n - 1].length)]
  }

  /** Place one section, if it is acceptable. */
  method LoadSection(p: Process, ghost c0: Contents, payload: nat, payloadLength: nat, s: Section,
                     ghost data: seq<seq<Byte>>) returns (r: Status)
    requires OnlyFor(c0, p.memory.arena.contents, p.memory.arena.base, p.memory, p.memory.arena.imageTop)
    requires Loading(p, data) && p.memory.arena.ImageContains(payload, payloadLength)
    modifies p`segments, p`imageFloor
    modifies p.memory`view, p.memory`pageCount, p.memory.entries, p.memory.arena`next, p.memory.arena`contents,
             p.memory.arena.bytes
    ensures OnlyFor(c0, p.memory.arena.contents, p.memory.arena.base, p.memory, p.memory.arena.imageTop)
    ensures r == Ok ==> p.segments == old(p.segments) + [Placement(s)]
    ensures r != Ok ==> p.Ready()
    ensures r == Ok ==> Loading(p, data + [Payload(c0.bytes, payload + s.at, s.length)])
    ensures r != BadSection <==>
            Described(s, payloadLength) && Placed(old(p.segments), p.memory.top, Placement(s), s.length)
  {
    OnlyForNothing(c0, p.memory.arena.base, p.memory, p.memory.arena.imageTop);
    Open(p, data, FOLDS);
    if !Described(s, payloadLength) { return BadSection; }
    ghost var c := p.memory.arena.contents;
    SourceUntouched(c0, c, p.memory.arena.base, p.memory, p.memory.arena.imageTop, payload + s.at, s.length, 0,
                    s.length);
    assert c.bytes[payload + s.at..payload + s.at + s.length] == Payload(c0.bytes, payload + s.at, s.length);
    r := ImageSegment(p, s.nameHash, s.nameLength, s.address, s.size, s.flags, payload + s.at, s.length, data);
    OnlyForTransitive(c0, c, p.memory.arena.contents, p.memory.arena.base, p.memory, p.memory.arena.imageTop);
  }

  /** What the header says of the program. */
  datatype Header = Header(virtualTop: nat, entry: nat, phdr: nat, phent: U32, phnum: U32)

  /** The loaded program: its segments are the sections, memory is their
      payloads and zero elsewhere, the entry is executable, and the break is the
      end of the highest segment, rounded up to 4 KiB. */
  ghost predicate Loaded(p: Process, header: Header, sections: seq<Section>, data: seq<seq<Byte>>)
    reads p, p.memory, p.memory.entries, p.memory.arena, p.memory.arena.bytes, p.table, p.table.maps
  {
    match header
    case Header(virtualTop, entry, _, _, _) =>
      && p.Ready() && p.memory.top == virtualTop && p.entry == entry
      && p.segments == Placements(sections, |sections|) && Entered(p.segments, p.entry)
      && Laid(p.segments, data, p.memory.view.mem) && Arranged(p.segments, p.memory.top, p.imageFloor)
      && p.brkBase == p.imageFloor && p.brk == (p.imageFloor + 4095) / 4096 * 4096
      && Sound(p.State().(stack := 0))
  }

  /** `Loaded`, kept folded: callers hand it on, and `LoadedMeans` takes it apart. */
  ghost predicate Resting(p: Process, header: Header, sections: seq<Section>, data: seq<seq<Byte>>, folds: nat)
    reads p, p.memory, p.memory.entries, p.memory.arena, p.memory.arena.bytes, p.table, p.table.maps
  {
    if folds == 0 then Loaded(p, header, sections, data) else Resting(p, header, sections, data, folds - 1)
  }

  lemma LoadedMeans(p: Process, header: Header, sections: seq<Section>, data: seq<seq<Byte>>, folds: nat)
    ensures Resting(p, header, sections, data, folds) <==> Loaded(p, header, sections, data)
  {
  }
}
