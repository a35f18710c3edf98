/** Building the initial stack: the startup block is read twice, once to
    measure it and once to copy its strings. */
module InitialStacks {
  import opened Frames
  import opened Words
  import opened Ownership
  import opened GuestMemory
  import opened Spaces
  import opened Processes
  import opened ImageCopying
  import opened Startups
  import opened StackLayout
  import opened StartupPacking

  datatype Status = Ok | Range | Format | Memory

  // --- the first pass

  /** All entries are good and the last one ends the block. */
  ghost predicate Whole(b: seq<Byte>, base: nat, end: nat, texts: seq<seq<Byte>>) {
    GoodEntries(b, base, end, texts, |texts|) && Cursor(texts, base, |texts|) == end
  }

  lemma NotWhole(b: seq<Byte>, base: nat, end: nat, texts: seq<seq<Byte>>, i: nat)
    requires i < |texts| && !GoodEntry(b, Cursor(texts, base, i), end)
    ensures !Whole(b, base, end, texts)
  {
    if GoodEntries(b, base, end, texts, |texts|) { GoodGives(b, base, end, texts, |texts|, i); }
  }

  const MAX_BYTES := 0x7fff_ffff

  /** Check the entries and add up the space their strings need. */
  method Measure(arena: Arena, ghost b: seq<Byte>, base: nat, end: nat, entries: nat, ghost texts: seq<seq<Byte>>)
    returns (total: nat, r: Status)
    requires arena.Valid() && base <= end <= |arena.contents.bytes| && b == arena.contents.bytes
    requires |texts| == entries && Split(b, base, texts, entries)
    ensures r != Memory
    ensures r == Ok ==> Whole(b, base, end, texts) && total == Total(texts, entries) <= MAX_BYTES
    ensures r == Format ==> !Whole(b, base, end, texts)
    ensures r == Range ==> Total(texts, entries) > MAX_BYTES
  {
    total := 0;
    var cursor, index := base, 0;
    while index < entries
      invariant 0 <= index <= entries && Measured(b, base, end, texts, index, cursor, total)
    {
      var length;
      cursor, length, r := MeasureEntry(arena, b, base, cursor, end, texts, index, total);
      if r != Ok { return; }
      total := total + length + 1;
      index := index + 1;
    }
    r := if cursor == end then Ok else Format;
  }

  /** The first `n` entries are good and end at `cursor`. */
  ghost predicate Measured(b: seq<Byte>, base: nat, end: nat, texts: seq<seq<Byte>>, n: nat, cursor: nat, total: nat)
    requires n <= |texts|
  {
    && cursor == Cursor(texts, base, n) <= end && total == Total(texts, n) <= MAX_BYTES
    && GoodEntries(b, base, end, texts, n)
  }

  method MeasureEntry(arena: Arena, ghost b: seq<Byte>, ghost base: nat, cursor: nat, end: nat,
                      ghost texts: seq<seq<Byte>>, ghost index: nat, total: nat)
    returns (next: nat, length: nat, r: Status)
    requires arena.Valid() && end <= |arena.contents.bytes| && b == arena.contents.bytes
    requires index < |texts| && Split(b, base, texts, |texts|) && Measured(b, base, end, texts, index, cursor, total)
    ensures r != Memory && (r == Format ==> !Whole(b, base, end, texts))
    ensures r == Range ==> Total(texts, |texts|) > MAX_BYTES
    ensures r == Ok ==> Measured(b, base, end, texts, index + 1, next, total + length + 1)
  {
    SplitGives(b, base, texts, |texts|, index);
    var ok;
    next, length, ok := StartupEntry(arena, b, cursor, end);
    if !ok {
      NotWhole(b, base, end, texts, index);
      return next, length, Format;
    }
    TotalGrows(texts, index + 1, |texts|);
    r := if total + length + 1 > MAX_BYTES then Range else Ok;
  }

  // --- the place

  /** Where the stack goes: below the strings there are sixteen random bytes and,
      below the next multiple of sixteen, the table of `words` words; the stack
      pointer is aligned. */
  ghost predicate Placed(top: nat, floor: nat, stackBytes: nat, total: nat, words: nat, bottom: nat, sp: nat,
                         room: nat) {
    && bottom + (if stackBytes < 0x100000 then 0x100000 else stackBytes) == top && 0 < bottom
    && room + 16 + total == top && 16 <= room && sp % 16 == 0 && sp + 8 * words <= (room - 16) / 16 * 16
    && bottom <= sp && (floor + 4095) / 4096 * 4096 + 0x100000 <= sp
  }

  /** There is a place for the stack, above its bottom and near enough to the top. */
  ghost predicate Suits(top: nat, floor: nat, stackBytes: nat, total: nat, words: nat) {
    exists bottom: nat, sp: nat, room: nat ::
      Placed(top, floor, stackBytes, total, words, bottom, sp, room) && bottom < sp && top - sp <= MAX_BYTES
  }

  /** Find the highest place for the stack, if there is one. */
  method Place(top: nat, floor: nat, stackBytes: nat, total: nat, words: nat)
    returns (bottom: nat, sp: nat, random: nat, ok: bool)
    ensures ok ==> Placed(top, floor, stackBytes, total, words, bottom, sp, random + 16)
    ensures forall b: nat, s: nat, room: nat {:trigger Placed(top, floor, stackBytes, total, words, b, s, room)} ::
              Placed(top, floor, stackBytes, total, words, b, s, room) ==> ok && b == bottom && s <= sp
  {
    var limit := if stackBytes < 0x100000 then 0x100000 else stackBytes;
    if top <= limit || top < 32 + total { return 0, 0, 0, false; }
    bottom := top - limit;
    // At least 16, by the check above
    var stringPointer := top - 16 - total;
    random := stringPointer - 16;
    var aligned := random - random % 16;
    if aligned < words * 8 { return 0, 0, 0, false; }
    sp := aligned - words * 8 - (aligned - words * 8) % 16;
    var heapGuard := (floor + 4095) / 4096 * 4096 + 0x100000;
    ok := sp >= bottom && sp >= heapGuard;
  }

  // --- the second pass

  method StackCopy(g: GuestMemory, destination: nat, source: nat, length: nat, ghost data: seq<Byte>)
    returns (r: Status)
    requires g.Valid()
    requires g.arena.ImageContains(source, length) ==> data == g.arena.contents.bytes[source..source + length]
    modifies g`view, g`pageCount, g.entries, g.arena`next, g.arena`contents, g.arena.bytes
    ensures g.Valid() && OnlyFor(old(g.arena.contents), g.arena.contents, g.arena.base, g, g.arena.imageTop)
    ensures r != Range && (r == Format <==> !g.arena.ImageContains(source, length))
    ensures r == Ok ==> g.view.mem == Written(old(g.view.mem), destination, data)
  {
    OnlyForNothing(g.arena.contents, g.arena.base, g, g.arena.imageTop);
    if !g.arena.ImageContains(source, length) { return Format; }
    var ok := CopyIn(g, destination, source, length, data);
    r := if ok then Ok else Memory;
  }

  method PutWord(g: GuestMemory, ghost c0: Contents, ghost s: Stack, address: nat, ghost k: nat, v: nat)
    returns (r: Status)
    requires g.Valid() && OnlyFor(c0, g.arena.contents, g.arena.base, g, g.arena.imageTop)
    requires Building(s, LAYERS) && g.view.mem == s.mem && k < |s.words| && address == s.sp + 8 * k
    modifies g`view, g`pageCount, g.entries, g.arena`next, g.arena`contents, g.arena.bytes
    ensures g.Valid() && OnlyFor(c0, g.arena.contents, g.arena.base, g, g.arena.imageTop)
    ensures r == Ok || r == Memory
    ensures r == Ok ==> Building(s.(mem := g.view.mem, words := s.words[k := v]), LAYERS)
  {
    ghost var c := g.arena.contents;
    var ok := g.StoreWord(address, v, 8);
    OnlyForTransitive(c0, c, g.arena.contents, g.arena.base, g, g.arena.imageTop);
    if ok { WordStored(s, g.view.mem, k, v); }
    r := if ok then Ok else Memory;
  }

  lemma EntryUntouched(c: Contents, d: Contents, base: nat, owner: object, top: nat, cursor: nat, end: nat)
    requires OnlyFor(c, d, base, owner, top) && top <= cursor <= end <= |c.bytes|
    ensures |d.bytes| == |c.bytes| && forall k :: cursor <= k < end ==> d.bytes[k] == c.bytes[k]
    ensures GoodEntry(c.bytes, cursor, end) ==>
      d.bytes[cursor + 4..cursor + 4 + |Text(c.bytes, cursor)|] == Text(c.bytes, cursor)
  {
  }

  /** Copy the string of one entry below those before it. */
  method PutString(g: GuestMemory, ghost c0: Contents, ghost s: Stack, startup: nat, cursor: nat, end: nat,
                   stringPointer: nat)
    returns (next: nat, pointer: nat, r: Status)
    requires g.Valid() && OnlyFor(c0, g.arena.contents, g.arena.base, g, g.arena.imageTop)
    requires startup <= cursor <= end <= |c0.bytes| && g.arena.ImageContains(startup, end - startup)
    requires Building(s, LAYERS) && g.view.mem == s.mem && s.count < |s.texts| && s.count < |s.pointers|
    requires s.texts[s.count] == Text(c0.bytes, cursor) && s.pointers[s.count] + |s.texts[s.count]| + 1 == stringPointer
    modifies g`view, g`pageCount, g.entries, g.arena`next, g.arena`contents, g.arena.bytes
    ensures g.Valid() && OnlyFor(c0, g.arena.contents, g.arena.base, g, g.arena.imageTop)
    ensures r != Range && (r == Format ==> !GoodEntry(c0.bytes, cursor, end))
    ensures r == Ok ==> next == cursor + 4 + |s.texts[s.count]| <= end && pointer == s.pointers[s.count]
    ensures r == Ok ==> Building(s.(mem := g.view.mem, count := s.count + 1), LAYERS)
  {
    ghost var c, text := g.arena.contents, Text(c0.bytes, cursor);
    EntryUntouched(c0, c, g.arena.base, g, g.arena.imageTop, cursor, end);
    var length, good;
    next, length, good := StartupEntry(g.arena, c0.bytes, cursor, end);
    if !good { return 0, 0, Format; }
    pointer := stringPointer - (length + 1);
    StringStored(s, pointer, text);
    r := StackCopy(g, pointer, cursor + 4, length, text);
    OnlyForTransitive(c0, c, g.arena.contents, g.arena.base, g, g.arena.imageTop);
  }

  /** Stack `t` is `s` with `n` more strings written and their pointers put at word `k`. */
  ghost predicate Pushed(s: Stack, t: Stack, k: nat, n: nat) {
    && t == s.(mem := t.mem, count := s.count + n, words := t.words) && |t.words| == |s.words|
    && k + n <= |s.words| && s.count + n <= |s.pointers|
    && (forall j :: k <= j < k + n ==> t.words[j] == s.pointers[s.count + (j - k)])
    && (forall j :: 0 <= j < |s.words| && !(k <= j < k + n) ==> t.words[j] == s.words[j])
  }

  /** `Pushed`, kept folded. */
  ghost predicate Pushing(s: Stack, t: Stack, k: nat, n: nat, layers: nat) {
    if layers > 0 then Pushing(s, t, k, n, layers - 1) else Pushed(s, t, k, n)
  }

  lemma PushingIs(s: Stack, t: Stack, k: nat, n: nat, layers: nat)
    ensures Pushing(s, t, k, n, layers) <==> Pushed(s, t, k, n)
  {
  }

  lemma PushedMore(s: Stack, t: Stack, u: Stack, k: nat, n: nat)
    requires Pushing(s, t, k, n, LAYERS) && k + n < |s.words| == |t.words| && t.count < |s.pointers| == |t.pointers|
    requires u == t.(mem := u.mem, count := t.count + 1, words := t.words[k + n := t.pointers[t.count]])
    ensures Pushing(s, u, k, n + 1, LAYERS) && u.count == s.count + n + 1 && |u.words| == |s.words|
    ensures u.pointers == s.pointers && u.top == s.top && u.texts == s.texts && u.sp == s.sp
  {
    PushingIs(s, t, k, n, LAYERS);
    PushingIs(s, u, k, n + 1, LAYERS);
  }

  /** The block being read, as the ghost state of the second pass knows it. */
  datatype Script = Script(b: seq<Byte>, startup: nat, base: nat, end: nat, texts: seq<seq<Byte>>, pointers: seq<nat>,
                           top: nat)

  ghost predicate Reading(x: Script) {
    match x
    case Script(b, startup, base, end, texts, pointers, top) =>
      && startup <= base <= end <= |b| && Split(b, base, texts, |texts|) && |pointers| == |texts|
      && GoodEntries(b, base, end, texts, |texts|)
      && (forall i {:trigger Low(pointers, top, i)} :: 0 <= i < |texts| ==>
          Low(pointers, top, i) == pointers[i] + |texts[i]| + 1)
  }

  /** The block lies in the live image reservation.  Kept folded. */
  ghost predicate Source(x: Script, c: Contents, startup: nat, end: nat, lock: bool, imageTop: nat, imageSize: nat,
                         layers: nat) {
    if layers > 0 then Source(x, c, startup, end, lock, imageTop, imageSize, layers - 1)
    else lock && x.b == c.bytes && x.startup == startup && x.end == end && imageTop <= startup &&
         end <= imageTop + imageSize && Reading(x)
  }

  lemma SourceGives(x: Script, c: Contents, startup: nat, end: nat, lock: bool, imageTop: nat, imageSize: nat,
                    layers: nat)
    requires Source(x, c, startup, end, lock, imageTop, imageSize, layers)
    ensures Source(x, c, startup, end, lock, imageTop, imageSize, 0)
  {
  }

  lemma SourceHolds(x: Script, c: Contents, startup: nat, end: nat, lock: bool, imageTop: nat, imageSize: nat,
                    layers: nat)
    requires Source(x, c, startup, end, lock, imageTop, imageSize, 0)
    ensures Source(x, c, startup, end, lock, imageTop, imageSize, layers)
  {
  }

  /** The stack is built from the block being read. */
  ghost predicate Follows(s: Stack, x: Script) {
    s.texts == x.texts && s.pointers == x.pointers && s.top == x.top
  }

  /** Copy the next `n` strings and put their addresses into the table from word `k` on. */
  method PutStrings(g: GuestMemory, ghost c0: Contents, ghost s: Stack, startup: nat, cursor: nat, end: nat,
                    ghost x: Script,
                    stringPointer: nat, table: nat, ghost k: nat, n: nat)
    returns (next: nat, pointer: nat, first: nat, r: Status, ghost t: Stack)
    requires g.Valid() && OnlyFor(c0, g.arena.contents, g.arena.base, g, g.arena.imageTop)
    requires Source(x, c0, startup, end, g.arena.imageLock, g.arena.imageTop, g.arena.imageSize, LAYERS) &&
             Follows(s, x)
    requires Building(s, LAYERS) && g.view.mem == s.mem && s.count + n <= |x.texts| == |x.pointers| &&
             k + n <= |s.words|
    requires startup <= cursor == Cursor(x.texts, x.base, s.count) <= end &&
             stringPointer == Low(x.pointers, x.top, s.count) && table == s.sp + 8 * k
    modifies g`view, g`pageCount, g.entries, g.arena`next, g.arena`contents, g.arena.bytes
    ensures g.Valid() && OnlyFor(c0, g.arena.contents, g.arena.base, g, g.arena.imageTop)
    ensures r == Ok || r == Memory
    ensures r == Ok ==> Building(t, LAYERS) && g.view.mem == t.mem && Pushed(s, t, k, n)
    ensures r == Ok ==> startup <= next == Cursor(x.texts, x.base, t.count) <= end &&
                        pointer == Low(x.pointers, x.top, t.count)
    ensures r == Ok && n > 0 ==> first == x.pointers[s.count]
  {
    next, pointer, first, t := cursor, stringPointer, 0, s;
    PushingIs(s, s, k, 0, LAYERS);
    var index := 0;
    while index < n
      invariant 0 <= index <= n
      invariant g.Valid() && OnlyFor(c0, g.arena.contents, g.arena.base, g, g.arena.imageTop)
      invariant Building(t, LAYERS) && g.view.mem == t.mem && Pushing(s, t, k, index, LAYERS) && Follows(t, x)
      invariant t.count == s.count + index && t.sp == s.sp && |t.words| == |s.words|
      invariant startup <= next == Cursor(x.texts, x.base, t.count) <= end && pointer == Low(x.pointers, x.top, t.count)
      invariant index > 0 ==> first == x.pointers[s.count]
    {
      ghost var u := t;
      next, pointer, r, t := PutNext(g, c0, t, startup, next, end, x, pointer, table + 8 * index, k + index);
      if r != Ok { return; }
      PushedMore(s, u, t, k, index);
      if index == 0 { first := pointer; }
      index := index + 1;
    }
    PushingIs(s, t, k, n, LAYERS);
    r := Ok;
  }

  method PutNext(g: GuestMemory, ghost c0: Contents, ghost s: Stack, startup: nat, cursor: nat, end: nat,
                 ghost x: Script,
                 stringPointer: nat, entry: nat, ghost k: nat)
    returns (next: nat, pointer: nat, r: Status, ghost t: Stack)
    requires g.Valid() && OnlyFor(c0, g.arena.contents, g.arena.base, g, g.arena.imageTop)
    requires Source(x, c0, startup, end, g.arena.imageLock, g.arena.imageTop, g.arena.imageSize, LAYERS) &&
             Follows(s, x)
    requires Building(s, LAYERS) && g.view.mem == s.mem && s.count < |x.texts| == |x.pointers| && k < |s.words|
    requires startup <= cursor == Cursor(x.texts, x.base, s.count) <= end &&
             stringPointer == Low(x.pointers, x.top, s.count) && entry == s.sp + 8 * k
    modifies g`view, g`pageCount, g.entries, g.arena`next, g.arena`contents, g.arena.bytes
    ensures g.Valid() && OnlyFor(c0, g.arena.contents, g.arena.base, g, g.arena.imageTop)
    ensures r == Ok || r == Memory
    ensures r == Ok ==> Building(t, LAYERS) &&
                        t == s.(mem := g.view.mem, count := s.count + 1, words := s.words[k := s.pointers[s.count]])
    ensures r == Ok ==> startup <= next == Cursor(x.texts, x.base, s.count + 1) <= end &&
                        pointer == Low(x.pointers, x.top, s.count + 1)
  {
    SourceGives(x, c0, startup, end, g.arena.imageLock, g.arena.imageTop, g.arena.imageSize, LAYERS);
    SplitGives(x.b, x.base, x.texts, |x.texts|, s.count);
    GoodGives(x.b, x.base, x.end, x.texts, |x.texts|, s.count);
    t := s;
    next, pointer, r := PutString(g, c0, s, startup, cursor, end, stringPointer);
    if r != Ok { return; }
    t := s.(mem := g.view.mem, count := s.count + 1);
    r := PutWord(g, c0, t, entry, k, pointer);
    t := t.(mem := g.view.mem, words := s.words[k := pointer]);
  }

  // --- auxiliary vector

  datatype Aux = Aux(key: U64, value: U64)

  /** The keys and values the C library expects. */
  function AuxPairs(p: Process, random: U64, exec: U64): (r: seq<Aux>)
    reads p
    ensures |r| == 15
  {
    var u := p.users;
    [Aux(3, p.phdr), Aux(4, p.phent), Aux(5, p.phnum), Aux(6, 4096), Aux(7, 0), Aux(8, 0), Aux(9, p.entry),
     Aux(11, u.ruid), Aux(12, u.euid), Aux(13, u.rgid), Aux(14, u.egid),
     Aux(23, if u.ruid != u.euid || u.rgid != u.egid then 1 else 0), Aux(25, random), Aux(31, exec), Aux(0, 0)]
  }

  /** Stack `t` is `s` with the first `n` pairs of a list put at word `k`. */
  ghost predicate Listed(s: Stack, t: Stack, k: nat, list: seq<Aux>, n: nat) {
    && t == s.(mem := t.mem, words := t.words) && |t.words| == |s.words| && k + 2 * n <= |s.words| && n <= |list|
    && (forall i {:trigger list[i]} :: 0 <= i < n ==>
        t.words[k + 2 * i] == list[i].key && t.words[k + 2 * i + 1] == list[i].value)
    && (forall j :: 0 <= j < |s.words| && !(k <= j < k + 2 * n) ==> t.words[j] == s.words[j])
  }

  method PutPair(g: GuestMemory, ghost c0: Contents, ghost s: Stack, at: nat, ghost k: nat, pair: Aux)
    returns (r: Status, ghost t: Stack)
    requires g.Valid() && OnlyFor(c0, g.arena.contents, g.arena.base, g, g.arena.imageTop)
    requires Building(s, LAYERS) && g.view.mem == s.mem && k + 1 < |s.words| && at == s.sp + 8 * k
    modifies g`view, g`pageCount, g.entries, g.arena`next, g.arena`contents, g.arena.bytes
    ensures g.Valid() && OnlyFor(c0, g.arena.contents, g.arena.base, g, g.arena.imageTop)
    ensures r == Ok || r == Memory
    ensures r == Ok ==> Building(t, LAYERS) &&
                        t == s.(mem := g.view.mem, words := s.words[k := pair.key][k + 1 := pair.value])
  {
    t := s;
    r := PutWord(g, c0, s, at, k, pair.key);
    if r != Ok { return; }
    t := s.(mem := g.view.mem, words := s.words[k := pair.key]);
    r := PutWord(g, c0, t, at + 8, k + 1, pair.value);
    t := t.(mem := g.view.mem, words := t.words[k + 1 := pair.value]);
  }

  method StackAux(g: GuestMemory, ghost c0: Contents, ghost s: Stack, at: nat, ghost k: nat, list: seq<Aux>)
    returns (r: Status, ghost t: Stack)
    requires g.Valid() && OnlyFor(c0, g.arena.contents, g.arena.base, g, g.arena.imageTop)
    requires Building(s, LAYERS) && g.view.mem == s.mem && k + 2 * |list| <= |s.words| && at == s.sp + 8 * k
    modifies g`view, g`pageCount, g.entries, g.arena`next, g.arena`contents, g.arena.bytes
    ensures g.Valid() && OnlyFor(c0, g.arena.contents, g.arena.base, g, g.arena.imageTop)
    ensures r == Ok || r == Memory
    ensures r == Ok ==> Building(t, LAYERS) && g.view.mem == t.mem && Listed(s, t, k, list, |list|)
  {
    t := s;
    var n, cursor := 0, at;
    while n < |list|
      invariant 0 <= n <= |list| && cursor == at + 16 * n
      invariant g.Valid() && OnlyFor(c0, g.arena.contents, g.arena.base, g, g.arena.imageTop)
      invariant Building(t, LAYERS) && g.view.mem == t.mem && Listed(s, t, k, list, n)
    {
      r, t := PutPair(g, c0, t, cursor, k + 2 * n, list[n]);
      if r != Ok { return; }
      n, cursor := n + 1, cursor + 16;
    }
    r := Ok;
  }

  // --- the whole

  /** The finished table: argc, the argument pointers, zero, the environment
      pointers, zero, and the auxiliary pairs. */
  ghost predicate Completed(t: Stack, argc: nat, envc: nat, list: seq<Aux>) {
    && |list| == 15 && |t.words| == argc + envc + 33 && t.count == |t.texts| == |t.pointers| == argc + envc
    && |t.random| == 16
    && t.words[0] == argc && t.words[1 + argc] == 0 && t.words[2 + argc + envc] == 0
    && (forall j :: 1 <= j < 1 + argc ==> t.words[j] == t.pointers[envc + (j - 1)])
    && (forall j :: 2 + argc <= j < 2 + argc + envc ==> t.words[j] == t.pointers[j - (2 + argc)])
    && (forall i {:trigger list[i]} :: 0 <= i < 15 ==>
          t.words[3 + argc + envc + 2 * i] == list[i].key && t.words[3 + argc + envc + 2 * i + 1] == list[i].value)
  }

  /** A finished stack, kept folded. */
  ghost predicate Full(t: Stack, argc: nat, envc: nat, list: seq<Aux>, layers: nat) {
    if layers > 0 then Full(t, argc, envc, list, layers - 1) else Building(t, LAYERS) && Completed(t, argc, envc, list)
  }

  lemma FullGives(t: Stack, argc: nat, envc: nat, list: seq<Aux>, layers: nat)
    requires Full(t, argc, envc, list, layers)
    ensures Building(t, LAYERS) && Completed(t, argc, envc, list)
  {
  }

  lemma FullHolds(t: Stack, argc: nat, envc: nat, list: seq<Aux>, layers: nat)
    requires Building(t, LAYERS) && Completed(t, argc, envc, list)
    ensures Full(t, argc, envc, list, layers)
  {
  }

  /** A cleared stack, to be filled from the block. */
  ghost predicate Empty(s: Stack, x: Script, argc: nat, envc: nat) {
    && Building(s, LAYERS) && Follows(s, x) && s.count == 0 && |s.random| == 0
    && |x.texts| == |x.pointers| == argc + envc && |s.words| == argc + envc + 33
    && forall j :: 0 <= j < |s.words| ==> s.words[j] == 0
  }

  /** argc and the two terminators. */
  method PutCounts(g: GuestMemory, ghost c0: Contents, ghost s: Stack, sp: nat, argc: nat, envc: nat)
    returns (r: Status, ghost t: Stack)
    requires g.Valid() && OnlyFor(c0, g.arena.contents, g.arena.base, g, g.arena.imageTop)
    requires Building(s, LAYERS) && g.view.mem == s.mem && |s.words| == argc + envc + 33 && sp == s.sp
    modifies g`view, g`pageCount, g.entries, g.arena`next, g.arena`contents, g.arena.bytes
    ensures g.Valid() && OnlyFor(c0, g.arena.contents, g.arena.base, g, g.arena.imageTop)
    ensures r == Ok || r == Memory
    ensures r == Ok ==> Building(t, LAYERS) &&
                        t == s.(mem := g.view.mem, words := s.words[0 := argc][1 + argc := 0][2 + argc + envc := 0])
  {
    t := s;
    var argvTable := sp + 8;
    var envTable := argvTable + argc * 8 + 8;
    r := PutWord(g, c0, t, sp, 0, argc);
    if r != Ok { return; }
    t := t.(mem := g.view.mem, words := t.words[0 := argc]);
    r := PutWord(g, c0, t, argvTable + argc * 8, 1 + argc, 0);
    if r != Ok { return; }
    t := t.(mem := g.view.mem, words := t.words[1 + argc := 0]);
    r := PutWord(g, c0, t, envTable + envc * 8, 2 + argc + envc, 0);
    t := t.(mem := g.view.mem, words := t.words[2 + argc + envc := 0]);
  }

  /** The last part: check where the strings ended, then the random bytes and the auxiliary vector. */
  method Close(p: Process, ghost c0: Contents, ghost s: Stack, startup: nat, stringPointer: nat, random: U64, exec: U64,
               auxTable: nat, ghost k: nat) returns (r: Status, ghost t: Stack, ghost list: seq<Aux>)
    requires p.memory.Valid() &&
             OnlyFor(c0, p.memory.arena.contents, p.memory.arena.base, p.memory, p.memory.arena.imageTop)
    requires Building(s, LAYERS) && p.memory.view.mem == s.mem && random + 16 == s.room
    requires k + 30 <= |s.words| && auxTable == s.sp + 8 * k && startup + 32 <= |c0.bytes|
    modifies p.memory`view, p.memory`pageCount, p.memory.entries, p.memory.arena`next, p.memory.arena`contents,
             p.memory.arena.bytes
    ensures p.memory.Valid() &&
            OnlyFor(c0, p.memory.arena.contents, p.memory.arena.base, p.memory, p.memory.arena.imageTop)
    ensures r == Ok || r == Memory || r == Format
    ensures r == Format ==> stringPointer != random + 16 || exec == 0 || !p.memory.arena.ImageContains(startup + 16, 16)
    ensures r == Ok ==> Building(t, LAYERS) && p.memory.view.mem == t.mem
    ensures r == Ok ==> list == AuxPairs(p, random, exec) &&
                        Listed(s.(random := c0.bytes[startup + 16..startup + 32]), t, k, list, 15)
  {
    t, list := s, [];
    if stringPointer != random + 16 || exec == 0 { return Format, s, []; }
    ghost var c, salt := p.memory.arena.contents, c0.bytes[startup + 16..startup + 32];
    RandomStored(s, salt);
    if p.memory.arena.ImageContains(startup + 16, 16) {
      SourceUntouched(c0, c, p.memory.arena.base, p.memory, p.memory.arena.imageTop, startup + 16, 16, 0, 16);
    }
    r := StackCopy(p.memory, random, startup + 16, 16, salt);
    OnlyForTransitive(c0, c, p.memory.arena.contents, p.memory.arena.base, p.memory, p.memory.arena.imageTop);
    if r != Ok { return; }
    t := s.(mem := p.memory.view.mem, random := salt);
    var pairs := AuxPairs(p, random, exec);
    list := pairs;
    r, t := StackAux(p.memory, c0, t, auxTable, k, pairs);
  }

  /** The table but for the auxiliary pairs, and all strings. */
  ghost predicate Strung(s: Stack, t: Stack, argc: nat, envc: nat) {
    && t == s.(mem := t.mem, count := argc + envc, words := t.words)
    && |t.words| == argc + envc + 33 && |t.texts| == |t.pointers| == argc + envc
    && t.words[0] == argc && t.words[1 + argc] == 0 && t.words[2 + argc + envc] == 0
    && (forall j :: 1 <= j < 1 + argc ==> t.words[j] == t.pointers[envc + (j - 1)])
    && (forall j :: 2 + argc <= j < 2 + argc + envc ==> t.words[j] == t.pointers[j - (2 + argc)])
  }

  lemma StringsDone(s: Stack, t0: Stack, t1: Stack, t: Stack, x: Script, argc: nat, envc: nat)
    requires Follows(s, x) && |x.texts| == |x.pointers| == argc + envc && |s.words| == argc + envc + 33 && s.count == 0
    requires t0 == s.(mem := t0.mem, words := s.words[0 := argc][1 + argc := 0][2 + argc + envc := 0])
    requires Pushed(t0, t1, 2 + argc, envc) && Pushed(t1, t, 1, argc)
    ensures Strung(s, t, argc, envc)
  {
  }

  lemma Completes(s: Stack, t0: Stack, t: Stack, argc: nat, envc: nat, random: seq<Byte>, list: seq<Aux>)
    requires Strung(s, t0, argc, envc) && Listed(t0.(random := random), t, 3 + argc + envc, list, 15) &&
             |random| == 16 && |list| == 15
    ensures Completed(t, argc, envc, list) &&
            t == s.(mem := t.mem, count := argc + envc, words := t.words, random := random)
  {
  }

  method FillStrings(g: GuestMemory, ghost c0: Contents, ghost s: Stack, ghost x: Script, startup: nat, end: nat,
                     sp: nat, argc: nat, envc: nat)
    returns (pointer: nat, exec: nat, r: Status, ghost t: Stack)
    requires g.Valid() && OnlyFor(c0, g.arena.contents, g.arena.base, g, g.arena.imageTop)
    requires Source(x, c0, startup, end, g.arena.imageLock, g.arena.imageTop, g.arena.imageSize, LAYERS)
    requires Empty(s, x, argc, envc) && g.view.mem == s.mem && sp == s.sp && startup + 32 == x.base <= end &&
             16 <= x.top == g.top && 0 < argc
    modifies g`view, g`pageCount, g.entries, g.arena`next, g.arena`contents, g.arena.bytes
    ensures g.Valid() && OnlyFor(c0, g.arena.contents, g.arena.base, g, g.arena.imageTop)
    ensures r == Ok || r == Memory
    ensures r == Ok ==> Building(t, LAYERS) && g.view.mem == t.mem && Strung(s, t, argc, envc)
    ensures r == Ok ==> pointer == Low(x.pointers, x.top, argc + envc) && exec == x.pointers[envc]
  {
    var argvTable := sp + 8;
    var envTable := argvTable + argc * 8 + 8;
    ghost var t0, t1;
    r, t0 := PutCounts(g, c0, s, sp, argc, envc);
    t, pointer, exec := t0, 0, 0;
    if r != Ok { return; }
    var cursor;
    cursor, pointer, exec, r, t1 :=
      PutStrings(g, c0, t0, startup, startup + 32, end, x, g.top - 16, envTable, 2 + argc, envc);
    if r != Ok { return; }
    cursor, pointer, exec, r, t := PutStrings(g, c0, t1, startup, cursor, end, x, pointer, argvTable, 1, argc);
    if r == Ok { StringsDone(s, t0, t1, t, x, argc, envc); }
  }

  /** Fill the cleared stack from the block. */
  method Fill(p: Process, ghost c0: Contents, ghost s: Stack, ghost x: Script, startup: nat, end: nat, sp: nat,
              random: U64, argc: nat, envc: nat)
    returns (r: Status, ghost t: Stack, ghost list: seq<Aux>)
    requires p.memory.Valid() &&
             OnlyFor(c0, p.memory.arena.contents, p.memory.arena.base, p.memory, p.memory.arena.imageTop)
    requires Source(x, c0, startup, end, p.memory.arena.imageLock, p.memory.arena.imageTop, p.memory.arena.imageSize,
                    LAYERS)
    requires Empty(s, x, argc, envc) && p.memory.view.mem == s.mem && sp == s.sp && startup + 32 == x.base
    requires random + 16 == s.room == Low(x.pointers, x.top, argc + envc) && 0 < argc && 16 <= x.top == p.memory.top
    requires 0 < x.pointers[envc] < SPACE && startup + 32 <= end <= |c0.bytes| &&
             p.memory.arena.ImageContains(startup, end - startup)
    modifies p.memory`view, p.memory`pageCount, p.memory.entries, p.memory.arena`next, p.memory.arena`contents,
             p.memory.arena.bytes
    ensures p.memory.Valid() &&
            OnlyFor(c0, p.memory.arena.contents, p.memory.arena.base, p.memory, p.memory.arena.imageTop)
    ensures r == Ok || r == Memory
    ensures r == Ok ==> p.memory.view.mem == t.mem && Full(t, argc, envc, list, LAYERS)
    ensures r == Ok ==> list == AuxPairs(p, random, x.pointers[envc])
    ensures r == Ok ==> t == s.(mem := t.mem, count := argc + envc, words := t.words,
                                random := c0.bytes[startup + 16..startup + 32])
  {
    ghost var t0;
    var stringPointer, exec;
    stringPointer, exec, r, t0 := FillStrings(p.memory, c0, s, x, startup, end, sp, argc, envc);
    t, list := t0, [];
    if r != Ok { return; }
    var auxTable := sp + 8 + argc * 8 + 8 + envc * 8 + 8;
    r, t, list := Close(p, c0, t0, startup, stringPointer, random, exec, auxTable, 3 + argc + envc);
    if r == Ok {
      Completes(s, t0, t, argc, envc, c0.bytes[startup + 16..startup + 32], list);
      FullHolds(t, argc, envc, list, LAYERS);
    }
  }

  lemma Lowest(s: Stack, x: Script, i: nat)
    requires Building(s, LAYERS) && Follows(s, x) && i < |x.texts|
    ensures i < |x.pointers| && 0 < x.pointers[i] < SPACE
  {
    Expose(s, LAYERS);
  }

  // --- what the program finds

  /** The little-endian word at an address. */
  ghost function Word64(m: seq<Byte>, a: nat): int
    requires a + 8 <= |m|
  {
    m[a] as int + 0x100 * m[a + 1] as int + 0x10000 * m[a + 2] as int + 0x1000000 * m[a + 3] as int
      + 0x1_0000_0000 * m[a + 4] as int + 0x100_0000_0000 * m[a + 5] as int
      + 0x1_0000_0000_0000 * m[a + 6] as int + 0x100_0000_0000_0000 * m[a + 7] as int
  }

  lemma Word64IsValue(m: seq<Byte>, a: nat)
    requires a + 8 <= |m|
    ensures Word64(m, a) == Value(m, a, 8)
  {
    assert Value(m, a + 7, 1) == m[a + 7];
    assert Value(m, a + 4, 4) == m[a + 4] as int + 0x100 * m[a + 5] as int + 0x10000 * m[a + 6] as int +
           0x1000000 * m[a + 7] as int;
    assert Value(m, a + 1, 7) == m[a + 1] as int + 0x100 * m[a + 2] as int + 0x10000 * m[a + 3] as int +
           0x1000000 * Value(m, a + 4, 4);
  }

  /** Guest memory as the program reads it. */
  datatype Found = Found(mem: seq<Byte>) {
    ghost predicate Word(a: nat, v: nat) {
      match this
      case Found(m) => a + 8 <= |m| && Word64(m, a) == v
    }

    ghost predicate Text(a: nat, text: seq<Byte>) {
      match this
      case Found(m) => CString(m, a) == text
    }

    /** The word at `a` points to a string. */
    ghost predicate Pointer(a: nat, text: seq<Byte>) {
      match this
      case Found(m) => a + 8 <= |m| && Word64(m, a) >= 0 && CString(m, Word64(m, a)) == text
    }

    /** The words at `table` point to the strings from number `first` on. */
    ghost predicate Pointers(table: nat, texts: seq<seq<Byte>>, first: nat, count: nat)
      requires first + count <= |texts|
    {
      match this
      case Found(m) => forall i :: first <= i < first + count ==> Pointer(table + 8 * (i - first), texts[i])
    }

    ghost predicate Pairs(at: nat, list: seq<Aux>) {
      match this
      case Found(m) => forall i {:trigger list[i]} :: 0 <= i < |list| ==>
          Word(at + 16 * i, list[i].key) && Word(at + 16 * i + 8, list[i].value)
    }

    ghost predicate Bytes(a: nat, data: seq<Byte>) {
      match this
      case Found(m) => DataAt(m, a, data)
    }
  }

  /** argc, the argument pointers, zero, the environment pointers, zero; `texts`
      are the environment strings and then the arguments. */
  ghost predicate Vectors(f: Found, sp: nat, texts: seq<seq<Byte>>, argc: nat, envc: nat) {
    && |texts| == envc + argc
    && f.Word(sp, argc)
    && f.Pointers(sp + 8, texts, envc, argc)
    && f.Word(sp + 8 * (1 + argc), 0)
    && f.Pointers(sp + 8 * (2 + argc), texts, 0, envc)
    && f.Word(sp + 8 * (2 + argc + envc), 0)
  }

  /** Following the words from the stack pointer up gives the arguments, the
      environment and the auxiliary pairs, which lead to the random bytes and
      to the first argument. */
  ghost predicate Delivered(f: Found, sp: nat, texts: seq<seq<Byte>>, argc: nat, envc: nat, random: seq<Byte>,
                            list: seq<Aux>) {
    && Vectors(f, sp, texts, argc, envc) && 0 < argc && |list| == 15
    && f.Pairs(sp + 8 * (3 + argc + envc), list)
    && f.Bytes(list[12].value, random) && f.Text(list[13].value, texts[envc])
  }

  lemma WordReads(f: Found, t: Stack, k: nat, v: U64)
    requires f == Found(t.mem) && Building(t, LAYERS) && k < |t.words| && t.words[k] == v
    ensures f.Word(t.sp + 8 * k, v)
  {
    Expose(t, LAYERS);
    assert Holds(t.mem, t.sp + 8 * k, t.words[k], 8);
    assert Pow256(8) == 256 * Pow256(7) && Pow256(7) == 256 * Pow256(6) && Pow256(6) == 256 * Pow256(5) &&
           Pow256(5) == 256 * Pow256(4);
    assert Pow256(4) == 256 * Pow256(3) && Pow256(3) == 256 * Pow256(2) && Pow256(2) == 65536;
    WordRoundTrip(t.mem, t.sp + 8 * k, v, 8);
    Word64IsValue(t.mem, t.sp + 8 * k);
  }

  ghost predicate NoZeros(texts: seq<seq<Byte>>) {
    forall i, k :: 0 <= i < |texts| && 0 <= k < |texts[i]| ==> texts[i][k] != 0
  }

  lemma PointerReads(f: Found, t: Stack, k: nat, i: nat)
    requires f == Found(t.mem) && Building(t, LAYERS) && NoZeros(t.texts) && i < t.count && i < |t.pointers| &&
             i < |t.texts| && k < |t.words| && t.words[k] == t.pointers[i]
    ensures f.Pointer(t.sp + 8 * k, t.texts[i])
    ensures f.Text(t.pointers[i], t.texts[i])
  {
    Expose(t, LAYERS);
    WordReads(f, t, k, t.pointers[i]);
    StringReads(t.mem, t.pointers[i], t.texts[i]);
  }

  lemma PointersRead(f: Found, t: Stack, k: nat, table: nat, first: nat, count: nat)
    requires f == Found(t.mem) && Building(t, LAYERS) && NoZeros(t.texts) &&
             first + count <= t.count == |t.texts| == |t.pointers|
    requires k + count <= |t.words| && table == t.sp + 8 * k
    requires forall j :: k <= j < k + count ==> t.words[j] == t.pointers[first + (j - k)]
    ensures f.Pointers(table, t.texts, first, count)
  {
    forall i | first <= i < first + count ensures f.Pointer(table + 8 * (i - first), t.texts[i]) {
      assert t.words[k + (i - first)] == t.pointers[first + (k + (i - first) - k)];
      PointerReads(f, t, k + (i - first), i);
    }
  }

  lemma PairsRead(f: Found, t: Stack, k: nat, at: nat, list: seq<Aux>)
    requires f == Found(t.mem) && Building(t, LAYERS) && k + 2 * |list| <= |t.words| && at == t.sp + 8 * k
    requires forall i {:trigger list[i]} :: 0 <= i < |list| ==>
             t.words[k + 2 * i] == list[i].key && t.words[k + 2 * i + 1] == list[i].value
    ensures f.Pairs(at, list)
  {
    forall i {:trigger list[i]} | 0 <= i < |list|
      ensures f.Word(at + 16 * i, list[i].key) && f.Word(at + 16 * i + 8, list[i].value)
    {
      WordReads(f, t, k + 2 * i, list[i].key);
      WordReads(f, t, k + 2 * i + 1, list[i].value);
    }
  }

  lemma RandomReads(f: Found, t: Stack)
    requires f == Found(t.mem) && Building(t, LAYERS)
    ensures t.room >= 16 && f.Bytes(t.room - 16, t.random)
  {
    Expose(t, LAYERS);
  }

  lemma VectorsRead(f: Found, t: Stack, argc: nat, envc: nat, list: seq<Aux>)
    requires f == Found(t.mem) && Building(t, LAYERS) && Completed(t, argc, envc, list) && NoZeros(t.texts) &&
             argc + envc < SPACE
    ensures Vectors(f, t.sp, t.texts, argc, envc)
  {
    PointersRead(f, t, 1, t.sp + 8, envc, argc);
    PointersRead(f, t, 2 + argc, t.sp + 8 * (2 + argc), 0, envc);
    WordReads(f, t, 0, argc);
    WordReads(f, t, 1 + argc, 0);
    WordReads(f, t, 2 + argc + envc, 0);
  }

  lemma Delivers(f: Found, t: Stack, argc: nat, envc: nat, list: seq<Aux>)
    requires f == Found(t.mem) && Building(t, LAYERS) && Completed(t, argc, envc, list) && NoZeros(t.texts) &&
             0 < argc && argc + envc < SPACE
    requires list[12].value == t.room - 16 && list[13].value == t.pointers[envc]
    ensures Delivered(f, t.sp, t.texts, argc, envc, t.random, list)
  {
    RandomReads(f, t);
    assert t.words[1] == t.pointers[envc + (1 - 1)];
    PointerReads(f, t, 1, envc);
    PairsRead(f, t, 3 + argc + envc, t.sp + 8 * (3 + argc + envc), list);
    VectorsRead(f, t, argc, envc, list);
  }

  lemma StartKeepsSound(s: Space, t: Space, sp: nat)
    requires Sound(s.(stack := 0)) && s.list == [] && t == s.(stack := t.stack, mem := t.mem)
    requires 0 < t.stack <= sp <= t.top && ChangedWithin(s.mem, t.mem, sp, t.top)
    ensures Sound(t)
  {
    forall a {:trigger t.mem[a]} | 0 <= a < SPACE && t.mem[a] != 0 ensures InUse(t, a) {
      if !(sp <= a < t.top) {
        assert t.mem[a] == s.mem[a];
        assert InUse(s.(stack := 0), a);
      }
    }
  }

  /** Make the pages of the stack table and strings, cleared, and set the stack. */
  method StackPrepare(p: Process, bottom: nat, sp: nat) returns (r: Status)
    requires p.Ready()
    modifies p`stackBottom, p`stackPointer
    modifies p.memory`view, p.memory`pageCount, p.memory.entries, p.memory.arena`next, p.memory.arena`contents,
             p.memory.arena.bytes
    ensures p.Ready() &&
            OnlyFor(old(p.memory.arena.contents), p.memory.arena.contents, p.memory.arena.base, p.memory,
                    p.memory.arena.imageTop)
    ensures r != Format && (r == Range <==> bottom >= sp || sp >= p.memory.top || p.memory.top - sp > MAX_BYTES)
    ensures r == Ok ==> bottom < sp < p.memory.top && p.stackBottom == bottom && p.stackPointer == sp
    ensures r == Ok ==> p.memory.view.mem == Zeroed(old(p.memory.view.mem), sp, p.memory.top)
    ensures r != Ok ==> p.stackBottom == old(p.stackBottom) && p.stackPointer == old(p.stackPointer)
  {
    OnlyForNothing(p.memory.arena.contents, p.memory.arena.base, p.memory, p.memory.arena.imageTop);
    var top := p.memory.top;
    if bottom >= sp || sp >= top || top - sp > MAX_BYTES { return Range; }
    var ok := Prepare(p.memory, sp, top - sp);
    if !ok { return Memory; }
    p.stackBottom, p.stackPointer := bottom, sp;
    r := Ok;
  }

  ghost function ScriptOf(b: seq<Byte>, startup: nat, end: nat, texts: seq<seq<Byte>>, top: nat): Script {
    Script(b, startup, startup + 32, end, texts, Pointers(texts, top), top)
  }

  lemma ScriptReading(b: seq<Byte>, startup: nat, end: nat, texts: seq<seq<Byte>>, top: nat)
    requires Total(texts, |texts|) + 16 <= top && startup + 32 <= end <= |b| && Split(b, startup + 32, texts, |texts|)
    requires GoodEntries(b, startup + 32, end, texts, |texts|)
    ensures Reading(ScriptOf(b, startup, end, texts, top))
  {
    var pointers := Pointers(texts, top);
    forall i {:trigger Low(pointers, top, i)} | 0 <= i < |texts| ensures Low(pointers, top, i) == pointers[i] +
        |texts[i]| + 1 {
      PointerStep(texts, top, i);
    }
  }

  lemma {:induction false} GoodNoZeros(b: seq<Byte>, base: nat, end: nat, texts: seq<seq<Byte>>)
    requires Split(b, base, texts, |texts|) && GoodEntries(b, base, end, texts, |texts|)
    ensures NoZeros(texts)
  {
    forall i, k | 0 <= i < |texts| && 0 <= k < |texts[i]| ensures texts[i][k] != 0 {
      SplitGives(b, base, texts, |texts|, i);
      GoodGives(b, base, end, texts, |texts|, i);
      assert b[Cursor(texts, base, i) + 4 + k] != 0;
    }
  }

  /** A started program: its strings, memory before and now, top and stack pointer. */
  datatype Launch = Launch(texts: seq<seq<Byte>>, pointers: seq<nat>, total: nat, argc: nat, envc: nat,
                           random: seq<Byte>, list: seq<Aux>,
                           before: seq<Byte>, mem: seq<Byte>, top: nat, room: nat, sp: nat)

  /** The program finds the strings of the block, which do not meet each other,
      the random bytes or the table, and nothing else changed.  Kept folded;
      `LaunchGives` unfolds it. */
  ghost predicate Launched(l: Launch, layers: nat) {
    if layers > 0 then Launched(l, layers - 1)
    else
      && l.total == Total(l.texts, |l.texts|) && l.room + 16 + l.total == l.top < SPACE
      && l.sp + 8 * (|l.texts| + 33) + 16 <= l.room && l.sp % 16 == 0
      && Stacked(l.texts, l.pointers, l.room, l.top)
      && Delivered(Found(l.mem), l.sp, l.texts, l.argc, l.envc, l.random, l.list)
      && l.list[12].value == l.room - 16 && l.envc < |l.pointers| && l.list[13].value == l.pointers[l.envc]
      && ChangedWithin(l.before, l.mem, l.sp, l.top)
  }

  lemma LaunchGives(l: Launch, layers: nat)
    requires Launched(l, layers)
    ensures Launched(l, 0)
  {
  }

  lemma Launches(t: Stack, l: Launch)
    requires Building(t, LAYERS) && Completed(t, l.argc, l.envc, l.list) && NoZeros(t.texts) && 0 < l.argc &&
             l.argc + l.envc < SPACE
    requires t.room + 16 + Total(t.texts, |t.texts|) == t.top && t.sp % 16 == 0
    requires l.list[12].value == t.room - 16 && l.list[13].value == t.pointers[l.envc]
    requires l == Launch(t.texts, t.pointers, Total(t.texts, |t.texts|), l.argc, l.envc, t.random, l.list, t.before,
                         t.mem, t.top, t.room, t.sp)
    ensures Launched(l, LAYERS)
  {
    Expose(t, LAYERS);
    Delivers(Found(l.mem), t, l.argc, l.envc, l.list);
    LaunchHolds(l, LAYERS);
  }

  lemma LaunchHolds(l: Launch, layers: nat)
    requires Launched(l, 0)
    ensures Launched(l, layers)
  {
  }

  /** The block starts with a header that gives these counts. */
  ghost predicate Headed(b: seq<Byte>, startup: nat, length: nat, argc: nat, envc: nat) {
    && 32 <= length && startup + length <= |b| && Value(b, startup, 4) == MAGIC
    && argc == Argc(b, startup) && envc == Envc(b, startup) && 1 <= argc <= 4096 && envc <= 8192
  }

  method ReadHeader(arena: Arena, startup: nat, length: nat) returns (argc: nat, envc: nat, ok: bool)
    requires arena.Valid() && startup + length <= |arena.contents.bytes|
    ensures ok <==> 32 <= length && Value(arena.contents.bytes, startup, 4) == MAGIC &&
                    1 <= Argc(arena.contents.bytes, startup) <= 4096 && Envc(arena.contents.bytes, startup) <= 8192
    ensures ok ==> Headed(arena.contents.bytes, startup, length, argc, envc)
  {
    if length < 32 { return 0, 0, false; }
    LoadIsValue(arena, startup);
    LoadIsValue(arena, startup + 4);
    LoadIsValue(arena, startup + 8);
    if LoadU32(arena, startup) != MAGIC { return 0, 0, false; }
    argc, envc := LoadU32(arena, startup + 4), LoadU32(arena, startup + 8);
    ok := argc >= 1 && argc <= 4096 && envc <= 8192;
  }

  /** Find the place of the stack and clear it. */
  method Lay(p: Process, ghost c0: Contents, ghost x: Script, total: nat, stackBytes: nat, words: nat)
    returns (r: Status, sp: nat, random: nat, ghost s: Stack)
    requires p.Ready() && c0 == p.memory.arena.contents
    requires total == Total(x.texts, |x.texts|) && 0 < words
    modifies p`stackBottom, p`stackPointer
    modifies p.memory`view, p.memory`pageCount, p.memory.entries, p.memory.arena`next, p.memory.arena`contents,
             p.memory.arena.bytes
    ensures p.Ready() && OnlyFor(c0, p.memory.arena.contents, p.memory.arena.base, p.memory, p.memory.arena.imageTop)
    ensures r != Format && (r == Range ==> !Suits(p.memory.top, p.imageFloor, stackBytes, total, words))
    ensures r == Ok ==> Suits(p.memory.top, p.imageFloor, stackBytes, total, words)
    ensures r == Ok ==> p.stackPointer == sp && p.memory.view.mem == s.mem
    ensures r == Ok ==> Placed(p.memory.top, p.imageFloor, stackBytes, total, words, p.stackBottom, sp, random + 16)
    ensures r == Ok ==> s == Stack(old(p.memory.view.mem), s.mem, sp, p.memory.top, random + 16, Zeros(words), x.texts,
                                   Pointers(x.texts, p.memory.top), 0, [])
    ensures r == Ok ==> Building(s, LAYERS)
  {
    ghost var m := p.memory.view.mem;
    OnlyForNothing(c0, p.memory.arena.base, p.memory, p.memory.arena.imageTop);
    var top := p.memory.top;
    var bottom, placed;
    bottom, sp, random, placed := Place(top, p.imageFloor, stackBytes, total, words);
    s := Stack(m, m, 0, 0, 0, [], [], [], 0, []);
    if !placed { return Memory, 0, 0, s; }
    r := StackPrepare(p, bottom, sp);
    if r != Ok { return; }
    s := Stack(m, p.memory.view.mem, sp, top, random + 16, Zeros(words), x.texts, Pointers(x.texts, top), 0, []);
    Laid(m, s.mem, sp, top, random + 16, bottom, p.imageFloor, stackBytes, total, words, x.texts);
  }

  /** The cleared stack is one that is being built, with nothing in it yet. */
  lemma Laid(m: seq<Byte>, r: seq<Byte>, sp: nat, top: nat, room: nat, bottom: nat, floor: nat, stackBytes: nat,
             total: nat, words: nat,
             texts: seq<seq<Byte>>)
    requires Placed(top, floor, stackBytes, total, words, bottom, sp, room) && total == Total(texts, |texts|) &&
             0 < words
    requires |m| == SPACE && sp < top < SPACE && r == Zeroed(m, sp, top)
    ensures Building(Stack(m, r, sp, top, room, Zeros(words), texts, Pointers(texts, top), 0, []), LAYERS)
  {
    PointersStacked(texts, top, Pointers(texts, top), room);
    StackLayout.Cleared(m, r, sp, top, room, Zeros(words), texts, Pointers(texts, top));
  }

  ghost function Zeros(n: nat): (r: seq<nat>)
    ensures |r| == n && forall k :: 0 <= k < n ==> r[k] == 0
  {
    seq(n, _ => 0)
  }

  /** What is known of the block after the first pass. */
  ghost predicate Passes(b: seq<Byte>, startup: nat, end: nat, argc: nat, envc: nat, total: nat,
                         texts: seq<seq<Byte>>) {
    && startup + 32 <= end <= |b| && texts == Strings(b, startup) && argc == Argc(b, startup)
    && envc == Envc(b, startup)
    && 0 < argc <= 4096 && envc <= 8192 && total == Total(texts, |texts|)
    && Split(b, startup + 32, texts, |texts|) && Whole(b, startup + 32, end, texts)
  }

  /** `Passes`, kept folded. */
  ghost predicate Passed(b: seq<Byte>, startup: nat, end: nat, argc: nat, envc: nat, total: nat, texts: seq<seq<Byte>>,
                         layers: nat) {
    if layers > 0 then Passed(b, startup, end, argc, envc, total, texts, layers - 1)
       else Passes(b, startup, end, argc, envc, total, texts)
  }

  lemma PassedGives(b: seq<Byte>, startup: nat, end: nat, argc: nat, envc: nat, total: nat, texts: seq<seq<Byte>>,
                    layers: nat)
    requires Passed(b, startup, end, argc, envc, total, texts, layers)
    ensures Passes(b, startup, end, argc, envc, total, texts)
  {
  }

  lemma PassedHolds(b: seq<Byte>, startup: nat, end: nat, argc: nat, envc: nat, total: nat, texts: seq<seq<Byte>>,
                    layers: nat)
    requires Passes(b, startup, end, argc, envc, total, texts)
    ensures Passed(b, startup, end, argc, envc, total, texts, layers)
  {
  }

  lemma PassedCounts(b: seq<Byte>, startup: nat, end: nat, argc: nat, envc: nat, total: nat, texts: seq<seq<Byte>>)
    requires Passed(b, startup, end, argc, envc, total, texts, LAYERS)
    ensures startup + 32 <= end <= |b| && |texts| == argc + envc && 0 < argc && total == Total(texts, |texts|)
  {
    PassedGives(b, startup, end, argc, envc, total, texts, LAYERS);
  }

  /** What the second pass starts from. */
  lemma ReadyToFill(c0: Contents, startup: nat, end: nat, argc: nat, envc: nat, total: nat, x: Script, s: Stack,
                    lock: bool, imageTop: nat, imageSize: nat)
    requires Passed(c0.bytes, startup, end, argc, envc, total, x.texts, LAYERS) && lock && imageTop <= startup &&
             end <= imageTop + imageSize
    requires x == ScriptOf(c0.bytes, startup, end, x.texts, x.top) && Building(s, LAYERS) &&
             s.room + 16 + total == x.top
    requires s == Stack(s.before, s.mem, s.sp, x.top, s.room, Zeros(argc + envc + 33), x.texts,
                        Pointers(x.texts, x.top), 0, [])
    ensures Source(x, c0, startup, end, lock, imageTop, imageSize, LAYERS) && Empty(s, x, argc, envc)
    ensures s.room == Low(x.pointers, x.top, argc + envc) && envc < |x.pointers| && 0 < x.pointers[envc] < SPACE
  {
    PassedGives(c0.bytes, startup, end, argc, envc, total, x.texts, LAYERS);
    ScriptReading(c0.bytes, startup, end, x.texts, x.top);
    SourceHolds(x, c0, startup, end, lock, imageTop, imageSize, LAYERS);
    PointersStacked(x.texts, x.top, x.pointers, s.room);
    Lowest(s, x, envc);
  }

  /** Everything the stack needs is known: lay it out and fill it. */
  method Build(p: Process, ghost c0: Contents, startup: nat, end: nat, argc: nat, envc: nat, total: nat,
               stackBytes: nat, ghost texts: seq<seq<Byte>>)
    returns (r: Status, ghost t: Stack, ghost list: seq<Aux>)
    requires p.Ready() && c0 == p.memory.arena.contents && startup <= end &&
             p.memory.arena.ImageContains(startup, end - startup)
    requires Passed(c0.bytes, startup, end, argc, envc, total, texts, LAYERS)
    requires startup + 32 <= end <= |c0.bytes|
    modifies p`stackBottom, p`stackPointer
    modifies p.memory`view, p.memory`pageCount, p.memory.entries, p.memory.arena`next, p.memory.arena`contents,
             p.memory.arena.bytes
    ensures p.Ready() && OnlyFor(c0, p.memory.arena.contents, p.memory.arena.base, p.memory, p.memory.arena.imageTop)
    ensures r != Format && (r == Range ==> !Suits(p.memory.top, p.imageFloor, stackBytes, total, argc + envc + 33))
    ensures r == Ok ==> Suits(p.memory.top, p.imageFloor, stackBytes, total, argc + envc + 33)
    ensures r == Ok ==> p.memory.view.mem == t.mem
    ensures r == Ok ==> t == Stack(old(p.memory.view.mem), t.mem, p.stackPointer, p.memory.top, t.room, t.words, texts,
                                   Pointers(texts, p.memory.top), argc + envc, c0.bytes[startup + 16..startup + 32])
    ensures r == Ok ==> Placed(p.memory.top, p.imageFloor, stackBytes, total, argc + envc + 33, p.stackBottom,
                               p.stackPointer, t.room)
    ensures r == Ok ==> 16 <= t.room < SPACE && envc < |t.pointers| && 0 < t.pointers[envc] < SPACE
    ensures r == Ok ==> Full(t, argc, envc, list, LAYERS) && list == AuxPairs(p, t.room - 16, t.pointers[envc])
  {
    PassedCounts(c0.bytes, startup, end, argc, envc, total, texts);
    ghost var x, s;
    x := ScriptOf(c0.bytes, startup, end, texts, p.memory.top);
    var sp, random;
    r, sp, random, s := Lay(p, c0, x, total, stackBytes, argc + envc + 33);
    t, list := s, [];
    if r != Ok { return; }
    ReadyToFill(c0, startup, end, argc, envc, total, x, s, p.memory.arena.imageLock, p.memory.arena.imageTop,
                p.memory.arena.imageSize);
    r, t, list := Fill(p, c0, s, x, startup, end, sp, random, argc, envc);
  }

  /** A stack was built for the strings of a block. */
  ghost predicate LaunchedFrom(l: Launch, b: seq<Byte>, startup: nat) {
    && startup + 32 <= |b| && Launched(l, LAYERS)
    && l.texts == Strings(b, startup) && l.argc == Argc(b, startup) && l.envc == Envc(b, startup)
    && l.random == b[startup + 16..startup + 32]
  }

  lemma FromBlock(t: Stack, l: Launch, b: seq<Byte>, startup: nat, end: nat)
    requires startup + 32 <= end <= |b| && GoodEntries(b, startup + 32, end, t.texts, |t.texts|) &&
             Split(b, startup + 32, t.texts, |t.texts|)
    requires t.texts == Strings(b, startup) && l.argc == Argc(b, startup) && l.envc == Envc(b, startup) &&
             t.random == b[startup + 16..startup + 32]
    requires Building(t, LAYERS) && Completed(t, l.argc, l.envc, l.list) && 0 < l.argc && l.argc + l.envc < SPACE
    requires t.room + 16 + Total(t.texts, |t.texts|) == t.top && t.sp % 16 == 0
    requires l.list[12].value == t.room - 16 && l.list[13].value == t.pointers[l.envc]
    requires l == Launch(t.texts, t.pointers, Total(t.texts, |t.texts|), l.argc, l.envc, t.random, l.list, t.before,
                         t.mem, t.top, t.room, t.sp)
    ensures LaunchedFrom(l, b, startup)
  {
    GoodNoZeros(b, startup + 32, end, t.texts);
    Launches(t, l);
  }

  /** The process is set up as the launch says. */
  ghost predicate Running(p: Process, l: Launch, stackBytes: nat)
    reads p, p.memory
  {
    && l.mem == p.memory.view.mem && l.top == p.memory.top < SPACE && l.sp == p.stackPointer
    && 16 <= l.room < SPACE && l.envc < |l.pointers| && l.pointers[l.envc] < SPACE
    && l.list == AuxPairs(p, l.room - 16, l.pointers[l.envc])
    && Placed(l.top, p.imageFloor, stackBytes, l.total, l.argc + l.envc + 33, p.stackBottom, l.sp, l.room)
  }

  /** `WellFormed`, kept folded. */
  ghost predicate Accepts(b: seq<Byte>, startup: nat, length: nat, layers: nat) {
    if layers > 0 then Accepts(b, startup, length, layers - 1) else WellFormed(b, startup, length)
  }

  lemma AcceptsWellFormed(b: seq<Byte>, startup: nat, length: nat, layers: nat)
    ensures Accepts(b, startup, length, layers) <==> WellFormed(b, startup, length)
  {
  }

  /** What the strings of a block take, with their terminators. */
  ghost function StringBytes(b: seq<Byte>, startup: nat): nat {
    if startup + 32 <= |b| then Total(Strings(b, startup), |Strings(b, startup)|) else 0
  }

  /** The words of the table: the two counts of strings, and 33 more. */
  ghost function TableWords(b: seq<Byte>, startup: nat): nat {
    if startup + 32 <= |b| then Argc(b, startup) + Envc(b, startup) + 33 else 33
  }

  /** The strings of the block are few enough, and there is a place for the stack. */
  ghost predicate Fitting(b: seq<Byte>, startup: nat, top: nat, floor: nat, stackBytes: nat) {
    && StringBytes(b, startup) <= MAX_BYTES
    && Suits(top, floor, stackBytes, StringBytes(b, startup), TableWords(b, startup))
  }

  lemma CheckDone(b: seq<Byte>, startup: nat, length: nat, argc: nat, envc: nat, total: nat, r: Status,
                  texts: seq<seq<Byte>>)
    requires Headed(b, startup, length, argc, envc) && texts == Strings(b, startup)
    requires Split(b, startup + 32, texts, |texts|)
    requires r == Ok ==> Whole(b, startup + 32, startup + length, texts) && total == Total(texts, |texts|)
    requires r == Format ==> !Whole(b, startup + 32, startup + length, texts)
    requires r == Range ==> Total(texts, |texts|) > MAX_BYTES
    requires r == Ok ==> total <= MAX_BYTES
    ensures r == Range ==> StringBytes(b, startup) > MAX_BYTES
    ensures r == Ok ==> total == StringBytes(b, startup) <= MAX_BYTES && argc + envc + 33 == TableWords(b, startup)
    ensures r == Format ==> !Accepts(b, startup, length, LAYERS)
    ensures r == Ok ==> Accepts(b, startup, length, LAYERS) &&
                        Passed(b, startup, startup + length, argc, envc, total, texts, LAYERS)
  {
    AcceptsWellFormed(b, startup, length, LAYERS);
    if r == Ok { PassedHolds(b, startup, startup + length, argc, envc, total, texts, LAYERS); }
  }

  method CheckEntries(arena: Arena, startup: nat, length: nat, argc: nat, envc: nat)
    returns (total: nat, r: Status, ghost texts: seq<seq<Byte>>)
    requires arena.Valid() && Headed(arena.contents.bytes, startup, length, argc, envc)
    ensures r != Memory && (r == Format ==> !Accepts(arena.contents.bytes, startup, length, LAYERS))
    ensures r == Range ==> StringBytes(arena.contents.bytes, startup) > MAX_BYTES
    ensures r == Ok ==> Accepts(arena.contents.bytes, startup, length, LAYERS)
    ensures r == Ok ==> total == StringBytes(arena.contents.bytes, startup) <= MAX_BYTES
    ensures r == Ok ==> argc + envc + 33 == TableWords(arena.contents.bytes, startup)
    ensures r == Ok ==>
            Passed(arena.contents.bytes, startup, startup + length, argc, envc, total, texts, LAYERS)
  {
    ghost var b := arena.contents.bytes;
    texts := Strings(b, startup);
    TextsSplit(b, startup + 32, texts, |texts|);
    total, r := Measure(arena, b, startup + 32, startup + length, argc + envc, texts);
    CheckDone(b, startup, length, argc, envc, total, r, texts);
  }

  /** The first pass: the header, then all entries. */
  method Check(arena: Arena, startup: nat, length: nat)
    returns (argc: nat, envc: nat, total: nat, r: Status, ghost texts: seq<seq<Byte>>)
    requires arena.Valid() && startup + length <= |arena.contents.bytes|
    ensures r != Memory && (r == Format ==> !Accepts(arena.contents.bytes, startup, length, LAYERS))
    ensures r == Range ==> StringBytes(arena.contents.bytes, startup) > MAX_BYTES
    ensures r == Ok ==> Accepts(arena.contents.bytes, startup, length, LAYERS)
    ensures r == Ok ==> total == StringBytes(arena.contents.bytes, startup) <= MAX_BYTES
    ensures r == Ok ==> argc + envc + 33 == TableWords(arena.contents.bytes, startup)
    ensures r == Ok ==> 32 <= length &&
                        Passed(arena.contents.bytes, startup, startup + length, argc, envc, total, texts, LAYERS)
  {
    ghost var b := arena.contents.bytes;
    var ok;
    total, texts := 0, [];
    argc, envc, ok := ReadHeader(arena, startup, length);
    if !ok {
      AcceptsWellFormed(b, startup, length, LAYERS);
      return argc, envc, 0, Format, [];
    }
    total, r, texts := CheckEntries(arena, startup, length, argc, envc);
  }

  ghost function LaunchOf(t: Stack, total: nat, argc: nat, envc: nat, list: seq<Aux>): Launch {
    Launch(t.texts, t.pointers, total, argc, envc, t.random, list, t.before, t.mem, t.top, t.room, t.sp)
  }

  lemma Concludes(t: Stack, b: seq<Byte>, startup: nat, end: nat, argc: nat, envc: nat, total: nat, list: seq<Aux>)
    requires Passed(b, startup, end, argc, envc, total, t.texts, LAYERS) && startup + 32 <= |b| &&
             t.random == b[startup + 16..startup + 32]
    requires Full(t, argc, envc, list, LAYERS) && t.room + 16 + total == t.top && t.sp % 16 == 0 && envc < |t.pointers|
    requires |list| == 15 ==> list[12].value == t.room - 16 && list[13].value == t.pointers[envc]
    ensures LaunchedFrom(LaunchOf(t, total, argc, envc, list), b, startup) && |t.texts| == argc + envc &&
            total == Total(t.texts, |t.texts|)
    ensures t.room >= 16 && ChangedWithin(t.before, t.mem, t.sp, t.top)
  {
    PassedGives(b, startup, end, argc, envc, total, t.texts, LAYERS);
    FullGives(t, argc, envc, list, LAYERS);
    FromBlock(t, LaunchOf(t, total, argc, envc, list), b, startup, end);
    Expose(t, LAYERS);
  }

  method SecondPass(p: Process, ghost c0: Contents, startup: nat, end: nat, argc: nat, envc: nat, total: nat,
                    stackBytes: nat, ghost texts: seq<seq<Byte>>)
    returns (r: Status, ghost l: Launch)
    requires p.Ready() && c0 == p.memory.arena.contents && startup <= end &&
             p.memory.arena.ImageContains(startup, end - startup)
    requires Passed(c0.bytes, startup, end, argc, envc, total, texts, LAYERS) && startup + 32 <= end <= |c0.bytes|
    modifies p`stackBottom, p`stackPointer
    modifies p.memory`view, p.memory`pageCount, p.memory.entries, p.memory.arena`next, p.memory.arena`contents,
             p.memory.arena.bytes
    ensures p.Ready() && OnlyFor(c0, p.memory.arena.contents, p.memory.arena.base, p.memory, p.memory.arena.imageTop)
    ensures r != Format && (r == Range ==> !Suits(p.memory.top, p.imageFloor, stackBytes, total, argc + envc + 33))
    ensures r == Ok ==> Suits(p.memory.top, p.imageFloor, stackBytes, total, argc + envc + 33)
    ensures r == Ok ==> LaunchedFrom(l, c0.bytes, startup)
    ensures r == Ok ==> l.before == old(p.memory.view.mem) && Running(p, l, stackBytes) &&
                        ChangedWithin(l.before, l.mem, l.sp, l.top)
  {
    ghost var t, list;
    r, t, list := Build(p, c0, startup, end, argc, envc, total, stackBytes, texts);
    l := LaunchOf(t, total, argc, envc, list);
    if r == Ok { Concludes(t, c0.bytes, startup, end, argc, envc, total, list); }
  }

  /** `BuildInitialStack`, its check folded. */
  method BuildChecked(p: Process, startup: nat, length: nat, stackBytes: nat) returns (r: Status, ghost l: Launch)
    requires p.Ready()
    modifies p`stackBottom, p`stackPointer
    modifies p.memory`view, p.memory`pageCount, p.memory.entries, p.memory.arena`next, p.memory.arena`contents,
             p.memory.arena.bytes
    ensures p.Ready() &&
            OnlyFor(old(p.memory.arena.contents), p.memory.arena.contents, p.memory.arena.base, p.memory,
                    p.memory.arena.imageTop)
    ensures r == Format ==> !Accepts(old(p.memory.arena.contents).bytes, startup, length, LAYERS)
    ensures r == Range && old(p.memory.arena.ImageContains(startup, length)) ==>
            !Fitting(old(p.memory.arena.contents).bytes, startup, p.memory.top, p.imageFloor, stackBytes)
    ensures r == Ok ==> old(p.memory.arena.ImageContains(startup, length))
    ensures r == Ok ==>
            Fitting(old(p.memory.arena.contents).bytes, startup, p.memory.top, p.imageFloor, stackBytes)
    ensures r == Ok ==> Accepts(old(p.memory.arena.contents).bytes, startup, length, LAYERS)
    ensures r == Ok ==> LaunchedFrom(l, old(p.memory.arena.contents).bytes, startup)
    ensures r == Ok ==> l.before == old(p.memory.view.mem) && Running(p, l, stackBytes) &&
                        ChangedWithin(l.before, l.mem, l.sp, l.top)
  {
    ghost var c0 := p.memory.arena.contents;
    l := Launch([], [], 0, 0, 0, [], [], [], [], 0, 0, 0);
    OnlyForNothing(c0, p.memory.arena.base, p.memory, p.memory.arena.imageTop);
    if !p.memory.arena.ImageContains(startup, length) { return Range, l; }
    var argc, envc, total;
    ghost var texts;
    argc, envc, total, r, texts := Check(p.memory.arena, startup, length);
    if r != Ok { return; }
    r, l := SecondPass(p, c0, startup, startup + length, argc, envc, total, stackBytes, texts);
  }

  /** In addition, the new stack leaves the address space sound. */
  method BuildSoundly(p: Process, startup: nat, length: nat, stackBytes: nat) returns (r: Status, ghost l: Launch)
    requires p.Ready() && p.table.list == [] && Sound(p.State().(stack := 0))
    modifies p`stackBottom, p`stackPointer
    modifies p.memory`view, p.memory`pageCount, p.memory.entries, p.memory.arena`next, p.memory.arena`contents,
             p.memory.arena.bytes
    ensures p.Ready() &&
            OnlyFor(old(p.memory.arena.contents), p.memory.arena.contents, p.memory.arena.base, p.memory,
                    p.memory.arena.imageTop)
    ensures r == Format ==> !Accepts(old(p.memory.arena.contents).bytes, startup, length, LAYERS)
    ensures r == Range && old(p.memory.arena.ImageContains(startup, length)) ==>
            !Fitting(old(p.memory.arena.contents).bytes, startup, p.memory.top, p.imageFloor, stackBytes)
    ensures r == Ok ==> old(p.memory.arena.ImageContains(startup, length))
    ensures r == Ok ==>
            Fitting(old(p.memory.arena.contents).bytes, startup, p.memory.top, p.imageFloor, stackBytes)
    ensures r == Ok ==> Accepts(old(p.memory.arena.contents).bytes, startup, length, LAYERS)
    ensures r == Ok ==> LaunchedFrom(l, old(p.memory.arena.contents).bytes, startup)
    ensures r == Ok ==> l.before == old(p.memory.view.mem) && Running(p, l, stackBytes)
    ensures r == Ok ==> Sound(p.State())
  {
    ghost var space := p.State();
    r, l := BuildChecked(p, startup, length, stackBytes);
    if r == Ok { StartKeepsSound(space, p.State(), p.stackPointer); }
  }

  /** Build the initial stack from the startup block.  A well-formed block of the image
      that fits is refused only when guest memory runs out: the second pass meets
      what the first measured. */
  method BuildInitialStack(p: Process, startup: nat, length: nat, stackBytes: nat) returns (r: Status, ghost l: Launch)
    requires p.Ready() && p.table.list == [] && Sound(p.State().(stack := 0))
    modifies p`stackBottom, p`stackPointer
    modifies p.memory`view, p.memory`pageCount, p.memory.entries, p.memory.arena`next, p.memory.arena`contents,
             p.memory.arena.bytes
    ensures p.Ready() &&
            OnlyFor(old(p.memory.arena.contents), p.memory.arena.contents, p.memory.arena.base, p.memory,
                    p.memory.arena.imageTop)
    ensures r == Format ==> !WellFormed(old(p.memory.arena.contents).bytes, startup, length)
    ensures r == Range && old(p.memory.arena.ImageContains(startup, length)) ==>
            !Fitting(old(p.memory.arena.contents).bytes, startup, p.memory.top, p.imageFloor, stackBytes)
    ensures r == Ok ==> old(p.memory.arena.ImageContains(startup, length))
    ensures r == Ok ==>
            Fitting(old(p.memory.arena.contents).bytes, startup, p.memory.top, p.imageFloor, stackBytes)
    ensures r == Ok ==> WellFormed(old(p.memory.arena.contents).bytes, startup, length)
    ensures r == Ok ==> LaunchedFrom(l, old(p.memory.arena.contents).bytes, startup)
    ensures r == Ok ==> l.before == old(p.memory.view.mem) && Running(p, l, stackBytes)
    ensures r == Ok ==> Sound(p.State())
  {
    AcceptsWellFormed(p.memory.arena.contents.bytes, startup, length, LAYERS);
    r, l := BuildSoundly(p, startup, length, stackBytes);
  }

  /** The words at `table` point to these strings. */
  ghost predicate Vector(f: Found, table: nat, strings: seq<seq<Byte>>) {
    forall i :: 0 <= i < |strings| ==> f.Pointer(table + 8 * i, strings[i])
  }

  ghost predicate Received(f: Found, sp: nat, args: seq<seq<Byte>>, env: seq<seq<Byte>>, random: seq<Byte>,
                           list: seq<Aux>) {
    && f.Word(sp, |args|)
    && Vector(f, sp + 8, args)
    && f.Word(sp + 8 * (1 + |args|), 0)
    && Vector(f, sp + 8 * (2 + |args|), env)
    && f.Word(sp + 8 * (2 + |args| + |env|), 0)
    && |list| == 15 && f.Pairs(sp + 8 * (3 + |args| + |env|), list)
    && f.Bytes(list[12].value, random) && 0 < |args| && f.Text(list[13].value, args[0])
  }

  lemma VectorOf(f: Found, table: nat, texts: seq<seq<Byte>>, first: nat, strings: seq<seq<Byte>>)
    requires first + |strings| <= |texts| && f.Pointers(table, texts, first, |strings|)
    requires forall i :: 0 <= i < |strings| ==> texts[first + i] == strings[i]
    ensures Vector(f, table, strings)
  {
    forall i | 0 <= i < |strings| ensures f.Pointer(table + 8 * i, strings[i]) {
      assert f.Pointer(table + 8 * (first + i - first), texts[first + i]);
    }
  }

  lemma Receives(f: Found, sp: nat, texts: seq<seq<Byte>>, args: seq<seq<Byte>>, env: seq<seq<Byte>>, random: seq<Byte>,
                 list: seq<Aux>)
    requires texts == env + args && Delivered(f, sp, texts, |args|, |env|, random, list)
    ensures Received(f, sp, args, env, random, list)
  {
    VectorOf(f, sp + 8, texts, |env|, args);
    VectorOf(f, sp + 8 * (2 + |args|), texts, 0, env);
    assert texts[|env|] == args[0];
  }

  /** From the host to the program: following argc, argv and envp from the stack
      pointer gives exactly the strings that the host packed. */
  lemma ArgumentsArrive(l: Launch, b: seq<Byte>, startup: nat, args: seq<seq<Byte>>, env: seq<seq<Byte>>,
                        random: seq<Byte>)
    requires BlockAt(b, startup, args, env, random) && LaunchedFrom(l, b, startup)
    ensures Received(Found(l.mem), l.sp, args, env, random, l.list)
  {
    BlockRead(b, startup, args, env, random);
    LaunchGives(l, LAYERS);
    SameRandom(b, startup + 16, random);
    Receives(Found(l.mem), l.sp, env + args, args, env, random, l.list);
  }

  lemma SameRandom(b: seq<Byte>, at: nat, random: seq<Byte>)
    requires BytesAt(b, at, random)
    ensures b[at..at + |random|] == random
  {
  }
}
