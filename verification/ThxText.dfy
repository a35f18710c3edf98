/** The header text of a program file: a JSON object that describes the program
    and lists its sections.  The loader also takes a comma after the last member
    of these objects, so they are described by the places of their members. */
module ThxText {
  import opened Frames
  import opened Json
  import opened Images
  import VfsImages

  const MAX_SAFE := 9007199254740991

  /** One member: its key, the colon, its value, and the comma or bracket after it. */
  datatype Member = Member(key: nat, keyEnd: nat, colon: nat, value: nat, end: nat, stop: nat)

  ghost predicate MemberStands(b: seq<Byte>, m: Member) {
    KeyStands(b, m) && m.value <= m.end && Blank(b, m.end, m.stop) && m.stop < |b|
  }

  ghost predicate KeyStands(b: seq<Byte>, m: Member) {
    && StringSpan(b, m.key, m.keyEnd) && Blank(b, m.keyEnd, m.colon) && m.colon < |b| && b[m.colon] == 0x3a
    && Blank(b, m.colon + 1, m.value) && Solid(b, m.value)
  }

  /** Where the text goes on before member `i`. */
  function Behind(lo: nat, ms: seq<Member>, i: nat): nat
    requires i <= |ms|
  {
    if i == 0 then lo + 1 else ms[i - 1].stop + 1
  }

  /** Member `i` stands behind the one before, and a comma follows if another comes. */
  ghost predicate MemberAt(b: seq<Byte>, lo: nat, ms: seq<Member>, i: nat)
    requires i < |ms|
  {
    && MemberStands(b, ms[i]) && Blank(b, Behind(lo, ms, i), ms[i].key)
    && (i + 1 < |ms| ==> b[ms[i].stop] == 0x2c)
  }

  /** The members stand one after the other behind the bracket at `lo`. */
  ghost predicate Chain(b: seq<Byte>, lo: nat, ms: seq<Member>) {
    && lo < |b| && b[lo] == 0x7b
    && forall i {:trigger MemberAt(b, lo, ms, i)} :: 0 <= i < |ms| ==> MemberAt(b, lo, ms, i)
  }

  /** An object from `lo` to `hi` with these members. */
  ghost predicate Fields(b: seq<Byte>, lo: nat, hi: nat, ms: seq<Member>) {
    Chain(b, lo, ms) && Ended(b, lo, hi, ms)
  }

  /** The bracket comes right behind the last member or, as the loader allows, after
      a comma. */
  ghost predicate Ended(b: seq<Byte>, lo: nat, hi: nat, ms: seq<Member>) {
    && 0 < hi <= |b| && b[hi - 1] == 0x7d
    && ((ms != [] && ms[|ms| - 1].stop == hi - 1) ||
        ((ms != [] ==> ms[|ms| - 1].stop < |b| && b[ms[|ms| - 1].stop] == 0x2c) &&
         Blank(b, Behind(lo, ms, |ms|), hi - 1)))
  }

  // --- keys and values

  /** The text of a string, without its quotes. */
  function Raw(b: seq<Byte>, lo: nat, hi: nat): seq<Byte>
    requires lo + 2 <= hi <= |b|
  {
    b[lo + 1..hi - 1]
  }

  /** The place of a key in a list of words; their number if it is not there. */
  function KeyIn(words: seq<seq<Byte>>, key: seq<Byte>): (k: nat)
    ensures k <= |words| && (k < |words| ==> words[k] == key)
  {
    if words == [] then 0 else if words[0] == key then 0 else KeyIn(words[1..], key) + 1
  }

  function KeyOf(b: seq<Byte>, words: seq<seq<Byte>>, m: Member): nat
    requires m.key + 2 <= m.keyEnd <= |b|
  {
    KeyIn(words, Raw(b, m.key, m.keyEnd))
  }

  function Decimal(b: seq<Byte>, lo: nat, hi: nat): int
    requires lo <= hi <= |b|
    decreases hi - lo
  {
    if lo == hi then 0 else Decimal(b, lo, hi - 1) * 10 + b[hi - 1] as int - 0x30
  }

  /** An unsigned number as the loader takes it. */
  ghost predicate NumberIs(b: seq<Byte>, lo: nat, hi: nat, value: nat) {
    IntegerSpan(b, lo, hi) && value as int == Decimal(b, lo, hi) && value <= MAX_SAFE
  }

  ghost predicate TextIs(b: seq<Byte>, lo: nat, hi: nat, text: seq<Byte>) {
    StringSpan(b, lo, hi) && text == Raw(b, lo, hi)
  }

  /** Known keys come once, and the first `needed` of them all come. */
  ghost predicate Once(b: seq<Byte>, words: seq<seq<Byte>>, ms: seq<Member>, needed: nat)
    requires forall i {:trigger ms[i]} :: 0 <= i < |ms| ==> ms[i].key + 2 <= ms[i].keyEnd <= |b|
  {
    && (forall i, j {:trigger ms[i], ms[j]} :: 0 <= i < j < |ms| && KeyOf(b, words, ms[i]) == KeyOf(b, words, ms[j]) ==>
          KeyOf(b, words, ms[i]) == |words|)
    && forall k: nat :: k < needed ==> HasKey(b, words, ms, k)
  }

  ghost predicate HasKey(b: seq<Byte>, words: seq<seq<Byte>>, ms: seq<Member>, k: nat)
    requires forall i {:trigger ms[i]} :: 0 <= i < |ms| ==> ms[i].key + 2 <= ms[i].keyEnd <= |b|
  {
    exists i {:trigger ms[i]} :: 0 <= i < |ms| && KeyOf(b, words, ms[i]) == k
  }

  // --- reading members

  lemma ChainMore(b: seq<Byte>, lo: nat, ms: seq<Member>, m: Member)
    requires Chain(b, lo, ms) && MemberStands(b, m) && Blank(b, Behind(lo, ms, |ms|), m.key)
    requires ms != [] ==> b[ms[|ms| - 1].stop] == 0x2c
    ensures Chain(b, lo, ms + [m])
  {
    var r := ms + [m];
    forall i {:trigger MemberAt(b, lo, r, i)} | 0 <= i < |r| ensures MemberAt(b, lo, r, i) {
      if i < |ms| { assert MemberAt(b, lo, ms, i) && r[i] == ms[i] && (i > 0 ==> r[i - 1] == ms[i - 1]); }
      if i == |ms| > 0 { assert r[i - 1] == ms[i - 1]; }
    }
  }

  /** A key, a colon, and the place of the value. */
  method ReadKey(b: seq<Byte>, cursor: nat, words: seq<seq<Byte>>)
    returns (keyEnd: nat, colon: nat, value: nat, key: nat, ok: bool)
    requires cursor <= |b|
    ensures ok ==> KeyStands(b, Member(cursor, keyEnd, colon, value, 0, 0)) &&
                   key == KeyIn(words, Raw(b, cursor, keyEnd))
    ensures forall m: Member {:trigger KeyStands(b, m)} :: m.key == cursor && KeyStands(b, m) ==>
              ok && m.keyEnd == keyEnd && m.colon == colon && m.value == value
  {
    colon, value, key := 0, 0, 0;
    var next, found, _, _ := ParseString(b, cursor);
    keyEnd, ok := next, found;
    if !ok { return; }
    key := KeyIn(words, Raw(b, cursor, keyEnd));
    colon := Space(b, keyEnd);
    forall m: Member {:trigger KeyStands(b, m)} | m.key == cursor && KeyStands(b, m) ensures m.colon == colon {
      BlankEnds(b, keyEnd, m.colon, colon);
    }
    if colon >= |b| || b[colon] != 0x3a { return keyEnd, colon, value, key, false; }
    value := Space(b, colon + 1);
    forall m: Member {:trigger KeyStands(b, m)} | m.key == cursor && KeyStands(b, m) ensures m.value == value {
      BlankEnds(b, colon + 1, m.value, value);
    }
  }

  /** Behind a value comes whitespace, a comma or the closing bracket. */
  ghost predicate Halts(b: seq<Byte>, at: nat) {
    at < |b| && (Whitespace(b[at]) || b[at] == 0x2c || b[at] == 0x7d)
  }

  lemma {:induction false} DecimalGrows(b: seq<Byte>, lo: nat, mid: nat, hi: nat)
    requires lo <= mid <= hi <= |b| && forall k :: lo <= k < hi ==> Digit(b[k])
    ensures 0 <= Decimal(b, lo, mid) <= Decimal(b, lo, hi)
    decreases hi - lo
  {
    if mid < hi {
      DecimalGrows(b, lo, mid, hi - 1);
    } else if lo < hi {
      DecimalGrows(b, lo, mid - 1, hi - 1);
    }
  }

  /** A number that goes on over `next` is larger than its part before. */
  lemma NumberOver(b: seq<Byte>, at: nat, next: nat)
    requires at <= next < |b|
    ensures forall hi: nat, v: nat :: NumberIs(b, at, hi, v) && next < hi ==>
              Decimal(b, at, next) * 10 + b[next] as int - 0x30 <= MAX_SAFE
  {
    forall hi: nat, v: nat | NumberIs(b, at, hi, v) && next < hi
      ensures Decimal(b, at, next) * 10 + b[next] as int - 0x30 <= MAX_SAFE
    {
      DecimalGrows(b, at, next + 1, hi);
    }
  }

  /** An unsigned decimal number without leading zeros, at most 2^53 - 1.  Every
      such number that ends where a digit does not follow is found. */
  method ParseUnsigned(b: seq<Byte>, at: nat) returns (next: nat, value: nat, ok: bool)
    requires at <= |b|
    ensures ok ==> NumberIs(b, at, next, value) && (next < |b| ==> !Digit(b[next]))
    ensures forall hi: nat, v: nat {:trigger NumberIs(b, at, hi, v)} ::
              NumberIs(b, at, hi, v) && (hi < |b| ==> !Digit(b[hi])) ==> ok && next == hi && value == v
  {
    next, value := at, 0;
    if at >= |b| || !Digit(b[at]) { return next, value, false; }
    while next < |b| && Digit(b[next])
      invariant at <= next <= |b| && value <= MAX_SAFE && value as int == Decimal(b, at, next)
      invariant (forall k :: at <= k < next ==> Digit(b[k])) && (b[at] == 0x30 ==> next <= at + 1)
    {
      if b[at] == 0x30 && next != at { return next, value, false; }
      NumberOver(b, at, next);
      var more := value * 10 + b[next] as int - 0x30;
      if more > MAX_SAFE { return next, value, false; }
      next, value := next + 1, more;
    }
    ok := true;
  }

  // --- sections

  // r, w and x
  function FlagOf(c: Byte): nat {
    if c == 0x72 then 1 else if c == 0x77 then 2 else if c == 0x78 then 4 else 0
  }

  /** The letters r, w and x, each at most once. */
  ghost predicate Letters(text: seq<Byte>) {
    && (forall k {:trigger text[k]} :: 0 <= k < |text| ==> FlagOf(text[k]) != 0)
    && (forall j, k {:trigger text[j], text[k]} :: 0 <= j < k < |text| ==> text[j] != text[k])
  }

  ghost predicate FlagsAre(text: seq<Byte>, flags: nat) {
    && Letters(text)
    && flags == (if 0x72 in text then 1 else 0) + (if 0x77 in text then 2 else 0) + if 0x78 in text then 4 else 0
  }

  /** What the value of a known key says of a section. */
  ghost predicate SectionSays(b: seq<Byte>, key: nat, lo: nat, hi: nat, s: Section) {
    if key == 0 then StringSpan(b, lo, hi) && 0x5c !in Raw(b, lo, hi) && s.nameLength == |Raw(b, lo, hi)| &&
                     s.nameHash == VfsImages.Fnv(Raw(b, lo, hi), 0, |Raw(b, lo, hi)|)
    else if key == 1 then StringSpan(b, lo, hi) && FlagsAre(Raw(b, lo, hi), s.flags)
    else if key == 2 then NumberIs(b, lo, hi, s.align)
    else if key == 3 then NumberIs(b, lo, hi, s.size)
    else if key == 4 then NumberIs(b, lo, hi, s.address)
    else if key == 5 then NumberIs(b, lo, hi, s.at)
    else if key == 6 then NumberIs(b, lo, hi, s.length)
    else ValueAfter(b, lo, hi, MAX_DEPTH)
  }

  /** The section with one field changed, as a known key changes it. */
  ghost predicate SectionOnly(s: Section, t: Section, key: nat) {
    && (key == 0 || (t.nameHash == s.nameHash && t.nameLength == s.nameLength)) && (key == 1 || t.flags == s.flags)
    && (key == 2 || t.align == s.align) && (key == 3 || t.size == s.size) && (key == 4 || t.address == s.address)
    && (key == 5 || t.at == s.at) && (key == 6 || t.length == s.length)
  }

  // thistle64 and rv64gc
  const MACHINE: seq<Byte> := [0x74, 0x68, 0x69, 0x73, 0x74, 0x6c, 0x65, 0x36, 0x34]
  const ISA: seq<Byte> := [0x72, 0x76, 0x36, 0x34, 0x67, 0x63]

  /** The header and the place of its section list. */
  datatype Head = Head(header: Header, list: nat)

  /** What the value of a known key says of the program. */
  ghost predicate HeadSays(b: seq<Byte>, key: nat, lo: nat, hi: nat, h: Head) {
    if key == 0 then TextIs(b, lo, hi, MACHINE)
    else if key == 1 then NumberIs(b, lo, hi, 2)
    else if key == 2 then h.list == lo && ValueAfter(b, lo, hi, MAX_DEPTH)
    else if key <= 6 then lo < |b| && b[lo] == 0x5b && ValueAfter(b, lo, hi, MAX_DEPTH)
    else if key == 7 then NumberIs(b, lo, hi, h.header.entry)
    else if key == 8 then NumberIs(b, lo, hi, h.header.virtualTop)
    else if key == 9 then TextIs(b, lo, hi, ISA)
    else if key == 10 then NumberIs(b, lo, hi, h.header.phdr)
    else if key == 11 then NumberIs(b, lo, hi, h.header.phent)
    else if key == 12 then NumberIs(b, lo, hi, h.header.phnum)
    else ValueAfter(b, lo, hi, MAX_DEPTH)
  }

  ghost predicate HeadOnly(h: Head, g: Head, key: nat) {
    && (key == 2 || g.list == h.list) && (key == 7 || g.header.entry == h.header.entry)
    && (key == 8 || g.header.virtualTop == h.header.virtualTop) && (key == 10 || g.header.phdr == h.header.phdr)
    && (key == 11 || g.header.phent == h.header.phent) && (key == 12 || g.header.phnum == h.header.phnum)
  }

  /** What an object describes: a section, or the program. */
  datatype Facts = Part(s: Section) | Whole(h: Head)

  /** How many keys are known. */
  function Known(f: Facts): nat {
    if f.Part? then 7 else 13
  }

  ghost predicate Says(b: seq<Byte>, key: nat, lo: nat, hi: nat, f: Facts) {
    match f
    case Part(s) => SectionSays(b, key, lo, hi, s)
    case Whole(h) => HeadSays(b, key, lo, hi, h)
  }

  ghost predicate OnlyChanges(f: Facts, g: Facts, key: nat) {
    match f
    case Part(s) => g.Part? && SectionOnly(s, g.s, key)
    case Whole(h) => g.Whole? && HeadOnly(h, g.h, key)
  }

  /** The members say these things. */
  ghost predicate Members(b: seq<Byte>, words: seq<seq<Byte>>, ms: seq<Member>, f: Facts) {
    forall i {:trigger ms[i]} :: 0 <= i < |ms| ==>
      ms[i].key + 2 <= ms[i].keyEnd <= |b| && Says(b, KeyOf(b, words, ms[i]), ms[i].value, ms[i].end, f)
  }

  /** Keys that may be left out then mean zero. */
  ghost predicate Defaults(b: seq<Byte>, words: seq<seq<Byte>>, ms: seq<Member>, f: Facts)
    requires forall i {:trigger ms[i]} :: 0 <= i < |ms| ==> ms[i].key + 2 <= ms[i].keyEnd <= |b|
  {
    f.Whole? ==>
      && (HasKey(b, words, ms, 10) || f.h.header.phdr == 0) && (HasKey(b, words, ms, 11) || f.h.header.phent == 0)
      && (HasKey(b, words, ms, 12) || f.h.header.phnum == 0)
  }

  /** The text from `lo` to `hi` is an object with these members, which say just this. */
  ghost predicate Spells(b: seq<Byte>, words: seq<seq<Byte>>, lo: nat, hi: nat, ms: seq<Member>, f: Facts,
                         needed: nat) {
    Fields(b, lo, hi, ms) && Members(b, words, ms, f) && Once(b, words, ms, needed) && Defaults(b, words, ms, f)
  }

  const FOLDS := 3

  /** `Spells`, kept folded. */
  ghost predicate Spelled(b: seq<Byte>, words: seq<seq<Byte>>, lo: nat, hi: nat, ms: seq<Member>, f: Facts, needed: nat,
                          folds: nat) {
    match f
    case _ =>
      if folds > 0 then Spelled(b, words, lo, hi, ms, f, needed, folds - 1)
      else Spells(b, words, lo, hi, ms, f, needed)
  }

  lemma SpelledIs(b: seq<Byte>, words: seq<seq<Byte>>, lo: nat, hi: nat, ms: seq<Member>, f: Facts, needed: nat,
                  folds: nat)
    requires Spells(b, words, lo, hi, ms, f, needed)
    ensures Spelled(b, words, lo, hi, ms, f, needed, folds)
  {
  }

  /** Taking it apart gives what the object says, in plain terms. */
  lemma SpelledMeans(b: seq<Byte>, words: seq<seq<Byte>>, lo: nat, hi: nat, ms: seq<Member>, f: Facts, needed: nat,
                     folds: nat)
    requires Spelled(b, words, lo, hi, ms, f, needed, folds)
    ensures Spells(b, words, lo, hi, ms, f, needed)
  {
  }

  /** What is told so far. */
  ghost predicate SoFar(b: seq<Byte>, words: seq<seq<Byte>>, lo: nat, ms: seq<Member>, seen: set<nat>, f: Facts) {
    && Chain(b, lo, ms) && Members(b, words, ms, f) && Once(b, words, ms, 0) && SeenAre(b, words, ms, seen)
    && Defaults(b, words, ms, f)
  }

  ghost predicate SeenAre(b: seq<Byte>, words: seq<seq<Byte>>, ms: seq<Member>, seen: set<nat>)
    requires forall i {:trigger ms[i]} :: 0 <= i < |ms| ==> ms[i].key + 2 <= ms[i].keyEnd <= |b|
  {
    forall k: nat {:trigger k in seen} :: k in seen <==> k < |words| && HasKey(b, words, ms, k)
  }

  lemma SeenMore(b: seq<Byte>, words: seq<seq<Byte>>, ms: seq<Member>, seen: set<nat>, m: Member, key: nat)
    requires forall i {:trigger ms[i]} :: 0 <= i < |ms| ==> ms[i].key + 2 <= ms[i].keyEnd <= |b|
    requires Once(b, words, ms, 0) && SeenAre(b, words, ms, seen) && m.key + 2 <= m.keyEnd <= |b|
    requires key == KeyOf(b, words, m) && key !in seen
    ensures var r := ms + [m];
      && (forall i {:trigger r[i]} :: 0 <= i < |r| ==> r[i].key + 2 <= r[i].keyEnd <= |b|)
      && Once(b, words, r, 0) && SeenAre(b, words, r, seen + if key < |words| then {key} else {})
  {
    var r, now := ms + [m], seen + if key < |words| then {key} else {};
    assert forall i {:trigger r[i]} :: 0 <= i < |ms| ==> r[i] == ms[i];
    assert key < |words| ==> !HasKey(b, words, ms, key);
    forall i, j {:trigger r[i], r[j]} | 0 <= i < j < |r| && KeyOf(b, words, r[i]) == KeyOf(b, words, r[j])
      ensures KeyOf(b, words, r[i]) == |words|
    {
      assert r[i] == ms[i];
    }
    forall k: nat {:trigger k in now} ensures k in now <==> k < |words| && HasKey(b, words, r, k) {
      if k < |words| && HasKey(b, words, ms, k) {
        var i :| 0 <= i < |ms| && KeyOf(b, words, ms[i]) == k;
        assert r[i] == ms[i];
      }
      if k == key { assert r[|ms|] == m; }
    }
  }

  /** Another key does not change what a member says. */
  lemma SaysStill(b: seq<Byte>, k: nat, key: nat, lo: nat, hi: nat, f: Facts, g: Facts)
    requires Says(b, k, lo, hi, f) && OnlyChanges(f, g, key) && (k != key || k >= Known(f))
    ensures Says(b, k, lo, hi, g)
  {
  }

  lemma MembersMore(b: seq<Byte>, words: seq<seq<Byte>>, ms: seq<Member>, seen: set<nat>, f: Facts, m: Member, key: nat,
                    g: Facts)
    requires |words| == Known(f) && Members(b, words, ms, f) && SeenAre(b, words, ms, seen) && key !in seen
    requires m.key + 2 <= m.keyEnd <= |b| && key == KeyOf(b, words, m)
    requires Says(b, key, m.value, m.end, g) && OnlyChanges(f, g, key)
    ensures Members(b, words, ms + [m], g)
  {
    var r := ms + [m];
    forall i {:trigger r[i]} | 0 <= i < |ms| ensures Says(b, KeyOf(b, words, r[i]), r[i].value, r[i].end, g) {
      assert r[i] == ms[i] && HasKey(b, words, ms, KeyOf(b, words, ms[i]));
      SaysStill(b, KeyOf(b, words, ms[i]), key, ms[i].value, ms[i].end, f, g);
    }
  }

  lemma HasKeyMore(b: seq<Byte>, words: seq<seq<Byte>>, ms: seq<Member>, m: Member, k: nat)
    requires forall i {:trigger ms[i]} :: 0 <= i < |ms| ==> ms[i].key + 2 <= ms[i].keyEnd <= |b|
    requires m.key + 2 <= m.keyEnd <= |b|
    ensures var r := ms + [m];
      && (forall i {:trigger r[i]} :: 0 <= i < |r| ==> r[i].key + 2 <= r[i].keyEnd <= |b|)
      && (HasKey(b, words, ms, k) || k == KeyOf(b, words, m) ==> HasKey(b, words, r, k))
  {
    var r := ms + [m];
    if HasKey(b, words, ms, k) {
      var i :| 0 <= i < |ms| && KeyOf(b, words, ms[i]) == k;
      assert r[i] == ms[i];
    }
    assert r[|ms|] == m;
  }

  lemma DefaultsMore(b: seq<Byte>, words: seq<seq<Byte>>, ms: seq<Member>, f: Facts, m: Member, key: nat, g: Facts)
    requires forall i {:trigger ms[i]} :: 0 <= i < |ms| ==> ms[i].key + 2 <= ms[i].keyEnd <= |b|
    requires m.key + 2 <= m.keyEnd <= |b| && key == KeyOf(b, words, m) && OnlyChanges(f, g, key)
    requires Defaults(b, words, ms, f)
    ensures forall i {:trigger (ms + [m])[i]} :: 0 <= i < |ms + [m]| ==>
      (ms + [m])[i].key + 2 <= (ms + [m])[i].keyEnd <= |b|
    ensures Defaults(b, words, ms + [m], g)
  {
    HasKeyMore(b, words, ms, m, 10);
    HasKeyMore(b, words, ms, m, 11);
    HasKeyMore(b, words, ms, m, 12);
  }

  lemma FactsMore(b: seq<Byte>, words: seq<seq<Byte>>, lo: nat, ms: seq<Member>, seen: set<nat>, f: Facts, m: Member,
                  key: nat, g: Facts)
    requires |words| == Known(f) && SoFar(b, words, lo, ms, seen, f) && MemberStands(b, m)
    requires Blank(b, Behind(lo, ms, |ms|), m.key) && (ms != [] ==> b[ms[|ms| - 1].stop] == 0x2c)
    requires key == KeyOf(b, words, m) && key !in seen && Says(b, key, m.value, m.end, g) && OnlyChanges(f, g, key)
    ensures SoFar(b, words, lo, ms + [m], seen + if key < |words| then {key} else {}, g)
  {
    ChainMore(b, lo, ms, m);
    SeenMore(b, words, ms, seen, m, key);
    MembersMore(b, words, ms, seen, f, m, key, g);
    DefaultsMore(b, words, ms, f, m, key, g);
  }

  /** The text goes on at `cursor` behind the bracket or a comma. */
  ghost predicate Going(b: seq<Byte>, lo: nat, cursor: nat, ms: seq<Member>) {
    (ms != [] ==> ms[|ms| - 1].stop < |b| && b[ms[|ms| - 1].stop] == 0x2c) && Blank(b, Behind(lo, ms, |ms|), cursor)
  }

  /** `SoFar`, kept folded. */
  ghost predicate Gathered(b: seq<Byte>, words: seq<seq<Byte>>, lo: nat, ms: seq<Member>, seen: set<nat>, f: Facts,
                       folds: nat) {
    match f
    case _ =>
      if folds > 0 then Gathered(b, words, lo, ms, seen, f, folds - 1) else SoFar(b, words, lo, ms, seen, f)
  }

  lemma GatheredFold(b: seq<Byte>, words: seq<seq<Byte>>, lo: nat, ms: seq<Member>, seen: set<nat>, f: Facts,
                     folds: nat)
    requires SoFar(b, words, lo, ms, seen, f)
    ensures Gathered(b, words, lo, ms, seen, f, folds)
  {
  }

  lemma GatheredUnfold(b: seq<Byte>, words: seq<seq<Byte>>, lo: nat, ms: seq<Member>, seen: set<nat>, f: Facts,
                       folds: nat)
    requires Gathered(b, words, lo, ms, seen, f, folds)
    ensures SoFar(b, words, lo, ms, seen, f)
  {
  }

  /** Nothing is told of the program that may be left out. */
  ghost predicate Blankly(f: Facts) {
    f.Whole? ==> f.h.header.phdr == 0 && f.h.header.phent == 0 && f.h.header.phnum == 0
  }

  lemma Begins(b: seq<Byte>, words: seq<seq<Byte>>, lo: nat, cursor: nat, f: Facts)
    requires lo < |b| && b[lo] == 0x7b && Blank(b, lo + 1, cursor) && Blankly(f)
    ensures Gathered(b, words, lo, [], {}, f, FOLDS) && Going(b, lo, cursor, [])
  {
    GatheredFold(b, words, lo, [], {}, f, FOLDS);
  }

  /** One member more. */
  lemma OneMore(b: seq<Byte>, words: seq<seq<Byte>>, lo: nat, cursor: nat, ms: seq<Member>, seen: set<nat>, f: Facts,
                m: Member, key: nat, g: Facts, now: set<nat>)
    requires |words| == Known(f) && Gathered(b, words, lo, ms, seen, f, FOLDS) && Going(b, lo, cursor, ms)
    requires m.key == cursor && MemberStands(b, m) && key == KeyOf(b, words, m) && key !in seen
    requires Says(b, key, m.value, m.end, g) && OnlyChanges(f, g, key)
    requires now == seen + if key < |words| then {key} else {}
    ensures Gathered(b, words, lo, ms + [m], now, g, FOLDS)
  {
    GatheredUnfold(b, words, lo, ms, seen, f, FOLDS);
    FactsMore(b, words, lo, ms, seen, f, m, key, g);
    GatheredFold(b, words, lo, ms + [m], now, g, FOLDS);
  }

  lemma GoesOn(b: seq<Byte>, lo: nat, ms: seq<Member>, m: Member, cursor: nat)
    requires m.stop < |b| && b[m.stop] == 0x2c && Blank(b, m.stop + 1, cursor)
    ensures Going(b, lo, cursor, ms + [m])
  {
    assert (ms + [m])[|ms|] == m;
  }

  lemma FieldsWhen(b: seq<Byte>, lo: nat, cursor: nat, ms: seq<Member>)
    requires Chain(b, lo, ms) && cursor < |b| && b[cursor] == 0x7d
    requires Going(b, lo, cursor, ms) || (ms != [] && ms[|ms| - 1].stop == cursor)
    ensures Fields(b, lo, cursor + 1, ms)
  {
  }

  lemma GatheredFields(b: seq<Byte>, words: seq<seq<Byte>>, lo: nat, cursor: nat, ms: seq<Member>, seen: set<nat>,
                       f: Facts)
    requires Gathered(b, words, lo, ms, seen, f, FOLDS) && cursor < |b| && b[cursor] == 0x7d
    requires Going(b, lo, cursor, ms) || (ms != [] && ms[|ms| - 1].stop == cursor)
    ensures Fields(b, lo, cursor + 1, ms)
  {
    GatheredUnfold(b, words, lo, ms, seen, f, FOLDS);
    FieldsWhen(b, lo, cursor, ms);
  }

  /** The keys that must come have come. */
  predicate AllSeen(seen: set<nat>, needed: nat) {
    forall k: nat :: k < needed ==> k in seen
  }

  lemma AllKeys(b: seq<Byte>, words: seq<seq<Byte>>, ms: seq<Member>, seen: set<nat>, f: Facts, needed: nat)
    requires Members(b, words, ms, f) && Once(b, words, ms, 0) && SeenAre(b, words, ms, seen)
    requires AllSeen(seen, needed)
    ensures Once(b, words, ms, needed)
  {
    forall k: nat | k < needed ensures HasKey(b, words, ms, k) { assert k in seen; }
  }

  lemma GatheredEnds(b: seq<Byte>, words: seq<seq<Byte>>, lo: nat, hi: nat, ms: seq<Member>, seen: set<nat>, f: Facts,
                 needed: nat)
    requires Gathered(b, words, lo, ms, seen, f, FOLDS) && AllSeen(seen, needed) && Fields(b, lo, hi, ms)
    ensures Spelled(b, words, lo, hi, ms, f, needed, FOLDS)
  {
    GatheredUnfold(b, words, lo, ms, seen, f, FOLDS);
    AllKeys(b, words, ms, seen, f, needed);
    SpelledIs(b, words, lo, hi, ms, f, needed, FOLDS);
  }

  /** The object ends at its bracket. */
  lemma Closes(b: seq<Byte>, words: seq<seq<Byte>>, lo: nat, cursor: nat, ms: seq<Member>, seen: set<nat>, f: Facts,
               needed: nat)
    requires Gathered(b, words, lo, ms, seen, f, FOLDS) && AllSeen(seen, needed) && cursor < |b| && b[cursor] == 0x7d
    requires Going(b, lo, cursor, ms) || (ms != [] && ms[|ms| - 1].stop == cursor)
    ensures Spelled(b, words, lo, cursor + 1, ms, f, needed, FOLDS)
  {
    GatheredFields(b, words, lo, cursor, ms, seen, f);
    GatheredEnds(b, words, lo, cursor + 1, ms, seen, f, needed);
  }

  // --- the members determine what is said

  lemma SectionSame(b: seq<Byte>, key: nat, lo: nat, hi: nat, s: Section, t: Section)
    requires SectionSays(b, key, lo, hi, s) && SectionSays(b, key, lo, hi, t)
    ensures key == 0 ==> s.nameHash == t.nameHash && s.nameLength == t.nameLength
    ensures (key == 1 ==> s.flags == t.flags) && (key == 2 ==> s.align == t.align) && (key == 3 ==> s.size == t.size)
    ensures (key == 4 ==> s.address == t.address) && (key == 5 ==> s.at == t.at) && (key == 6 ==> s.length == t.length)
  {
  }

  lemma HeadSame(b: seq<Byte>, key: nat, lo: nat, hi: nat, h: Head, g: Head)
    requires HeadSays(b, key, lo, hi, h) && HeadSays(b, key, lo, hi, g)
    ensures (key == 2 ==> h.list == g.list) && (key == 7 ==> h.header.entry == g.header.entry)
    ensures (key == 8 ==> h.header.virtualTop == g.header.virtualTop) && (key == 10 ==> h.header.phdr == g.header.phdr)
    ensures (key == 11 ==> h.header.phent == g.header.phent) && (key == 12 ==> h.header.phnum == g.header.phnum)
  {
  }

  /** Two sections that the same members describe agree at each key. */
  lemma PartAgrees(b: seq<Byte>, words: seq<seq<Byte>>, ms: seq<Member>, s: Section, t: Section, k: nat)
    requires Members(b, words, ms, Part(s)) && Members(b, words, ms, Part(t)) && HasKey(b, words, ms, k)
    ensures k == 0 ==> s.nameHash == t.nameHash && s.nameLength == t.nameLength
    ensures (k == 1 ==> s.flags == t.flags) && (k == 2 ==> s.align == t.align) && (k == 3 ==> s.size == t.size)
    ensures (k == 4 ==> s.address == t.address) && (k == 5 ==> s.at == t.at) && (k == 6 ==> s.length == t.length)
  {
    var i :| 0 <= i < |ms| && KeyOf(b, words, ms[i]) == k;
    assert Says(b, k, ms[i].value, ms[i].end, Part(s)) && Says(b, k, ms[i].value, ms[i].end, Part(t));
    SectionSame(b, k, ms[i].value, ms[i].end, s, t);
  }

  lemma HeadAgrees(b: seq<Byte>, words: seq<seq<Byte>>, ms: seq<Member>, h: Head, g: Head, k: nat)
    requires Members(b, words, ms, Whole(h)) && Members(b, words, ms, Whole(g)) && HasKey(b, words, ms, k)
    ensures (k == 2 ==> h.list == g.list) && (k == 7 ==> h.header.entry == g.header.entry)
    ensures (k == 8 ==> h.header.virtualTop == g.header.virtualTop) && (k == 10 ==> h.header.phdr == g.header.phdr)
    ensures (k == 11 ==> h.header.phent == g.header.phent) && (k == 12 ==> h.header.phnum == g.header.phnum)
  {
    var i :| 0 <= i < |ms| && KeyOf(b, words, ms[i]) == k;
    assert Says(b, k, ms[i].value, ms[i].end, Whole(h)) && Says(b, k, ms[i].value, ms[i].end, Whole(g));
    HeadSame(b, k, ms[i].value, ms[i].end, h, g);
  }

  /** An object describes one section at most. */
  lemma SamePart(b: seq<Byte>, words: seq<seq<Byte>>, lo: nat, hi: nat, ms: seq<Member>, s: Section, t: Section)
    requires Spelled(b, words, lo, hi, ms, Part(s), 7, FOLDS) && Spelled(b, words, lo, hi, ms, Part(t), 7, FOLDS)
    ensures s == t
  {
    SpelledMeans(b, words, lo, hi, ms, Part(s), 7, FOLDS);
    SpelledMeans(b, words, lo, hi, ms, Part(t), 7, FOLDS);
    PartAgrees(b, words, ms, s, t, 0);
    PartAgrees(b, words, ms, s, t, 1);
    PartAgrees(b, words, ms, s, t, 2);
    PartAgrees(b, words, ms, s, t, 3);
    PartAgrees(b, words, ms, s, t, 4);
    PartAgrees(b, words, ms, s, t, 5);
    PartAgrees(b, words, ms, s, t, 6);
  }

  /** An object describes one program at most. */
  lemma SameHead(b: seq<Byte>, words: seq<seq<Byte>>, lo: nat, hi: nat, ms: seq<Member>, h: Head, g: Head)
    requires Spelled(b, words, lo, hi, ms, Whole(h), 10, FOLDS) && Spelled(b, words, lo, hi, ms, Whole(g), 10, FOLDS)
    ensures h == g
  {
    SpelledMeans(b, words, lo, hi, ms, Whole(h), 10, FOLDS);
    SpelledMeans(b, words, lo, hi, ms, Whole(g), 10, FOLDS);
    HeadAgrees(b, words, ms, h, g, 2);
    HeadAgrees(b, words, ms, h, g, 7);
    HeadAgrees(b, words, ms, h, g, 8);
    if HasKey(b, words, ms, 10) { HeadAgrees(b, words, ms, h, g, 10); }
    if HasKey(b, words, ms, 11) { HeadAgrees(b, words, ms, h, g, 11); }
    if HasKey(b, words, ms, 12) { HeadAgrees(b, words, ms, h, g, 12); }
  }

  // --- reading sections and the header

  method SectionFlags(text: seq<Byte>) returns (flags: nat, ok: bool)
    ensures (ok <==> Letters(text)) && (ok ==> FlagsAre(text, flags))
  {
    var read, write, run, i := false, false, false, 0;
    while i < |text|
      invariant 0 <= i <= |text| && forall k {:trigger text[k]} :: 0 <= k < i ==> FlagOf(text[k]) != 0
      invariant forall j, k {:trigger text[j], text[k]} :: 0 <= j < k < i ==> text[j] != text[k]
      invariant (read <==> 0x72 in text[..i]) && (write <==> 0x77 in text[..i]) && (run <==> 0x78 in text[..i])
    {
      var c := text[i];
      if FlagOf(c) == 0 { return 0, false; }
      if (c == 0x72 && read) || (c == 0x77 && write) || (c == 0x78 && run) {
        var j :| 0 <= j < i && text[..i][j] == c;
        assert text[j] == text[i];
        return 0, false;
      }
      forall j | 0 <= j < i ensures text[j] != c { assert text[..i][j] == text[j]; }
      assert text[..i + 1] == text[..i] + [c];
      read, write, run := read || c == 0x72, write || c == 0x77, run || c == 0x78;
      i := i + 1;
    }
    assert text[..i] == text;
    flags, ok := (if read then 1 else 0) + (if write then 2 else 0) + (if run then 4 else 0), true;
  }

  /** Skip a value of a member. */
  method SkipAny(b: seq<Byte>, at: nat) returns (next: nat, ok: bool)
    requires at <= |b|
    ensures ok ==> at < next <= |b| && ValueAfter(b, at, next, MAX_DEPTH)
    ensures forall hi: nat {:trigger ValueAfter(b, at, hi, MAX_DEPTH)} ::
              ValueAfter(b, at, hi, MAX_DEPTH) && Halts(b, hi) ==> ok && next == hi
  {
    next, ok := SkipValue(b, at, 0);
    forall hi: nat {:trigger ValueAfter(b, at, hi, MAX_DEPTH)} | ValueAfter(b, at, hi, MAX_DEPTH) && Halts(b, hi)
      ensures ok && next == hi
    {
      assert ValueAfter(b, at, hi, Limit(0)) && Delimited(b, hi);
    }
  }

  /** Read the value of a key into its field. */
  method SectionValue(b: seq<Byte>, key: nat, at: nat, s: Section) returns (t: Section, end: nat, ok: bool)
    requires at <= |b| && key <= 7
    ensures ok ==> at <= end <= |b| && SectionSays(b, key, at, end, t) && SectionOnly(s, t, key)
    ensures forall hi: nat, r: Section {:trigger SectionSays(b, key, at, hi, r)} ::
              SectionSays(b, key, at, hi, r) && Halts(b, hi) ==> ok && end == hi
  {
    t := s;
    if key <= 1 {
      var next, found, _, escaped := ParseString(b, at);
      end, ok := next, found && !escaped;
      if found {
        RawEscapes(b, at, next);
        if escaped { NoLetters(Raw(b, at, next)); }
      }
      if !ok { return; }
      var text := Raw(b, at, end);
      if key == 0 {
        t := s.(nameHash := VfsImages.Fnv(text, 0, |text|), nameLength := |text|);
      } else {
        var flags, good := SectionFlags(text);
        ok := good;
        t := s.(flags := flags);
      }
    } else if key < 7 {
      var next, value, found := ParseUnsigned(b, at);
      end, ok := next, found;
      t := if key == 2 then s.(align := value) else if key == 3 then s.(size := value)
           else if key == 4 then s.(address := value) else if key == 5 then s.(at := value) else s.(length := value);
    } else {
      end, ok := SkipAny(b, at);
    }
  }

  lemma NoLetters(text: seq<Byte>)
    requires 0x5c in text
    ensures !Letters(text)
  {
    var k :| 0 <= k < |text| && text[k] == 0x5c;
  }

  lemma RawEscapes(b: seq<Byte>, lo: nat, hi: nat)
    requires lo + 2 <= hi <= |b| && b[hi - 1] == 0x22
    ensures 0x5c in Raw(b, lo, hi) <==> exists k :: lo < k < hi && b[k] == 0x5c
  {
    var raw := Raw(b, lo, hi);
    assert forall k {:trigger raw[k]} :: 0 <= k < |raw| ==> raw[k] == b[lo + 1 + k];
    if exists k :: lo < k < hi && b[k] == 0x5c {
      var k :| lo < k < hi && b[k] == 0x5c;
      assert raw[k - lo - 1] == 0x5c;
    }
  }

  datatype Trouble = None | Syntax | Meaning

  /** Read the value of a key of the header. */
  method HeadValue(b: seq<Byte>, key: nat, at: nat, h: Head) returns (g: Head, end: nat, e: Trouble)
    requires at <= |b| && key <= 13
    ensures e == None ==> at <= end <= |b| && HeadSays(b, key, at, end, g) && HeadOnly(h, g, key)
    ensures forall hi: nat, r: Head {:trigger HeadSays(b, key, at, hi, r)} ::
              HeadSays(b, key, at, hi, r) && Halts(b, hi) ==> e == None && end == hi
  {
    g := h;
    if key == 0 || key == 9 {
      var next, found, _, _ := ParseString(b, at);
      end, e := next, if found && Raw(b, at, next) == (if key == 0 then MACHINE else ISA) then None else Meaning;
    } else if key == 1 || key == 7 || key == 8 || key == 10 || key == 11 || key == 12 {
      var next, value, found := ParseUnsigned(b, at);
      end, e := next, None;
      if !found || (key == 1 && value != 2) || (key >= 11 && value > 0xffff_ffff) { return g, end, Meaning; }
      g := if key == 1 then h else if key == 7 then h.(header := h.header.(entry := value))
           else if key == 8 then h.(header := h.header.(virtualTop := value))
           else if key == 10 then h.(header := h.header.(phdr := value))
           else if key == 11 then h.(header := h.header.(phent := value))
           else h.(header := h.header.(phnum := value));
    } else {
      if 3 <= key <= 6 && (at >= |b| || b[at] != 0x5b) { return g, at, Meaning; }
      var next, found := SkipAny(b, at);
      end, e := next, if found then None else Syntax;
      if key == 2 { g := h.(list := at); }
    }
  }

  /** A member with a new key comes at `cursor`. */
  ghost predicate Comes(b: seq<Byte>, words: seq<seq<Byte>>, cursor: nat, seen: set<nat>, m: Member, f: Facts) {
    && m.key == cursor && MemberStands(b, m) && (b[m.stop] == 0x2c || b[m.stop] == 0x7d)
    && KeyOf(b, words, m) !in seen && Says(b, KeyOf(b, words, m), m.value, m.end, f)
  }

  lemma ComesMeans(b: seq<Byte>, words: seq<seq<Byte>>, cursor: nat, seen: set<nat>, m: Member, f: Facts, key: nat,
                   keyEnd: nat, value: nat)
    requires Comes(b, words, cursor, seen, m, f) && m.keyEnd == keyEnd && m.value == value
    requires cursor + 2 <= keyEnd <= |b| && key == KeyIn(words, Raw(b, cursor, keyEnd))
    ensures key !in seen && Says(b, key, value, m.end, f) && Halts(b, m.end)
    ensures Blank(b, m.end, m.stop) && Solid(b, m.stop) && m.stop < |b|
  {
  }

  /** Read the value of a key. */
  method ReadValue(b: seq<Byte>, key: nat, at: nat, f: Facts) returns (g: Facts, end: nat, e: Trouble)
    requires at <= |b| && key <= Known(f)
    ensures g.Part? == f.Part?
    ensures e == None ==> at <= end <= |b| && Says(b, key, at, end, g) && OnlyChanges(f, g, key)
    ensures forall hi: nat, r: Facts {:trigger Says(b, key, at, hi, r)} ::
              Says(b, key, at, hi, r) && Halts(b, hi) && r.Part? == f.Part? ==> e == None && end == hi
  {
    match f {
      case Part(s) =>
        var t, next, good := SectionValue(b, key, at, s);
        g, end, e := Part(t), next, if good then None else Syntax;
      case Whole(h) =>
        var t, next, trouble := HeadValue(b, key, at, h);
        g, end, e := Whole(t), next, trouble;
    }
  }

  /** Read one member; one that can come is found. */
  method ReadMember(b: seq<Byte>, words: seq<seq<Byte>>, cursor: nat, seen: set<nat>, f: Facts)
    returns (m: Member, key: nat, g: Facts, e: Trouble)
    requires cursor <= |b| && |words| == Known(f)
    ensures g.Part? == f.Part?
    ensures e == None ==> m.key == cursor && MemberStands(b, m) && key == KeyOf(b, words, m) && key !in seen
    ensures e == None ==> Says(b, key, m.value, m.end, g) && OnlyChanges(f, g, key)
    ensures forall n: Member, r: Facts {:trigger Comes(b, words, cursor, seen, n, r)} ::
              Comes(b, words, cursor, seen, n, r) && r.Part? == f.Part? ==> e == None && n == m
  {
    m, g := Member(cursor, 0, 0, 0, 0, 0), f;
    var keyEnd, colon, value, k, found := ReadKey(b, cursor, words);
    key := k;
    if !found { return m, key, g, Syntax; }
    var end;
    g, end, e := ReadFresh(b, words, cursor, keyEnd, value, key, seen, f);
    if e != None { return; }
    var stop := Space(b, end);
    forall n: Member, r: Facts {:trigger Comes(b, words, cursor, seen, n, r)} |
      Comes(b, words, cursor, seen, n, r) && r.Part? == f.Part?
      ensures n.stop == stop && stop < |b|
    {
      ComesMeans(b, words, cursor, seen, n, r, key, keyEnd, value);
      BlankEnds(b, end, n.stop, stop);
    }
    if stop >= |b| { return m, key, g, Syntax; }
    m := Member(cursor, keyEnd, colon, value, end, stop);
  }

  /** Read the value of a key that has not come before. */
  method ReadFresh(b: seq<Byte>, words: seq<seq<Byte>>, ghost cursor: nat, ghost keyEnd: nat, value: nat, key: nat,
                   seen: set<nat>, f: Facts)
    returns (g: Facts, end: nat, e: Trouble)
    requires value <= |b| && |words| == Known(f)
    requires cursor + 2 <= keyEnd <= |b| && key == KeyIn(words, Raw(b, cursor, keyEnd))
    ensures g.Part? == f.Part?
    ensures e == None ==> key !in seen && value <= end <= |b| && Says(b, key, value, end, g) && OnlyChanges(f, g, key)
    ensures forall n: Member, r: Facts {:trigger Comes(b, words, cursor, seen, n, r)} ::
              Comes(b, words, cursor, seen, n, r) && r.Part? == f.Part? && n.keyEnd == keyEnd && n.value == value ==>
                e == None && n.end == end
  {
    g, end, e := f, 0, Meaning;
    if key !in seen { g, end, e := ReadValue(b, key, value, f); }
    forall n: Member, r: Facts {:trigger Comes(b, words, cursor, seen, n, r)} |
      Comes(b, words, cursor, seen, n, r) && r.Part? == f.Part? && n.keyEnd == keyEnd && n.value == value
      ensures e == None && n.end == end
    {
      ComesMeans(b, words, cursor, seen, n, r, key, keyEnd, value);
    }
  }

  /** Every object that is spelled here begins with these members. */
  ghost predicate Leads(b: seq<Byte>, words: seq<seq<Byte>>, lo: nat, needed: nat, part: bool, ms: seq<Member>) {
    forall hi: nat, ns: seq<Member>, r: Facts {:trigger Spelled(b, words, lo, hi, ns, r, needed, FOLDS)} ::
      Spelled(b, words, lo, hi, ns, r, needed, FOLDS) && r.Part? == part ==> ms <= ns
  }

  /** Every object that is spelled here has these members and this end. */
  ghost predicate Alone(b: seq<Byte>, words: seq<seq<Byte>>, lo: nat, needed: nat, part: bool, found: bool, hi: nat,
                        ms: seq<Member>) {
    forall to: nat, ns: seq<Member>, r: Facts {:trigger Spelled(b, words, lo, to, ns, r, needed, FOLDS)} ::
      Spelled(b, words, lo, to, ns, r, needed, FOLDS) && r.Part? == part ==> found && to == hi && ns == ms
  }

  /** The members of an object after those that were read. */
  lemma MemberComes(b: seq<Byte>, words: seq<seq<Byte>>, lo: nat, hi: nat, ns: seq<Member>, r: Facts, needed: nat,
                    ms: seq<Member>, seen: set<nat>, f: Facts, cursor: nat)
    requires Spelled(b, words, lo, hi, ns, r, needed, FOLDS) && ms <= ns
    requires Gathered(b, words, lo, ms, seen, f, FOLDS) && Going(b, lo, cursor, ms) && Solid(b, cursor)
    ensures if |ns| == |ms| then cursor < |b| && b[cursor] == 0x7d && hi == cursor + 1
            else Comes(b, words, cursor, seen, ns[|ms|], r) && cursor < |b| && b[cursor] == 0x22
  {
    SpelledMeans(b, words, lo, hi, ns, r, needed, FOLDS);
    GatheredUnfold(b, words, lo, ms, seen, f, FOLDS);
    if |ns| == |ms| {
      ObjectEnds(b, lo, hi, ns, cursor);
    } else {
      MemberStarts(b, lo, hi, ns, ms, cursor);
      NewKey(b, words, ns, ms, seen, needed);
    }
  }

  lemma ObjectEnds(b: seq<Byte>, lo: nat, hi: nat, ms: seq<Member>, cursor: nat)
    requires Ended(b, lo, hi, ms) && Going(b, lo, cursor, ms) && Solid(b, cursor)
    ensures cursor < |b| && b[cursor] == 0x7d && hi == cursor + 1
  {
    BlankEnds(b, Behind(lo, ms, |ms|), cursor, hi - 1);
  }

  lemma MemberStarts(b: seq<Byte>, lo: nat, hi: nat, ns: seq<Member>, ms: seq<Member>, cursor: nat)
    requires Fields(b, lo, hi, ns) && ms <= ns && |ms| < |ns| && Going(b, lo, cursor, ms) && Solid(b, cursor)
    ensures var m := ns[|ms|];
      && m.key == cursor && MemberStands(b, m) && (b[m.stop] == 0x2c || b[m.stop] == 0x7d)
      && cursor < |b| && b[cursor] == 0x22
  {
    var m := ns[|ms|];
    ChainAt(b, lo, hi, ns, |ms|);
    assert |ms| > 0 ==> ns[|ms| - 1] == ms[|ms| - 1];
    BlankEnds(b, Behind(lo, ms, |ms|), cursor, m.key);
  }

  lemma ChainAt(b: seq<Byte>, lo: nat, hi: nat, ms: seq<Member>, i: nat)
    requires Fields(b, lo, hi, ms) && i < |ms|
    ensures MemberStands(b, ms[i]) && Blank(b, Behind(lo, ms, i), ms[i].key) && b[ms[i].key] == 0x22
    ensures if i + 1 < |ms| then b[ms[i].stop] == 0x2c
            else b[ms[i].stop] == 0x2c || (b[ms[i].stop] == 0x7d && hi == ms[i].stop + 1)
  {
    ChainOne(b, lo, ms, i);
    Quoted(b, ms[i]);
    if i + 1 == |ms| { LastEnds(b, lo, hi, ms); }
  }

  lemma ChainOne(b: seq<Byte>, lo: nat, ms: seq<Member>, i: nat)
    requires Chain(b, lo, ms) && i < |ms|
    ensures MemberStands(b, ms[i]) && Blank(b, Behind(lo, ms, i), ms[i].key)
    ensures i + 1 < |ms| ==> b[ms[i].stop] == 0x2c
  {
    assert MemberAt(b, lo, ms, i);
  }

  lemma Quoted(b: seq<Byte>, m: Member)
    requires MemberStands(b, m)
    ensures m.key < m.stop < |b| && b[m.key] == 0x22
  {
  }

  lemma LastEnds(b: seq<Byte>, lo: nat, hi: nat, ms: seq<Member>)
    requires Ended(b, lo, hi, ms) && ms != [] && ms[|ms| - 1].stop < |b|
    ensures var stop := ms[|ms| - 1].stop; b[stop] == 0x2c || (b[stop] == 0x7d && hi == stop + 1)
  {
  }

  lemma NewKey(b: seq<Byte>, words: seq<seq<Byte>>, ns: seq<Member>, ms: seq<Member>, seen: set<nat>, needed: nat)
    requires forall i {:trigger ns[i]} :: 0 <= i < |ns| ==> ns[i].key + 2 <= ns[i].keyEnd <= |b|
    requires forall i {:trigger ms[i]} :: 0 <= i < |ms| ==> ms[i].key + 2 <= ms[i].keyEnd <= |b|
    requires Once(b, words, ns, needed) && ms <= ns && |ms| < |ns| && SeenAre(b, words, ms, seen)
    ensures KeyOf(b, words, ns[|ms|]) !in seen
  {
    assert forall i {:trigger ms[i]} :: 0 <= i < |ms| ==> ns[i] == ms[i];
  }

  /** One member more that every object has. */
  lemma LeadsMore(b: seq<Byte>, words: seq<seq<Byte>>, lo: nat, needed: nat, part: bool, ms: seq<Member>,
                  seen: set<nat>, f: Facts, cursor: nat, m: Member, found: bool)
    requires Leads(b, words, lo, needed, part, ms) && Gathered(b, words, lo, ms, seen, f, FOLDS)
    requires Going(b, lo, cursor, ms) && Solid(b, cursor) && cursor < |b| && b[cursor] != 0x7d
    requires forall n: Member, r: Facts {:trigger Comes(b, words, cursor, seen, n, r)} ::
               Comes(b, words, cursor, seen, n, r) && r.Part? == part ==> found && n == m
    ensures if found then Leads(b, words, lo, needed, part, ms + [m])
            else Alone(b, words, lo, needed, part, false, 0, ms)
  {
    forall hi: nat, ns: seq<Member>, r: Facts {:trigger Spelled(b, words, lo, hi, ns, r, needed, FOLDS)} |
      Spelled(b, words, lo, hi, ns, r, needed, FOLDS) && r.Part? == part
      ensures found && ms + [m] <= ns
    {
      MemberComes(b, words, lo, hi, ns, r, needed, ms, seen, f, cursor);
    }
  }

  /** The last member ends at the bracket. */
  lemma LeadsToEnd(b: seq<Byte>, words: seq<seq<Byte>>, lo: nat, needed: nat, part: bool, ms: seq<Member>, m: Member)
    requires Leads(b, words, lo, needed, part, ms + [m]) && m.stop < |b| && b[m.stop] != 0x2c
    ensures Alone(b, words, lo, needed, part, b[m.stop] == 0x7d, m.stop + 1, ms + [m])
  {
    var all := ms + [m];
    forall hi: nat, ns: seq<Member>, r: Facts {:trigger Spelled(b, words, lo, hi, ns, r, needed, FOLDS)} |
      Spelled(b, words, lo, hi, ns, r, needed, FOLDS) && r.Part? == part
      ensures b[m.stop] == 0x7d && hi == m.stop + 1 && ns == all
    {
      SpelledMeans(b, words, lo, hi, ns, r, needed, FOLDS);
      assert ns[|ms|] == all[|ms|] == m;
      ChainAt(b, lo, hi, ns, |ms|);
    }
  }

  /** The bracket, or nothing, comes after a comma. */
  lemma LeadsToBracket(b: seq<Byte>, words: seq<seq<Byte>>, lo: nat, needed: nat, part: bool, ms: seq<Member>,
                       seen: set<nat>, f: Facts, cursor: nat)
    requires Leads(b, words, lo, needed, part, ms) && Gathered(b, words, lo, ms, seen, f, FOLDS)
    requires Going(b, lo, cursor, ms) && Solid(b, cursor) && (cursor < |b| ==> b[cursor] == 0x7d)
    ensures Alone(b, words, lo, needed, part, cursor < |b|, cursor + 1, ms)
  {
    forall hi: nat, ns: seq<Member>, r: Facts {:trigger Spelled(b, words, lo, hi, ns, r, needed, FOLDS)} |
      Spelled(b, words, lo, hi, ns, r, needed, FOLDS) && r.Part? == part
      ensures cursor < |b| && hi == cursor + 1 && ns == ms
    {
      MemberComes(b, words, lo, hi, ns, r, needed, ms, seen, f, cursor);
    }
  }

  /** A key that must come has not come. */
  lemma KeyMissing(b: seq<Byte>, words: seq<seq<Byte>>, lo: nat, needed: nat, part: bool, found: bool, hi: nat,
                   ms: seq<Member>, seen: set<nat>, f: Facts)
    requires Alone(b, words, lo, needed, part, found, hi, ms) && Gathered(b, words, lo, ms, seen, f, FOLDS)
    requires needed <= |words|
    ensures Alone(b, words, lo, needed, part, found && AllSeen(seen, needed), hi, ms)
  {
    forall to: nat, ns: seq<Member>, r: Facts {:trigger Spelled(b, words, lo, to, ns, r, needed, FOLDS)} |
      Spelled(b, words, lo, to, ns, r, needed, FOLDS) && r.Part? == part
      ensures AllSeen(seen, needed)
    {
      SpelledMeans(b, words, lo, to, ns, r, needed, FOLDS);
      GatheredUnfold(b, words, lo, ms, seen, f, FOLDS);
      forall k: nat | k < needed ensures k in seen { assert HasKey(b, words, ms, k); }
    }
  }

  lemma LeadsFirst(b: seq<Byte>, words: seq<seq<Byte>>, lo: nat, needed: nat, part: bool)
    ensures Leads(b, words, lo, needed, part, [])
  {
  }

  /** Read an object; the one that is spelled here is found. */
  method ReadObject(b: seq<Byte>, words: seq<seq<Byte>>, lo: nat, start: Facts, needed: nat)
    returns (f: Facts, hi: nat, e: Trouble, ghost ms: seq<Member>)
    requires lo < |b| && b[lo] == 0x7b && |words| == Known(start) && needed <= |words| && Blankly(start)
    ensures f.Part? == start.Part?
    ensures e == None ==> lo < hi <= |b| && Spelled(b, words, lo, hi, ms, f, needed, FOLDS)
    ensures Alone(b, words, lo, needed, start.Part?, e == None, hi, ms)
  {
    ghost var part := start.Part?;
    f, hi, ms := start, 0, [];
    var seen: set<nat> := {};
    var cursor := Space(b, lo + 1);
    Begins(b, words, lo, cursor, f);
    LeadsFirst(b, words, lo, needed, part);
    while cursor < |b| && b[cursor] != 0x7d
      invariant lo < cursor <= |b| && f.Part? == part && Solid(b, cursor)
      invariant Gathered(b, words, lo, ms, seen, f, FOLDS) && Going(b, lo, cursor, ms)
      invariant Leads(b, words, lo, needed, part, ms)
    {
      var m, key, g, trouble := ReadMember(b, words, cursor, seen, f);
      LeadsMore(b, words, lo, needed, part, ms, seen, f, cursor, m, trouble == None);
      if trouble != None { return f, 0, trouble, ms; }
      ghost var was := ms;
      var now := seen + if key < |words| then {key} else {};
      OneMore(b, words, lo, cursor, ms, seen, f, m, key, g, now);
      ms, f, seen := ms + [m], g, now;
      if b[m.stop] != 0x2c {
        hi, e := EndObject(b, words, lo, needed, part, was, m, seen, f);
        return;
      }
      cursor := Space(b, m.stop + 1);
      GoesOn(b, lo, was, m, cursor);
    }
    LeadsToBracket(b, words, lo, needed, part, ms, seen, f, cursor);
    KeyMissing(b, words, lo, needed, part, cursor < |b|, cursor + 1, ms, seen, f);
    hi, e := cursor + 1, if cursor < |b| && AllSeen(seen, needed) then None else Meaning;
    if e == None { Closes(b, words, lo, cursor, ms, seen, f, needed); }
  }

  /** Behind the last member the object ends, or the text is wrong. */
  method EndObject(b: seq<Byte>, words: seq<seq<Byte>>, lo: nat, needed: nat, ghost part: bool,
                   ghost was: seq<Member>, m: Member, seen: set<nat>, f: Facts)
    returns (hi: nat, e: Trouble)
    requires Gathered(b, words, lo, was + [m], seen, f, FOLDS) && Leads(b, words, lo, needed, part, was + [m])
    requires lo < m.stop < |b| && b[m.stop] != 0x2c && needed <= |words|
    ensures e == None ==> lo < hi <= |b| && Spelled(b, words, lo, hi, was + [m], f, needed, FOLDS)
    ensures Alone(b, words, lo, needed, part, e == None, hi, was + [m])
  {
    LeadsToEnd(b, words, lo, needed, part, was, m);
    KeyMissing(b, words, lo, needed, part, b[m.stop] == 0x7d, m.stop + 1, was + [m], seen, f);
    hi := m.stop + 1;
    if b[m.stop] != 0x7d { return hi, Syntax; }
    if !AllSeen(seen, needed) { return hi, Meaning; }
    assert (was + [m])[|was|] == m;
    Closes(b, words, lo, m.stop, was + [m], seen, f, needed);
    e := None;
  }
}
