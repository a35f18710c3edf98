/** Loading a THX file: the seal, the header text, and the sections it lists,
    each placed as soon as it is read. */
module Thx {
  import opened Frames
  import opened Ownership
  import opened GuestMemory
  import opened Processes
  import opened Images
  import opened Json
  import opened Startups
  import Text = ThxText
  import Checksums
  import VfsImages
  import VfsLoading

  // name, flg, align, size, addr, at, len
  const SECTION_WORDS: seq<seq<Byte>> := [
    [0x6e, 0x61, 0x6d, 0x65], [0x66, 0x6c, 0x67], [0x61, 0x6c, 0x69, 0x67, 0x6e], [0x73, 0x69, 0x7a, 0x65],
    [0x61, 0x64, 0x64, 0x72], [0x61, 0x74], [0x6c, 0x65, 0x6e]]

  // machine, ver, sec, sym, rel, dbg, ident, entry, mem, isa, phdr, phent, phnum
  const HEADER_WORDS: seq<seq<Byte>> := [
    [0x6d, 0x61, 0x63, 0x68, 0x69, 0x6e, 0x65], [0x76, 0x65, 0x72], [0x73, 0x65, 0x63], [0x73, 0x79, 0x6d],
    [0x72, 0x65, 0x6c], [0x64, 0x62, 0x67], [0x69, 0x64, 0x65, 0x6e, 0x74], [0x65, 0x6e, 0x74, 0x72, 0x79],
    [0x6d, 0x65, 0x6d], [0x69, 0x73, 0x61], [0x70, 0x68, 0x64, 0x72], [0x70, 0x68, 0x65, 0x6e, 0x74],
    [0x70, 0x68, 0x6e, 0x75, 0x6d]]

  // --- the list of sections

  /** Where an object of the list lies, the comma or bracket behind it, and its members. */
  datatype Place = Place(lo: nat, hi: nat, stop: nat, ms: seq<Text.Member>)

  function Before(open: nat, places: seq<Place>, i: nat): nat
    requires i <= |places|
  {
    if i == 0 then open + 1 else places[i - 1].stop + 1
  }

  ghost predicate PlaceStands(b: seq<Byte>, words: seq<seq<Byte>>, from: nat, p: Place, s: Section) {
    match p
    case Place(lo, hi, stop, ms) =>
      && Blank(b, from, lo) && Text.Spelled(b, words, lo, hi, ms, Text.Part(s), 7, Text.FOLDS)
      && Blank(b, hi, stop) && stop < |b|
  }

  /** The objects stand one after the other behind the bracket and describe the sections. */
  ghost predicate Listed(b: seq<Byte>, words: seq<seq<Byte>>, open: nat, places: seq<Place>, sections: seq<Section>) {
    if places == [] then sections == [] && open < |b| && b[open] == 0x5b
    else
      var n := |places| - 1;
      && |sections| == n + 1 && Listed(b, words, open, places[..n], sections[..n])
      && PlaceStands(b, words, Before(open, places, n), places[n], sections[n])
      && (n > 0 ==> places[n - 1].stop < |b| && b[places[n - 1].stop] == 0x2c)
  }

  /** Where a list opens, and its objects. */
  datatype Roll = Roll(open: nat, places: seq<Place>)

  /** The text at `at` is a list of these sections. */
  ghost predicate SpellsList(b: seq<Byte>, words: seq<seq<Byte>>, at: nat, roll: Roll, sections: seq<Section>) {
    match roll
    case Roll(open, places) =>
      && Blank(b, at, open) && Listed(b, words, open, places, sections)
      && places != [] && places[|places| - 1].stop < |b| && b[places[|places| - 1].stop] == 0x5d
  }

  /** The list goes on at `cursor`, behind the bracket or a comma. */
  ghost predicate ListGoes(b: seq<Byte>, open: nat, places: seq<Place>, cursor: nat) {
    && (places != [] ==> places[|places| - 1].stop < |b| && b[places[|places| - 1].stop] == 0x2c)
    && Blank(b, Before(open, places, |places|), cursor)
  }

  lemma ListedMore(b: seq<Byte>, words: seq<seq<Byte>>, open: nat, places: seq<Place>, sections: seq<Section>, p: Place,
                   s: Section, cursor: nat)
    requires Listed(b, words, open, places, sections) && PlaceStands(b, words, Before(open, places, |places|), p, s)
    requires ListGoes(b, open, places, cursor)
    ensures Listed(b, words, open, places + [p], sections + [s]) && p.stop < |b|
  {
    var q, r := places + [p], sections + [s];
    assert q[..|places|] == places && r[..|places|] == sections && |sections| == |places|;
    assert Before(open, q, |places|) == Before(open, places, |places|);
  }

  lemma ListGoesBehind(b: seq<Byte>, open: nat, places: seq<Place>, p: Place, cursor: nat)
    requires p.stop < |b| && b[p.stop] == 0x2c && Blank(b, p.stop + 1, cursor)
    ensures ListGoes(b, open, places + [p], cursor)
  {
  }

  lemma FirstListed(b: seq<Byte>, words: seq<seq<Byte>>, open: nat)
    requires open < |b| && b[open] == 0x5b
    ensures Listed(b, words, open, [], [])
  {
  }

  const NO_SECTION := Section(0, 0, 0, 0, 0, 0, 0, 0)

  lemma PlaceOpens(b: seq<Byte>, words: seq<seq<Byte>>, from: nat, p: Place, s: Section, cursor: nat)
    requires PlaceStands(b, words, from, p, s) && Blank(b, from, cursor) && Solid(b, cursor)
    ensures p.lo == cursor < |b| && b[cursor] == 0x7b
  {
    Text.SpelledMeans(b, words, p.lo, p.hi, p.ms, Text.Part(s), 7, Text.FOLDS);
    BlankEnds(b, from, p.lo, cursor);
  }

  /** Behind an object of the list comes a comma or the closing bracket. */
  ghost predicate Breaks(b: seq<Byte>, at: nat) {
    at < |b| && (b[at] == 0x2c || b[at] == 0x5d)
  }

  /** Read the object at `cursor`; one that stands here is found. */
  method ReadPlace(b: seq<Byte>, words: seq<seq<Byte>>, cursor: nat, ghost from: nat)
    returns (s: Section, stop: nat, ok: bool, ghost p: Place)
    requires cursor < |b| && |words| == 7 && Blank(b, from, cursor) && Solid(b, cursor)
    ensures ok ==> cursor < stop < |b| && Solid(b, stop) && p.stop == stop && PlaceStands(b, words, from, p, s)
    ensures forall q: Place, t: Section {:trigger PlaceStands(b, words, from, q, t)} ::
              PlaceStands(b, words, from, q, t) && Breaks(b, q.stop) ==> ok && q == p && t == s
  {
    s, stop, ok, p := NO_SECTION, 0, false, Place(cursor, 0, 0, []);
    forall q: Place, t: Section {:trigger PlaceStands(b, words, from, q, t)} | PlaceStands(b, words, from, q, t)
      ensures q.lo == cursor && b[cursor] == 0x7b
    {
      PlaceOpens(b, words, from, q, t, cursor);
    }
    if b[cursor] != 0x7b { return; }
    var f, hi, e, ms := Text.ReadObject(b, words, cursor, Text.Part(NO_SECTION), 7);
    if e != Text.None {
      NoPlace(b, words, from, cursor, hi, ms);
      return;
    }
    stop := Space(b, hi);
    s, ok, p := f.s, stop < |b|, Place(cursor, hi, stop, ms);
    OnePlace(b, words, from, p, s);
  }

  lemma NoPlace(b: seq<Byte>, words: seq<seq<Byte>>, from: nat, cursor: nat, hi: nat, ms: seq<Text.Member>)
    requires Text.Alone(b, words, cursor, 7, true, false, hi, ms)
    ensures forall q: Place, t: Section {:trigger PlaceStands(b, words, from, q, t)} ::
              q.lo == cursor ==> !PlaceStands(b, words, from, q, t)
  {
    forall q: Place, t: Section {:trigger PlaceStands(b, words, from, q, t)} | q.lo == cursor
      ensures !PlaceStands(b, words, from, q, t)
    {
      assert Text.Spelled(b, words, cursor, q.hi, q.ms, Text.Part(t), 7, Text.FOLDS) ==> false;
    }
  }

  lemma OnePlace(b: seq<Byte>, words: seq<seq<Byte>>, from: nat, p: Place, s: Section)
    requires Text.Alone(b, words, p.lo, 7, true, true, p.hi, p.ms)
    requires Text.Spelled(b, words, p.lo, p.hi, p.ms, Text.Part(s), 7, Text.FOLDS)
    requires Blank(b, p.hi, p.stop) && Solid(b, p.stop)
    ensures forall q: Place, t: Section {:trigger PlaceStands(b, words, from, q, t)} ::
              PlaceStands(b, words, from, q, t) && Breaks(b, q.stop) && q.lo == p.lo ==> q == p && t == s
  {
    forall q: Place, t: Section {:trigger PlaceStands(b, words, from, q, t)} |
      PlaceStands(b, words, from, q, t) && Breaks(b, q.stop) && q.lo == p.lo
      ensures q == p && t == s
    {
      assert Text.Spelled(b, words, p.lo, q.hi, q.ms, Text.Part(t), 7, Text.FOLDS);
      Text.SamePart(b, words, p.lo, p.hi, p.ms, s, t);
      BlankEnds(b, p.hi, p.stop, q.stop);
    }
  }

  /** One section more. */
  lemma MoreSections(bytes: seq<Byte>, payload: nat, sections: seq<Section>, s: Section, top: nat, payloadLength: nat)
    requires forall i :: 0 <= i < |sections| ==> AcceptableAt(sections, i, top, payloadLength)
    requires Described(s, payloadLength) && Placed(Placements(sections, |sections|), top, Placement(s), s.length)
    ensures var more := sections + [s];
      && Payloads(bytes, payload, more, |more|) ==
         Payloads(bytes, payload, sections, |sections|) + [Payload(bytes, payload + s.at, s.length)]
      && Placements(more, |more|) == Placements(sections, |sections|) + [Placement(s)]
      && forall i :: 0 <= i < |more| ==> AcceptableAt(more, i, top, payloadLength)
  {
    var more := sections + [s];
    assert forall i :: 0 <= i < |sections| ==> more[i] == sections[i];
    forall i | 0 <= i < |more| ensures AcceptableAt(more, i, top, payloadLength) {
      assert Placements(more, i) == Placements(sections, i);
      if i < |sections| { assert AcceptableAt(sections, i, top, payloadLength); }
    }
  }

  /** The sections are placed, each well described and fitting those before it.  Kept folded. */
  ghost predicate Placing(p: Process, bytes: seq<Byte>, payload: nat, payloadLength: nat, sections: seq<Section>,
                          folds: nat)
    reads p, p.memory, p.memory.entries, p.memory.arena, p.memory.arena.bytes, p.table, p.table.maps
  {
    if folds > 0 then Placing(p, bytes, payload, payloadLength, sections, folds - 1)
    else
      && Loading(p, Payloads(bytes, payload, sections, |sections|))
      && p.segments == Placements(sections, |sections|)
      && forall i :: 0 <= i < |sections| ==> AcceptableAt(sections, i, p.memory.top, payloadLength)
  }

  lemma PlacingFold(p: Process, bytes: seq<Byte>, payload: nat, payloadLength: nat, sections: seq<Section>, folds: nat)
    requires Placing(p, bytes, payload, payloadLength, sections, 0)
    ensures Placing(p, bytes, payload, payloadLength, sections, folds)
  {
  }

  lemma PlacingUnfold(p: Process, bytes: seq<Byte>, payload: nat, payloadLength: nat, sections: seq<Section>,
                      folds: nat)
    requires Placing(p, bytes, payload, payloadLength, sections, folds)
    ensures Loading(p, Payloads(bytes, payload, sections, |sections|)) && p.Ready()
    ensures p.segments == Placements(sections, |sections|)
    ensures forall i :: 0 <= i < |sections| ==> AcceptableAt(sections, i, p.memory.top, payloadLength)
  {
    if folds > 0 {
      PlacingUnfold(p, bytes, payload, payloadLength, sections, folds - 1);
    } else {
      Images.Open(p, Payloads(bytes, payload, sections, |sections|), FOLDS);
    }
  }

  /** `Ready`, kept folded. */
  ghost predicate Usable(p: Process, folds: nat)
    reads p, p.memory, p.memory.entries, p.memory.arena, p.memory.arena.bytes, p.table, p.table.maps
  {
    if folds > 0 then Usable(p, folds - 1) else p.Ready()
  }

  lemma UsableIs(p: Process, folds: nat)
    ensures Usable(p, folds) <==> p.Ready()
  {
  }

  lemma PlacingUsable(p: Process, bytes: seq<Byte>, payload: nat, payloadLength: nat, sections: seq<Section>)
    requires Placing(p, bytes, payload, payloadLength, sections, FOLDS)
    ensures Usable(p, FOLDS)
  {
    PlacingUnfold(p, bytes, payload, payloadLength, sections, FOLDS);
    UsableIs(p, FOLDS);
  }

  lemma {:induction false} SamePlacements(sections: seq<Section>, s: Section, n: nat)
    requires n <= |sections|
    ensures Placements(sections + [s], n) == Placements(sections, n)
  {
    if n > 0 { SamePlacements(sections, s, n - 1); }
  }

  /** Place one section more. */
  method PlaceNext(p: Process, s: Section, payload: nat, payloadLength: nat, ghost c0: Contents,
                   ghost sections: seq<Section>) returns (r: Status)
    requires OnlyFor(c0, p.memory.arena.contents, p.memory.arena.base, p.memory, p.memory.arena.imageTop)
    requires p.memory.arena.ImageContains(payload, payloadLength)
    requires Placing(p, c0.bytes, payload, payloadLength, sections, FOLDS)
    modifies p`segments, p`imageFloor
    modifies p.memory`view, p.memory`pageCount, p.memory.entries, p.memory.arena`next, p.memory.arena`contents,
             p.memory.arena.bytes
    ensures OnlyFor(c0, p.memory.arena.contents, p.memory.arena.base, p.memory, p.memory.arena.imageTop)
    ensures if r == Ok then Placing(p, c0.bytes, payload, payloadLength, sections + [s], FOLDS) else Usable(p, FOLDS)
    ensures r == BadSection ==> !AcceptableAt(sections + [s], |sections|, p.memory.top, payloadLength)
  {
    ghost var data := Payloads(c0.bytes, payload, sections, |sections|);
    PlacingUnfold(p, c0.bytes, payload, payloadLength, sections, FOLDS);
    SamePlacements(sections, s, |sections|);
    r := LoadSection(p, c0, payload, payloadLength, s, data);
    if r == Ok {
      MoreSections(c0.bytes, payload, sections, s, p.memory.top, payloadLength);
      PlacingFold(p, c0.bytes, payload, payloadLength, sections + [s], FOLDS);
    } else {
      UsableIs(p, FOLDS);
    }
  }

  // --- the list that is spelled is the one that is read

  /** Every list that is spelled here begins with these objects. */
  ghost predicate ListLeads(b: seq<Byte>, words: seq<seq<Byte>>, at: nat, open: nat, places: seq<Place>,
                            sections: seq<Section>) {
    forall roll: Roll, ts: seq<Section> {:trigger SpellsList(b, words, at, roll, ts)} ::
      SpellsList(b, words, at, roll, ts) ==> roll.open == open && places <= roll.places && sections <= ts
  }

  /** Nothing is spelled here but, if at all, this list. */
  ghost predicate ListAlone(b: seq<Byte>, words: seq<seq<Byte>>, at: nat, found: bool, roll: Roll,
                            sections: seq<Section>) {
    forall other: Roll, ts: seq<Section> {:trigger SpellsList(b, words, at, other, ts)} ::
      SpellsList(b, words, at, other, ts) ==> found && other == roll && ts == sections
  }

  /** No list that is spelled here is acceptable. */
  ghost predicate ListRefused(b: seq<Byte>, words: seq<seq<Byte>>, at: nat, top: nat, payloadLength: nat) {
    forall roll: Roll, ts: seq<Section> {:trigger SpellsList(b, words, at, roll, ts)} ::
      SpellsList(b, words, at, roll, ts) ==> !Acceptable(ts, top, payloadLength)
  }

  /** What the answer says of a list that is spelled here. */
  ghost predicate ListAnswered(b: seq<Byte>, words: seq<seq<Byte>>, at: nat, r: Status, roll: Roll,
                               sections: seq<Section>, top: nat, payloadLength: nat) {
    && (r == Ok ==> ListAlone(b, words, at, true, roll, sections))
    && (r == BadSection ==> ListRefused(b, words, at, top, payloadLength))
  }

  lemma AloneRefused(b: seq<Byte>, words: seq<seq<Byte>>, at: nat, roll: Roll, sections: seq<Section>, top: nat,
                     payloadLength: nat)
    requires ListAlone(b, words, at, false, roll, sections)
    ensures ListRefused(b, words, at, top, payloadLength)
  {
  }

  lemma {:induction false} ListedAt(b: seq<Byte>, words: seq<seq<Byte>>, open: nat, places: seq<Place>,
                                    sections: seq<Section>, k: nat)
    requires Listed(b, words, open, places, sections) && k < |places|
    ensures |sections| == |places| && PlaceStands(b, words, Before(open, places, k), places[k], sections[k])
    ensures k + 1 < |places| ==> places[k].stop < |b| && b[places[k].stop] == 0x2c
  {
    var n := |places| - 1;
    if k < n { ListedAt(b, words, open, places[..n], sections[..n], k); }
    assert k < n ==> Before(open, places[..n], k) == Before(open, places, k);
  }

  lemma {:induction false} ListOpens(b: seq<Byte>, words: seq<seq<Byte>>, open: nat, places: seq<Place>,
                                     sections: seq<Section>)
    requires Listed(b, words, open, places, sections)
    ensures open < |b| && b[open] == 0x5b && |sections| == |places|
  {
    if places != [] {
      var n := |places| - 1;
      ListOpens(b, words, open, places[..n], sections[..n]);
    }
  }

  lemma ListStarts(b: seq<Byte>, words: seq<seq<Byte>>, at: nat, open: nat)
    requires Blank(b, at, open) && Solid(b, open)
    ensures if open < |b| && b[open] == 0x5b then ListLeads(b, words, at, open, [], [])
            else ListAlone(b, words, at, false, Roll(open, []), [])
  {
    forall roll: Roll, ts: seq<Section> {:trigger SpellsList(b, words, at, roll, ts)} |
      SpellsList(b, words, at, roll, ts)
      ensures roll.open == open < |b| && b[open] == 0x5b
    {
      ListOpens(b, words, roll.open, roll.places, ts);
      BlankEnds(b, at, roll.open, open);
    }
  }

  /** The next object of a list after those that were read. */
  lemma PlaceComes(b: seq<Byte>, words: seq<seq<Byte>>, at: nat, roll: Roll, ts: seq<Section>, places: seq<Place>,
                   cursor: nat)
    requires SpellsList(b, words, at, roll, ts) && places <= roll.places && ListGoes(b, roll.open, places, cursor)
    ensures |places| < |roll.places| == |ts|
    ensures PlaceStands(b, words, Before(roll.open, places, |places|), roll.places[|places|], ts[|places|])
    ensures Breaks(b, roll.places[|places|].stop)
  {
    var n := |places|;
    assert roll.places[..n] == places;
    ListedAt(b, words, roll.open, roll.places, ts, n);
    assert n > 0 ==> roll.places[n - 1] == places[n - 1];
  }

  lemma ListLeadsMore(b: seq<Byte>, words: seq<seq<Byte>>, at: nat, open: nat, places: seq<Place>,
                      sections: seq<Section>, cursor: nat, p: Place, s: Section, found: bool)
    requires ListLeads(b, words, at, open, places, sections) && ListGoes(b, open, places, cursor)
    requires |places| == |sections|
    requires forall q: Place, t: Section {:trigger PlaceStands(b, words, Before(open, places, |places|), q, t)} ::
               PlaceStands(b, words, Before(open, places, |places|), q, t) && Breaks(b, q.stop) ==>
                 found && q == p && t == s
    ensures if found then ListLeads(b, words, at, open, places + [p], sections + [s])
            else ListAlone(b, words, at, false, Roll(open, places), sections)
  {
    forall roll: Roll, ts: seq<Section> {:trigger SpellsList(b, words, at, roll, ts)} |
      SpellsList(b, words, at, roll, ts)
      ensures found && roll.open == open && places + [p] <= roll.places && sections + [s] <= ts
    {
      ListGoesOn(b, words, at, roll, ts, places, sections, cursor, p, s, found);
    }
  }

  lemma ListGoesOn(b: seq<Byte>, words: seq<seq<Byte>>, at: nat, roll: Roll, ts: seq<Section>, places: seq<Place>,
                   sections: seq<Section>, cursor: nat, p: Place, s: Section, found: bool)
    requires SpellsList(b, words, at, roll, ts) && places <= roll.places && sections <= ts
    requires ListGoes(b, roll.open, places, cursor) && |places| == |sections|
    requires forall q: Place, t: Section {:trigger PlaceStands(b, words, Before(roll.open, places, |places|), q, t)} ::
               PlaceStands(b, words, Before(roll.open, places, |places|), q, t) && Breaks(b, q.stop) ==>
                 found && q == p && t == s
    ensures found && places + [p] <= roll.places && sections + [s] <= ts
  {
    PlaceComes(b, words, at, roll, ts, places, cursor);
  }

  /** No object, and no comma, comes after the text has ended. */
  lemma ListCutOff(b: seq<Byte>, words: seq<seq<Byte>>, at: nat, open: nat, places: seq<Place>,
                   sections: seq<Section>, cursor: nat)
    requires ListLeads(b, words, at, open, places, sections) && ListGoes(b, open, places, cursor)
    requires Solid(b, cursor) && (cursor < |b| ==> b[cursor] != 0x7b)
    ensures ListAlone(b, words, at, false, Roll(open, places), sections)
  {
    forall roll: Roll, ts: seq<Section> {:trigger SpellsList(b, words, at, roll, ts)} |
      SpellsList(b, words, at, roll, ts)
      ensures false
    {
      PlaceComes(b, words, at, roll, ts, places, cursor);
      PlaceOpens(b, words, Before(open, places, |places|), roll.places[|places|], ts[|places|], cursor);
    }
  }

  /** Behind the last object the list ends, or the text is wrong. */
  lemma ListLeadsToEnd(b: seq<Byte>, words: seq<seq<Byte>>, at: nat, open: nat, places: seq<Place>,
                       sections: seq<Section>)
    requires ListLeads(b, words, at, open, places, sections) && places != [] && |places| == |sections|
    requires places[|places| - 1].stop < |b| && b[places[|places| - 1].stop] != 0x2c
    ensures ListAlone(b, words, at, b[places[|places| - 1].stop] == 0x5d, Roll(open, places), sections)
  {
    var n := |places| - 1;
    forall roll: Roll, ts: seq<Section> {:trigger SpellsList(b, words, at, roll, ts)} |
      SpellsList(b, words, at, roll, ts)
      ensures b[places[n].stop] == 0x5d && roll == Roll(open, places) && ts == sections
    {
      ListedAt(b, words, roll.open, roll.places, ts, n);
      assert roll.places[n] == places[n];
    }
  }

  /** A section that is refused makes every list that begins so unacceptable. */
  lemma LeadsRefused(b: seq<Byte>, words: seq<seq<Byte>>, at: nat, open: nat, places: seq<Place>,
                     sections: seq<Section>, s: Section, top: nat, payloadLength: nat)
    requires ListLeads(b, words, at, open, places, sections + [s])
    requires !AcceptableAt(sections + [s], |sections|, top, payloadLength)
    ensures ListRefused(b, words, at, top, payloadLength)
  {
    var n := |sections|;
    forall roll: Roll, ts: seq<Section> {:trigger SpellsList(b, words, at, roll, ts)} |
      SpellsList(b, words, at, roll, ts)
      ensures !Acceptable(ts, top, payloadLength)
    {
      assert ts[n] == (sections + [s])[n];
      PlacementsLike(sections + [s], ts, n);
      assert !AcceptableAt(ts, n, top, payloadLength);
    }
  }

  lemma {:induction false} PlacementsLike(a: seq<Section>, b: seq<Section>, n: nat)
    requires a <= b && n <= |a|
    ensures Placements(a, n) == Placements(b, n)
  {
    if n > 0 { PlacementsLike(a, b, n - 1); }
  }

  /** The list is read up to these objects.  Kept folded. */
  ghost predicate Reached(b: seq<Byte>, words: seq<seq<Byte>>, at: nat, roll: Roll, sections: seq<Section>,
                          folds: nat) {
    if folds > 0 then Reached(b, words, at, roll, sections, folds - 1)
    else
      && Listed(b, words, roll.open, roll.places, sections) && |roll.places| == |sections|
      && ListLeads(b, words, at, roll.open, roll.places, sections)
  }

  lemma ReachedIs(b: seq<Byte>, words: seq<seq<Byte>>, at: nat, roll: Roll, sections: seq<Section>, folds: nat)
    ensures Reached(b, words, at, roll, sections, folds) <==>
            Listed(b, words, roll.open, roll.places, sections) && |roll.places| == |sections| &&
            ListLeads(b, words, at, roll.open, roll.places, sections)
  {
  }

  /** The object at `cursor` is the next one, or no list is spelled. */
  lemma ReachesOn(b: seq<Byte>, words: seq<seq<Byte>>, at: nat, roll: Roll, sections: seq<Section>, cursor: nat,
                  p: Place, s: Section, found: bool, top: nat, payloadLength: nat)
    requires Reached(b, words, at, roll, sections, FOLDS) && ListGoes(b, roll.open, roll.places, cursor)
    requires found ==> PlaceStands(b, words, Before(roll.open, roll.places, |roll.places|), p, s)
    requires forall q: Place, t: Section
               {:trigger PlaceStands(b, words, Before(roll.open, roll.places, |roll.places|), q, t)} ::
               PlaceStands(b, words, Before(roll.open, roll.places, |roll.places|), q, t) && Breaks(b, q.stop) ==>
                 found && q == p && t == s
    ensures if found then Reached(b, words, at, Roll(roll.open, roll.places + [p]), sections + [s], FOLDS)
            else ListRefused(b, words, at, top, payloadLength)
  {
    ReachedIs(b, words, at, roll, sections, FOLDS);
    ListLeadsMore(b, words, at, roll.open, roll.places, sections, cursor, p, s, found);
    if found {
      ListedMore(b, words, roll.open, roll.places, sections, p, s, cursor);
      ReachedIs(b, words, at, Roll(roll.open, roll.places + [p]), sections + [s], FOLDS);
    } else {
      AloneRefused(b, words, at, roll, sections, top, payloadLength);
    }
  }

  /** The last section read is refused. */
  lemma ReachedRefused(b: seq<Byte>, words: seq<seq<Byte>>, at: nat, roll: Roll, sections: seq<Section>, s: Section,
                       top: nat, payloadLength: nat)
    requires Reached(b, words, at, roll, sections + [s], FOLDS)
    requires !AcceptableAt(sections + [s], |sections|, top, payloadLength)
    ensures ListRefused(b, words, at, top, payloadLength)
  {
    ReachedIs(b, words, at, roll, sections + [s], FOLDS);
    LeadsRefused(b, words, at, roll.open, roll.places, sections, s, top, payloadLength);
  }

  /** The list starts at its bracket, if at all. */
  lemma ReachesFirst(b: seq<Byte>, words: seq<seq<Byte>>, at: nat, open: nat, top: nat, payloadLength: nat)
    requires Blank(b, at, open) && Solid(b, open)
    ensures if open < |b| && b[open] == 0x5b then Reached(b, words, at, Roll(open, []), [], FOLDS)
            else ListRefused(b, words, at, top, payloadLength)
  {
    ListStarts(b, words, at, open);
    if open < |b| && b[open] == 0x5b {
      FirstListed(b, words, open);
      ReachedIs(b, words, at, Roll(open, []), [], FOLDS);
    } else {
      AloneRefused(b, words, at, Roll(open, []), [], top, payloadLength);
    }
  }

  /** No object is at `cursor` where one must be. */
  lemma ReachedCutOff(b: seq<Byte>, words: seq<seq<Byte>>, at: nat, roll: Roll, sections: seq<Section>, cursor: nat,
                      top: nat, payloadLength: nat)
    requires Reached(b, words, at, roll, sections, FOLDS) && ListGoes(b, roll.open, roll.places, cursor)
    requires Solid(b, cursor) && (cursor < |b| ==> b[cursor] != 0x7b)
    ensures ListRefused(b, words, at, top, payloadLength)
  {
    ReachedIs(b, words, at, roll, sections, FOLDS);
    ListCutOff(b, words, at, roll.open, roll.places, sections, cursor);
    AloneRefused(b, words, at, roll, sections, top, payloadLength);
  }

  /** Behind the last object the list ends, or the text is wrong. */
  lemma ReachesEnd(b: seq<Byte>, words: seq<seq<Byte>>, at: nat, roll: Roll, sections: seq<Section>, stop: nat,
                   top: nat, payloadLength: nat)
    requires Reached(b, words, at, roll, sections, FOLDS) && roll.places != []
    requires roll.places[|roll.places| - 1].stop == stop < |b| && b[stop] != 0x2c && Blank(b, at, roll.open)
    ensures if b[stop] == 0x5d
            then ListAlone(b, words, at, true, roll, sections) && SpellsList(b, words, at, roll, sections)
            else ListRefused(b, words, at, top, payloadLength)
  {
    ReachedIs(b, words, at, roll, sections, FOLDS);
    ListLeadsToEnd(b, words, at, roll.open, roll.places, sections);
    if b[stop] != 0x5d { AloneRefused(b, words, at, roll, sections, top, payloadLength); }
  }

  /** Read the object at `cursor` and place its section. */
  method PlaceEntry(p: Process, b: seq<Byte>, words: seq<seq<Byte>>, ghost at: nat, ghost roll: Roll,
                    ghost sections: seq<Section>, cursor: nat, payload: nat, payloadLength: nat, ghost c0: Contents)
    returns (r: Status, stop: nat, ghost place: Place, ghost s: Section)
    requires OnlyFor(c0, p.memory.arena.contents, p.memory.arena.base, p.memory, p.memory.arena.imageTop)
    requires Placing(p, c0.bytes, payload, payloadLength, sections, FOLDS)
    requires p.memory.arena.ImageContains(payload, payloadLength) && |words| == 7
    requires cursor < |b| && Solid(b, cursor) && ListGoes(b, roll.open, roll.places, cursor)
    requires Reached(b, words, at, roll, sections, FOLDS)
    modifies p`segments, p`imageFloor
    modifies p.memory`view, p.memory`pageCount, p.memory.entries, p.memory.arena`next, p.memory.arena`contents,
             p.memory.arena.bytes
    ensures OnlyFor(c0, p.memory.arena.contents, p.memory.arena.base, p.memory, p.memory.arena.imageTop)
    ensures if r == Ok then Placing(p, c0.bytes, payload, payloadLength, sections + [s], FOLDS) else Usable(p, FOLDS)
    ensures r == BadSection ==> ListRefused(b, words, at, p.memory.top, payloadLength)
    ensures r == Ok ==> cursor < stop < |b| && place.stop == stop
    ensures r == Ok ==> Reached(b, words, at, Roll(roll.open, roll.places + [place]), sections + [s], FOLDS)
  {
    PlacingUsable(p, c0.bytes, payload, payloadLength, sections);
    ghost var top := p.memory.top;
    var read, next, ok, found := ReadPlace(b, words, cursor, Before(roll.open, roll.places, |roll.places|));
    stop, place, s := next, found, read;
    ReachesOn(b, words, at, roll, sections, cursor, place, s, ok, top, payloadLength);
    if !ok { return BadSection, stop, place, s; }
    r := PlaceNext(p, read, payload, payloadLength, c0, sections);
    if r == BadSection {
      ReachedRefused(b, words, at, Roll(roll.open, roll.places + [place]), sections, s, top, payloadLength);
    }
  }

  /** Place the sections that the text at `at` lists, one after the other.  The list
      that is spelled here is read; it is refused only when it is not acceptable or
      memory runs out. */
  method LoadList(p: Process, b: seq<Byte>, words: seq<seq<Byte>>, at: nat, payload: nat, payloadLength: nat,
                  ghost c0: Contents)
    returns (r: Status, ghost sections: seq<Section>, ghost roll: Roll)
    requires Placing(p, c0.bytes, payload, payloadLength, [], FOLDS) && c0 == p.memory.arena.contents
    requires p.memory.arena.ImageContains(payload, payloadLength) && |words| == 7 && at <= |b|
    modifies p`segments, p`imageFloor
    modifies p.memory`view, p.memory`pageCount, p.memory.entries, p.memory.arena`next, p.memory.arena`contents,
             p.memory.arena.bytes
    ensures OnlyFor(c0, p.memory.arena.contents, p.memory.arena.base, p.memory, p.memory.arena.imageTop)
    ensures r == Ok ==> SpellsList(b, words, at, roll, sections)
    ensures if r == Ok then Placing(p, c0.bytes, payload, payloadLength, sections, FOLDS) else Usable(p, FOLDS)
    ensures ListAnswered(b, words, at, r, roll, sections, p.memory.top, payloadLength)
  {
    OnlyForNothing(c0, p.memory.arena.base, p.memory, p.memory.arena.imageTop);
    PlacingUsable(p, c0.bytes, payload, payloadLength, []);
    ghost var top := p.memory.top;
    var start := Space(b, at);
    sections, roll := [], Roll(start, []);
    ReachesFirst(b, words, at, start, top, payloadLength);
    if start >= |b| || b[start] != 0x5b { return BadSection, sections, roll; }
    var cursor := Space(b, start + 1);
    if cursor < |b| && b[cursor] == 0x5d {
      ReachedCutOff(b, words, at, roll, sections, cursor, top, payloadLength);
      return BadSection, sections, roll;
    }
    while cursor < |b|
      invariant OnlyFor(c0, p.memory.arena.contents, p.memory.arena.base, p.memory, p.memory.arena.imageTop)
      invariant Placing(p, c0.bytes, payload, payloadLength, sections, FOLDS) && p.memory.top == top
      invariant Reached(b, words, at, roll, sections, FOLDS) && roll.open == start
      invariant ListGoes(b, start, roll.places, cursor) && Solid(b, cursor)
    {
      var stop: nat;
      ghost var place, s;
      r, stop, place, s := PlaceEntry(p, b, words, at, roll, sections, cursor, payload, payloadLength, c0);
      if r != Ok { return; }
      ghost var before := roll.places;
      sections, roll := sections + [s], Roll(start, before + [place]);
      PlacingUsable(p, c0.bytes, payload, payloadLength, sections);
      if b[stop] != 0x2c {
        ReachesEnd(b, words, at, roll, sections, stop, top, payloadLength);
        return if b[stop] == 0x5d then Ok else BadSection, sections, roll;
      }
      cursor := Space(b, stop + 1);
      ListGoesBehind(b, start, before, place, cursor);
    }
    PlacingUsable(p, c0.bytes, payload, payloadLength, sections);
    ReachedCutOff(b, words, at, roll, sections, cursor, top, payloadLength);
    return BadSection, sections, roll;
  }

  // --- the file

  datatype Answer = Fine | BadRange | BadLength | BadMagic | BadChecksum | BadJson | BadMetadata | BadList | NoRoom

  /** A file of `length` bytes at `image`. */
  datatype File = File(bytes: seq<Byte>, image: nat, length: nat)

  /** What the first 16 bytes of a file must say of the rest. */
  ghost predicate Sealed(f: File) {
    match f
    case File(b, image, length) =>
      && 16 <= length && image + length <= |b|
      && b[image] == 0x54 && b[image + 1] == 0x48 && b[image + 2] == 0x58 && b[image + 3] == 0x32
      && length == 16 + VfsImages.Word(b, image + 4) + VfsImages.Word(b, image + 8)
      && VfsImages.Word(b, image + 12) == VfsImages.Fnv(b, image + 16, length - 16)
  }

  /** A sealed file of which any one byte was changed is not sealed any more. */
  lemma ChangeBreaksSeal(f: File, g: File, k: nat)
    requires Sealed(f) && g == File(g.bytes, f.image, f.length) && Checksums.OnlyAt(f.bytes, g.bytes, k)
    requires f.image <= k < f.image + f.length
    ensures !Sealed(g)
  {
    var b, c, image := f.bytes, g.bytes, f.image;
    if k >= image + 12 {
      Checksums.SumBreaks(b, c, image + 12, image + 16, f.length - 16, k);
      WrongSum(g);
    } else if k >= image + 4 {
      LengthsChange(b, c, image, k);
      WrongLengths(g);
    }
  }

  lemma WrongSum(f: File)
    requires 16 <= f.length && f.image + f.length <= |f.bytes|
    requires VfsImages.Word(f.bytes, f.image + 12) != VfsImages.Fnv(f.bytes, f.image + 16, f.length - 16)
    ensures !Sealed(f)
  {
  }

  lemma WrongLengths(f: File)
    requires f.image + 12 <= |f.bytes|
    requires f.length != 16 + VfsImages.Word(f.bytes, f.image + 4) + VfsImages.Word(f.bytes, f.image + 8)
    ensures !Sealed(f)
  {
  }

  lemma LengthsChange(b: seq<Byte>, c: seq<Byte>, image: nat, k: nat)
    requires Checksums.OnlyAt(b, c, k) && image + 4 <= k < image + 12 <= |b|
    ensures VfsImages.Word(b, image + 4) + VfsImages.Word(b, image + 8) !=
            VfsImages.Word(c, image + 4) + VfsImages.Word(c, image + 8)
  {
    if k < image + 8 {
      Checksums.WordChanges(b, c, image + 4, k);
      Checksums.WordStays(b, c, image + 8, k);
    } else {
      Checksums.WordStays(b, c, image + 4, k);
      Checksums.WordChanges(b, c, image + 8, k);
    }
  }

  /** Where the payload of a file starts. */
  ghost function PayloadAt(f: File): (at: nat)
    requires Sealed(f)
    ensures f.image + 16 <= at <= f.image + f.length <= |f.bytes|
  {
    f.image + 16 + VfsImages.Word(f.bytes, f.image + 4)
  }

  /** The header text of a file. */
  ghost function TextOf(f: File): seq<Byte>
    requires Sealed(f)
  {
    VfsImages.Span(f.bytes, f.image + 16, PayloadAt(f) - f.image - 16)
  }

  /** The places of what a header text says. */
  datatype Reading = Reading(lo: nat, hi: nat, ms: seq<Text.Member>, list: nat, roll: Roll)

  /** The text is one object that describes the program, and its section list
      describes the sections. */
  ghost predicate SpellsProgram(b: seq<Byte>, header: Header, sections: seq<Section>, r: Reading) {
    match r
    case Reading(lo, hi, ms, list, roll) =>
      && Blank(b, 0, lo) && Blank(b, hi, |b|)
      && Text.Spelled(b, HEADER_WORDS, lo, hi, ms, Text.Whole(Text.Head(header, list)), 10, Text.FOLDS)
      && SpellsList(b, SECTION_WORDS, list, roll, sections)
  }

  lemma WordLoaded(arena: Arena, at: nat)
    requires arena.Valid() && at + 4 <= |arena.contents.bytes|
    ensures LoadU32(arena, at) == VfsImages.Word(arena.contents.bytes, at)
  {
  }

  /** Read a word of the arena. */
  method ReadWord(arena: Arena, at: nat) returns (n: nat)
    requires arena.Valid() && at + 4 <= |arena.contents.bytes|
    ensures n == VfsImages.Word(arena.contents.bytes, at)
  {
    WordLoaded(arena, at);
    n := LoadU32(arena, at);
  }

  /** Do the first four bytes of a file read THX2? */
  method ReadMagic(arena: Arena, image: nat) returns (ok: bool)
    requires arena.Valid() && image + 16 <= |arena.contents.bytes|
    ensures ok <==> arena.contents.bytes[image] == 0x54 && arena.contents.bytes[image + 1] == 0x48 &&
                    arena.contents.bytes[image + 2] == 0x58 && arena.contents.bytes[image + 3] == 0x32
  {
    var b := arena.bytes;
    ok := b[image] == 0x54 && b[image + 1] == 0x48 && b[image + 2] == 0x58 && b[image + 3] == 0x32;
  }

  method ReadSum(arena: Arena, at: nat, n: nat) returns (sum: nat)
    requires arena.Valid() && at + n <= |arena.contents.bytes|
    ensures sum == VfsImages.Fnv(arena.contents.bytes, at, n)
  {
    sum := VfsLoading.Vfs.HashBytes(arena.bytes, at, n);
  }

  /** Check what the first bytes of a file say of the rest. */
  method CheckSeal(arena: Arena, image: nat, length: nat) returns (r: Answer)
    requires arena.Valid() && image + length <= |arena.contents.bytes|
    ensures r == Fine <==> Sealed(File(arena.contents.bytes, image, length))
    ensures r == Fine || r == BadLength || r == BadMagic || r == BadChecksum
  {
    if length < 16 { return BadLength; }
    var magic := ReadMagic(arena, image);
    if !magic { return BadMagic; }
    var fits := CheckLengths(arena, image, length);
    if !fits { return BadLength; }
    var good := CheckSum(arena, image, length);
    r := if good then Fine else BadChecksum;
  }

  /** Does the checksum match what follows the first 16 bytes? */
  method CheckSum(arena: Arena, image: nat, length: nat) returns (ok: bool)
    requires arena.Valid() && image + length <= |arena.contents.bytes| && 16 <= length
    ensures ok <==> VfsImages.Word(arena.contents.bytes, image + 12) ==
                    VfsImages.Fnv(arena.contents.bytes, image + 16, length - 16)
  {
    var sum := ReadSum(arena, image + 16, length - 16);
    var want := ReadWord(arena, image + 12);
    ok := sum == want;
  }

  /** Do header and payload make up the file? */
  method CheckLengths(arena: Arena, image: nat, length: nat) returns (ok: bool)
    requires arena.Valid() && image + length <= |arena.contents.bytes| && 16 <= length
    ensures ok <==> length == 16 + VfsImages.Word(arena.contents.bytes, image + 4) +
                              VfsImages.Word(arena.contents.bytes, image + 8)
  {
    var headerLength := ReadWord(arena, image + 4);
    var payloadLength := ReadWord(arena, image + 8);
    ok := headerLength <= length - 16 && payloadLength == length - 16 - headerLength;
  }

  const NO_HEADER := Header(0, 0, 0, 0, 0)

  /** Read the header object. */
  method ReadHeader(b: seq<Byte>, words: seq<seq<Byte>>)
    returns (h: Text.Head, r: Answer, ghost lo: nat, ghost hi: nat, ghost ms: seq<Text.Member>)
    requires |words| == 13
    ensures r == Fine || r == BadJson || r == BadMetadata
    ensures r == Fine ==> Blank(b, 0, lo) && Blank(b, hi, |b|) && lo <= hi <= |b| &&
                          Text.Spelled(b, words, lo, hi, ms, Text.Whole(h), 10, Text.FOLDS)
    ensures forall lo': nat, hi': nat, ns: seq<Text.Member>, g: Text.Head
              {:trigger Text.Spelled(b, words, lo', hi', ns, Text.Whole(g), 10, Text.FOLDS)} ::
              Blank(b, 0, lo') && Blank(b, hi', |b|) &&
              Text.Spelled(b, words, lo', hi', ns, Text.Whole(g), 10, Text.FOLDS) ==>
                r == Fine && lo' == lo && hi' == hi && ns == ms && g == h
  {
    h, lo, hi, ms := Text.Head(NO_HEADER, 0), 0, 0, [];
    var cursor := Space(b, 0);
    forall lo': nat, hi': nat, ns: seq<Text.Member>, g: Text.Head
      {:trigger Text.Spelled(b, words, lo', hi', ns, Text.Whole(g), 10, Text.FOLDS)} |
      Blank(b, 0, lo') && Text.Spelled(b, words, lo', hi', ns, Text.Whole(g), 10, Text.FOLDS)
      ensures lo' == cursor < |b| && b[cursor] == 0x7b
    {
      HeaderOpens(b, words, lo', hi', ns, g, cursor);
    }
    if cursor >= |b| || b[cursor] != 0x7b { return h, BadJson, lo, hi, ms; }
    var f, end, e, members := Text.ReadObject(b, words, cursor, Text.Whole(Text.Head(NO_HEADER, 0)), 10);
    if e == Text.Syntax { return h, BadJson, lo, hi, ms; }
    if e == Text.Meaning { return h, BadMetadata, lo, hi, ms; }
    var rest := Space(b, end);
    if rest != |b| { return h, BadMetadata, lo, hi, ms; }
    h, r, lo, hi, ms := f.h, Fine, cursor, end, members;
    forall hi': nat, ns: seq<Text.Member>, g: Text.Head
      {:trigger Text.Spelled(b, words, lo, hi', ns, Text.Whole(g), 10, Text.FOLDS)} |
      Text.Spelled(b, words, lo, hi', ns, Text.Whole(g), 10, Text.FOLDS)
      ensures hi' == hi && ns == ms && g == h
    {
      Text.SameHead(b, words, lo, hi, ms, h, g);
    }
  }

  lemma HeaderOpens(b: seq<Byte>, words: seq<seq<Byte>>, lo: nat, hi: nat, ms: seq<Text.Member>, h: Text.Head,
                    cursor: nat)
    requires Text.Spelled(b, words, lo, hi, ms, Text.Whole(h), 10, Text.FOLDS)
    requires Blank(b, 0, lo) && Blank(b, 0, cursor) && Solid(b, cursor)
    ensures lo == cursor < |b| && b[cursor] == 0x7b
  {
    Text.SpelledMeans(b, words, lo, hi, ms, Text.Whole(h), 10, Text.FOLDS);
    BlankEnds(b, 0, lo, cursor);
  }

  function AnswerOf(s: Status): Answer {
    match s
    case Ok => Fine
    case BadSection => BadList
    case BadMemory => NoRoom
  }

  /** The header says where its section list is. */
  lemma ListInText(b: seq<Byte>, words: seq<seq<Byte>>, lo: nat, hi: nat, ms: seq<Text.Member>, h: Text.Head,
                   folds: nat)
    requires Text.Spelled(b, words, lo, hi, ms, Text.Whole(h), 10, folds)
    ensures h.list <= |b|
  {
    if folds > 0 {
      ListInText(b, words, lo, hi, ms, h, folds - 1);
    } else {
      assert Text.HasKey(b, words, ms, 2);
      var i :| 0 <= i < |ms| && Text.KeyOf(b, words, ms[i]) == 2;
      assert Text.Says(b, 2, ms[i].value, ms[i].end, Text.Whole(h));
    }
  }

  lemma AllAcceptable(p: Process, bytes: seq<Byte>, payload: nat, payloadLength: nat, sections: seq<Section>)
    requires Placing(p, bytes, payload, payloadLength, sections, FOLDS) && sections != []
    ensures Acceptable(sections, p.memory.top, payloadLength)
  {
    PlacingUnfold(p, bytes, payload, payloadLength, sections, FOLDS);
  }

  lemma PlacingLoading(p: Process, bytes: seq<Byte>, payload: nat, payloadLength: nat, sections: seq<Section>)
    requires Placing(p, bytes, payload, payloadLength, sections, FOLDS)
    ensures Loading(p, Payloads(bytes, payload, sections, |sections|))
    ensures p.segments == Placements(sections, |sections|)
  {
    PlacingUnfold(p, bytes, payload, payloadLength, sections, FOLDS);
  }

  /** With its sections placed, the program is finished. */
  method Finish(p: Process, header: Header, ghost sections: seq<Section>, ghost data: seq<seq<Byte>>)
    returns (r: Status)
    requires Loading(p, data) && p.segments == Placements(sections, |sections|)
    requires p.memory.top == header.virtualTop && p.entry == header.entry
    modifies p`brkBase, p`brk
    ensures r == Ok ==> Resting(p, header, sections, data, FOLDS)
    ensures r == if Entered(Placements(sections, |sections|), header.entry) then Ok else BadSection
  {
    Images.Open(p, data, FOLDS);
    r := ImageFinish(p, data);
    if r == Ok { LoadedMeans(p, header, sections, data, FOLDS); }
  }

  /** These sections can be loaded and entered. */
  ghost predicate Enterable(header: Header, sections: seq<Section>, payloadLength: nat) {
    Acceptable(sections, header.virtualTop, payloadLength) &&
    Entered(Placements(sections, |sections|), header.entry)
  }

  /** What the answer says of sections that are spelled where the header says. */
  ghost predicate BodyAnswered(text: seq<Byte>, h: Text.Head, r: Status, sections: seq<Section>, roll: Roll,
                               payloadLength: nat) {
    forall other: Roll, ts: seq<Section> {:trigger SpellsList(text, SECTION_WORDS, h.list, other, ts)} ::
      SpellsList(text, SECTION_WORDS, h.list, other, ts) ==>
        && (r == Ok ==> other == roll && ts == sections && Enterable(h.header, ts, payloadLength))
        && (r == BadSection ==> !Enterable(h.header, ts, payloadLength))
  }

  /** Once the list is placed, entering decides. */
  lemma ListMeans(text: seq<Byte>, h: Text.Head, r: Status, sections: seq<Section>, roll: Roll, payloadLength: nat)
    requires ListAnswered(text, SECTION_WORDS, h.list, r, roll, sections, h.header.virtualTop, payloadLength)
    ensures r != Ok ==> BodyAnswered(text, h, r, sections, roll, payloadLength)
    ensures r == Ok && Acceptable(sections, h.header.virtualTop, payloadLength) ==>
              BodyAnswered(text, h, if Entered(Placements(sections, |sections|), h.header.entry) then Ok
                                    else BadSection, sections, roll, payloadLength)
  {
  }

  /** Load the sections and finish the program. */
  method LoadBody(p: Process, text: seq<Byte>, h: Text.Head, payload: nat, payloadLength: nat, ghost c0: Contents)
    returns (r: Status, ghost sections: seq<Section>, ghost roll: Roll)
    requires Placing(p, c0.bytes, payload, payloadLength, [], FOLDS) && c0 == p.memory.arena.contents
    requires p.memory.top == h.header.virtualTop && p.entry == h.header.entry
    requires p.memory.arena.ImageContains(payload, payloadLength) && h.list <= |text|
    modifies p`segments, p`imageFloor, p`brkBase, p`brk
    modifies p.memory`view, p.memory`pageCount, p.memory.entries, p.memory.arena`next, p.memory.arena`contents,
             p.memory.arena.bytes
    ensures OnlyFor(c0, p.memory.arena.contents, p.memory.arena.base, p.memory, p.memory.arena.imageTop)
    ensures r == Ok ==> SpellsList(text, SECTION_WORDS, h.list, roll, sections)
    ensures r == Ok ==> Acceptable(sections, h.header.virtualTop, payloadLength)
    ensures r == Ok ==> Resting(p, h.header, sections, Payloads(c0.bytes, payload, sections, |sections|), FOLDS)
    ensures BodyAnswered(text, h, r, sections, roll, payloadLength)
  {
    r, sections, roll := LoadList(p, text, SECTION_WORDS, h.list, payload, payloadLength, c0);
    ListMeans(text, h, r, sections, roll, payloadLength);
    if r != Ok { return; }
    ListNotEmpty(text, SECTION_WORDS, h.list, roll, sections);
    AllAcceptable(p, c0.bytes, payload, payloadLength, sections);
    PlacingLoading(p, c0.bytes, payload, payloadLength, sections);
    r := Finish(p, h.header, sections, Payloads(c0.bytes, payload, sections, |sections|));
  }

  lemma ListNotEmpty(b: seq<Byte>, words: seq<seq<Byte>>, at: nat, roll: Roll, sections: seq<Section>)
    requires SpellsList(b, words, at, roll, sections)
    ensures sections != []
  {
  }

  lemma TextSpells(b: seq<Byte>, h: Text.Head, sections: seq<Section>, lo: nat, hi: nat, ms: seq<Text.Member>,
                   roll: Roll)
    requires Blank(b, 0, lo) && Blank(b, hi, |b|) && SpellsList(b, SECTION_WORDS, h.list, roll, sections)
    requires Text.Spelled(b, HEADER_WORDS, lo, hi, ms, Text.Whole(h), 10, Text.FOLDS)
    ensures SpellsProgram(b, h.header, sections, Reading(lo, hi, ms, h.list, roll))
  {
  }

  /** A program that can be loaded, if there is memory for it. */
  ghost predicate Runnable(header: Header, sections: seq<Section>, payloadLength: nat) {
    Beginnable(header) && Enterable(header, sections, payloadLength)
  }

  predicate Beginnable(header: Header) {
    0x100000 <= header.virtualTop < SPACE && 0x10000 <= header.entry < header.virtualTop &&
    header.phdr < header.virtualTop
  }

  /** What the answer says of a program that the text spells: it is the one that is
      loaded, and when it is runnable only memory can be missing. */
  ghost predicate ProgramAnswered(text: seq<Byte>, r: Answer, header: Header, sections: seq<Section>,
                                  reading: Reading, payloadLength: nat) {
    forall h: Header, ts: seq<Section>, g: Reading {:trigger SpellsProgram(text, h, ts, g)} ::
      SpellsProgram(text, h, ts, g) ==>
        && (r == Fine || r == BadList || r == NoRoom)
        && (r == Fine ==> h == header && ts == sections && g == reading && Runnable(h, ts, payloadLength))
        && (Runnable(h, ts, payloadLength) ==> r == Fine || r == NoRoom)
  }

  /** Without a header there is no program. */
  lemma NoProgram(text: seq<Byte>, r: Answer, header: Header, sections: seq<Section>, reading: Reading,
                  payloadLength: nat)
    requires forall lo: nat, hi: nat, ms: seq<Text.Member>, h: Text.Head
               {:trigger Text.Spelled(text, HEADER_WORDS, lo, hi, ms, Text.Whole(h), 10, Text.FOLDS)} ::
               Blank(text, 0, lo) && Blank(text, hi, |text|) ==>
                 !Text.Spelled(text, HEADER_WORDS, lo, hi, ms, Text.Whole(h), 10, Text.FOLDS)
    ensures ProgramAnswered(text, r, header, sections, reading, payloadLength)
  {
    forall h: Header, ts: seq<Section>, g: Reading {:trigger SpellsProgram(text, h, ts, g)}
      ensures !SpellsProgram(text, h, ts, g)
    {
      var spelled := Text.Spelled(text, HEADER_WORDS, g.lo, g.hi, g.ms, Text.Whole(Text.Head(h, g.list)), 10,
                                  Text.FOLDS);
    }
  }

  /** Every program that the text spells has this header. */
  ghost predicate HeaderIs(text: seq<Byte>, lo: nat, hi: nat, ms: seq<Text.Member>, h: Text.Head) {
    forall k: Header, ts: seq<Section>, g: Reading {:trigger SpellsProgram(text, k, ts, g)} ::
      SpellsProgram(text, k, ts, g) ==>
        && k == h.header && g.lo == lo && g.hi == hi && g.ms == ms && g.list == h.list
        && SpellsList(text, SECTION_WORDS, h.list, g.roll, ts)
  }

  lemma OneHeader(text: seq<Byte>, lo: nat, hi: nat, ms: seq<Text.Member>, h: Text.Head)
    requires forall lo': nat, hi': nat, ns: seq<Text.Member>, g: Text.Head
               {:trigger Text.Spelled(text, HEADER_WORDS, lo', hi', ns, Text.Whole(g), 10, Text.FOLDS)} ::
               Blank(text, 0, lo') && Blank(text, hi', |text|) &&
               Text.Spelled(text, HEADER_WORDS, lo', hi', ns, Text.Whole(g), 10, Text.FOLDS) ==>
                 lo' == lo && hi' == hi && ns == ms && g == h
    ensures HeaderIs(text, lo, hi, ms, h)
  {
    forall k: Header, ts: seq<Section>, g: Reading {:trigger SpellsProgram(text, k, ts, g)} |
      SpellsProgram(text, k, ts, g)
      ensures k == h.header && g.lo == lo && g.hi == hi && g.ms == ms && g.list == h.list
      ensures SpellsList(text, SECTION_WORDS, h.list, g.roll, ts)
    {
      assert Text.Spelled(text, HEADER_WORDS, g.lo, g.hi, g.ms, Text.Whole(Text.Head(k, g.list)), 10, Text.FOLDS);
    }
  }

  lemma NotBegun(text: seq<Byte>, lo: nat, hi: nat, ms: seq<Text.Member>, h: Text.Head, header: Header,
                 sections: seq<Section>, reading: Reading, payloadLength: nat)
    requires HeaderIs(text, lo, hi, ms, h) && !Beginnable(h.header)
    ensures ProgramAnswered(text, NoRoom, header, sections, reading, payloadLength)
  {
  }

  lemma BodyDecides(text: seq<Byte>, lo: nat, hi: nat, ms: seq<Text.Member>, h: Text.Head, r: Status,
                    sections: seq<Section>, roll: Roll, payloadLength: nat, reading: Reading)
    requires HeaderIs(text, lo, hi, ms, h) && Beginnable(h.header)
    requires BodyAnswered(text, h, r, sections, roll, payloadLength)
    requires r == Ok ==> reading == Reading(lo, hi, ms, h.list, roll)
    ensures ProgramAnswered(text, AnswerOf(r), h.header, sections, reading, payloadLength)
  {
    forall k: Header, ts: seq<Section>, g: Reading {:trigger SpellsProgram(text, k, ts, g)} |
      SpellsProgram(text, k, ts, g)
      ensures r == Ok ==> k == h.header && ts == sections && g == reading && Runnable(k, ts, payloadLength)
      ensures Runnable(k, ts, payloadLength) ==> r != BadSection
    {
      assert SpellsList(text, SECTION_WORDS, h.list, g.roll, ts);
    }
  }

  /** Past the seal, only these answers are left. */
  predicate PastSeal(r: Answer) {
    r == Fine || r == BadJson || r == BadMetadata || r == BadList || r == NoRoom
  }

  /** Load the program that the header text describes. */
  method LoadText(p: Process, text: seq<Byte>, payload: nat, payloadLength: nat, ghost c0: Contents)
    returns (r: Answer, ghost header: Header, ghost sections: seq<Section>, ghost reading: Reading)
    requires Usable(p, FOLDS) && p.memory.arena.ImageContains(payload, payloadLength)
    requires c0 == p.memory.arena.contents
    modifies p, p.table`count, p.table`list, p.table.maps
    modifies p.memory, p.memory.entries, p.memory.arena`next, p.memory.arena`contents, p.memory.arena.bytes
    ensures OnlyFor(c0, p.memory.arena.contents, p.memory.arena.base, p.memory, p.memory.arena.imageTop)
    ensures PastSeal(r)
    ensures r == Fine ==> SpellsProgram(text, header, sections, reading)
    ensures r == Fine ==> Acceptable(sections, header.virtualTop, payloadLength)
    ensures r == Fine ==> Resting(p, header, sections, Payloads(c0.bytes, payload, sections, |sections|), FOLDS)
    ensures ProgramAnswered(text, r, header, sections, reading, payloadLength)
  {
    UsableIs(p, FOLDS);
    OnlyForNothing(c0, p.memory.arena.base, p.memory, p.memory.arena.imageTop);
    sections, reading := [], Reading(0, 0, [], 0, Roll(0, []));
    var h, answer, lo, hi, ms := ReadHeader(text, HEADER_WORDS);
    header := h.header;
    if answer != Fine {
      NoProgram(text, answer, header, sections, reading, payloadLength);
      return answer, header, sections, reading;
    }
    OneHeader(text, lo, hi, ms, h);
    var status := ImageBegin(p, h.header.virtualTop, h.header.entry, h.header.phdr, h.header.phent, h.header.phnum);
    if status != Ok {
      NotBegun(text, lo, hi, ms, h, header, sections, reading, payloadLength);
      return AnswerOf(status), header, sections, reading;
    }
    ListInText(text, HEADER_WORDS, lo, hi, ms, h, Text.FOLDS);
    PlacingFold(p, c0.bytes, payload, payloadLength, [], FOLDS);
    ghost var roll;
    status, sections, roll := LoadBody(p, text, h, payload, payloadLength, c0);
    if status == Ok {
      TextSpells(text, h, sections, lo, hi, ms, roll);
      reading := Reading(lo, hi, ms, h.list, roll);
    }
    BodyDecides(text, lo, hi, ms, h, status, sections, roll, payloadLength, reading);
    r := AnswerOf(status);
  }

  /** The program that the file describes is loaded: its sections are acceptable
      and lie in memory with their payloads. */
  ghost predicate Delivered(p: Process, f: File, header: Header, sections: seq<Section>, reading: Reading)
    requires Sealed(f)
    reads p, p.memory, p.memory.entries, p.memory.arena, p.memory.arena.bytes, p.table, p.table.maps
  {
    match f
    case File(b, image, length) =>
      && SpellsProgram(TextOf(f), header, sections, reading)
      && Acceptable(sections, header.virtualTop, image + length - PayloadAt(f))
      && Resting(p, header, sections, Payloads(b, PayloadAt(f), sections, |sections|), FOLDS)
  }

  lemma Delivers(p: Process, f: File, header: Header, sections: seq<Section>, reading: Reading, text: seq<Byte>,
                 payload: nat, payloadLength: nat, bytes: seq<Byte>)
    requires Sealed(f) && text == TextOf(f) && payload == PayloadAt(f) && bytes == f.bytes
    requires payloadLength == f.image + f.length - payload && SpellsProgram(text, header, sections, reading)
    requires Acceptable(sections, header.virtualTop, payloadLength)
    requires Resting(p, header, sections, Payloads(bytes, payload, sections, |sections|), FOLDS)
    ensures Delivered(p, f, header, sections, reading)
  {
  }

  lemma SliceIsSpan(b: seq<Byte>, low: nat, high: nat)
    requires low <= high <= |b|
    ensures b[low..high] == VfsImages.Span(b, low, high - low)
  {
  }

  /** Bytes of the arena, as a span. */
  method Slice(arena: Arena, low: nat, high: nat) returns (text: seq<Byte>)
    requires arena.Valid() && low <= high <= |arena.contents.bytes|
    ensures text == VfsImages.Span(arena.contents.bytes, low, high - low)
  {
    text := arena.bytes[low..high];
    SliceIsSpan(arena.contents.bytes, low, high);
  }

  /** The header text and the payload of a sealed file. */
  method Parts(p: Process, ghost f: File, image: nat, length: nat)
    returns (text: seq<Byte>, payload: nat, payloadLength: nat)
    requires Usable(p, FOLDS) && Sealed(f) && f == File(p.memory.arena.contents.bytes, image, length)
    ensures text == TextOf(f) && payload == PayloadAt(f) && payloadLength == image + length - payload
    ensures image <= payload && payload + payloadLength == image + length
  {
    UsableIs(p, FOLDS);
    var headerLength := ReadWord(p.memory.arena, image + 4);
    payload := image + 16 + headerLength;
    text := Slice(p.memory.arena, image + 16, payload);
    payloadLength := image + length - payload;
  }

  /** What the answer says of a file: past the seal it is sealed, a program that is
      loaded is the one in the file, and a runnable program in a sealed file is
      loaded or memory runs out. */
  ghost predicate FileAnswered(p: Process, f: File, r: Answer, header: Header, sections: seq<Section>,
                               reading: Reading)
    reads p, p.memory, p.memory.entries, p.memory.arena, p.memory.arena.bytes, p.table, p.table.maps
  {
    && (PastSeal(r) <==> Sealed(f))
    && (r == Fine ==> Delivered(p, f, header, sections, reading))
    && (Sealed(f) ==> ProgramAnswered(TextOf(f), r, header, sections, reading, f.image + f.length - PayloadAt(f)))
  }

  lemma SealedAnswers(p: Process, f: File, r: Answer, header: Header, sections: seq<Section>, reading: Reading,
                      text: seq<Byte>, payloadLength: nat)
    requires Sealed(f) && text == TextOf(f) && payloadLength == f.image + f.length - PayloadAt(f) && PastSeal(r)
    requires ProgramAnswered(text, r, header, sections, reading, payloadLength)
    requires r == Fine ==> Delivered(p, f, header, sections, reading)
    ensures FileAnswered(p, f, r, header, sections, reading)
  {
  }

  lemma Unsealed(p: Process, f: File, r: Answer, header: Header, sections: seq<Section>, reading: Reading)
    requires !Sealed(f) && !PastSeal(r)
    ensures FileAnswered(p, f, r, header, sections, reading)
  {
  }

  method LoadSealed(p: Process, ghost f: File, image: nat, length: nat)
    returns (r: Answer, ghost header: Header, ghost sections: seq<Section>, ghost reading: Reading)
    requires Usable(p, FOLDS) && p.memory.arena.ImageContains(image, length)
    requires Sealed(f) && f == File(p.memory.arena.contents.bytes, image, length)
    modifies p, p.table`count, p.table`list, p.table.maps
    modifies p.memory, p.memory.entries, p.memory.arena`next, p.memory.arena`contents, p.memory.arena.bytes
    ensures OnlyFor(old(p.memory.arena.contents), p.memory.arena.contents, p.memory.arena.base, p.memory,
                    p.memory.arena.imageTop)
    ensures PastSeal(r) && FileAnswered(p, f, r, header, sections, reading)
  {
    ghost var c0 := p.memory.arena.contents;
    var text, payload, payloadLength := Parts(p, f, image, length);
    r, header, sections, reading := LoadText(p, text, payload, payloadLength, c0);
    if r == Fine { Delivers(p, f, header, sections, reading, text, payload, payloadLength, c0.bytes); }
    SealedAnswers(p, f, r, header, sections, reading, text, payloadLength);
  }

  method SealOf(p: Process, ghost f: File, image: nat, length: nat) returns (r: Answer)
    requires Usable(p, FOLDS) && p.memory.arena.ImageContains(image, length)
    requires f == File(p.memory.arena.contents.bytes, image, length)
    ensures (r == Fine <==> Sealed(f)) && r != BadRange && (PastSeal(r) ==> r == Fine)
  {
    UsableIs(p, FOLDS);
    r := CheckSeal(p.memory.arena, image, length);
  }

  /** Load a file of the image reservation. */
  method LoadContained(p: Process, ghost f: File, image: nat, length: nat)
    returns (r: Answer, ghost header: Header, ghost sections: seq<Section>, ghost reading: Reading)
    requires Usable(p, FOLDS) && p.memory.arena.ImageContains(image, length)
    requires f == File(p.memory.arena.contents.bytes, image, length)
    modifies p, p.table`count, p.table`list, p.table.maps
    modifies p.memory, p.memory.entries, p.memory.arena`next, p.memory.arena`contents, p.memory.arena.bytes
    ensures OnlyFor(old(p.memory.arena.contents), p.memory.arena.contents, p.memory.arena.base, p.memory,
                    p.memory.arena.imageTop)
    ensures r != BadRange && FileAnswered(p, f, r, header, sections, reading)
  {
    OnlyForNothing(p.memory.arena.contents, p.memory.arena.base, p.memory, p.memory.arena.imageTop);
    header, sections, reading := NO_HEADER, [], Reading(0, 0, [], 0, Roll(0, []));
    r := SealOf(p, f, image, length);
    if r == Fine {
      r, header, sections, reading := LoadSealed(p, f, image, length);
    } else {
      Unsealed(p, f, r, header, sections, reading);
    }
  }

  /** Load a file from the image reservation into the process.  A sealed file whose
      text spells a runnable program is loaded, or memory runs out. */
  method LoadThx(p: Process, image: nat, length: nat)
    returns (r: Answer, ghost header: Header, ghost sections: seq<Section>, ghost reading: Reading)
    requires p.Ready()
    modifies p, p.table`count, p.table`list, p.table.maps
    modifies p.memory, p.memory.entries, p.memory.arena`next, p.memory.arena`contents, p.memory.arena.bytes
    ensures OnlyFor(old(p.memory.arena.contents), p.memory.arena.contents, p.memory.arena.base, p.memory,
                    p.memory.arena.imageTop)
    ensures r == BadRange <==> !old(p.memory.arena.ImageContains(image, length))
    ensures r != BadRange ==>
            FileAnswered(p, File(old(p.memory.arena.contents).bytes, image, length), r, header, sections, reading)
  {
    header, sections, reading := NO_HEADER, [], Reading(0, 0, [], 0, Roll(0, []));
    if !p.memory.arena.ImageContains(image, length) {
      OnlyForNothing(p.memory.arena.contents, p.memory.arena.base, p.memory, p.memory.arena.imageTop);
      return BadRange, header, sections, reading;
    }
    UsableIs(p, FOLDS);
    r, header, sections, reading := LoadContained(p, File(p.memory.arena.contents.bytes, image, length), image, length);
  }
}
