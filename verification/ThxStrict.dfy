/** The objects that the loader reads and the objects of RFC 8259: they differ in
    the comma that the loader allows before the closing bracket, and in no more. */
module ThxStrict {
  import opened Frames
  import opened Json
  import opened ThxText

  /** A comma stands before the closing bracket. */
  predicate Trailing(b: seq<Byte>, ms: seq<Member>) {
    ms != [] && ms[|ms| - 1].stop < |b| && b[ms[|ms| - 1].stop] == 0x2c
  }

  /** The values of the members are JSON values. */
  ghost predicate Values(b: seq<Byte>, ms: seq<Member>, limit: nat) {
    forall i {:trigger ms[i]} :: 0 <= i < |ms| ==> ValueAfter(b, ms[i].value, ms[i].end, limit)
  }

  // --- without the comma the object is strict

  /** Where the parts between the brackets are cut. */
  function Cuts(lo: nat, ms: seq<Member>): (r: seq<nat>)
    ensures |r| == |ms| + 1
  {
    if ms == [] then [lo + 1] else Cuts(lo, ms[..|ms| - 1]) + [ms[|ms| - 1].stop + 1]
  }

  lemma {:induction false} CutAt(lo: nat, ms: seq<Member>, i: nat)
    requires i <= |ms|
    ensures Cuts(lo, ms)[i] == Behind(lo, ms, i)
  {
    if i < |ms| {
      CutAt(lo, ms[..|ms| - 1], i);
      assert i > 0 ==> ms[..|ms| - 1][i - 1] == ms[i - 1];
    }
  }

  lemma ItemBehind(b: seq<Byte>, m: Member, limit: nat)
    requires MemberStands(b, m) && ValueAfter(b, m.value, m.end, limit)
    ensures ItemSpan(b, m.colon + 1, m.stop, limit)
  {
    ValueStarts(b, m.value, m.value, m.end, limit);
  }

  lemma MemberIsPart(b: seq<Byte>, from: nat, m: Member, limit: nat)
    requires MemberStands(b, m) && Blank(b, from, m.key) && ValueAfter(b, m.value, m.end, limit)
    ensures from < m.stop && PartSpan(b, from, m.stop, limit, true)
  {
    ItemBehind(b, m, limit);
  }

  lemma StrictPart(b: seq<Byte>, lo: nat, ms: seq<Member>, limit: nat, i: nat)
    requires Chain(b, lo, ms) && Values(b, ms, limit) && i < |ms|
    ensures Behind(lo, ms, i) <= ms[i].stop < |b| && PartSpan(b, Behind(lo, ms, i), ms[i].stop, limit, true)
    ensures i + 1 < |ms| ==> b[ms[i].stop] == 0x2c
  {
    ChainOne(b, lo, ms, i);
    assert ValueAfter(b, ms[i].value, ms[i].end, limit);
    MemberIsPart(b, Behind(lo, ms, i), ms[i], limit);
  }

  lemma {:induction false} BehindAbove(b: seq<Byte>, lo: nat, ms: seq<Member>, i: nat)
    requires Chain(b, lo, ms) && i <= |ms|
    ensures lo < Behind(lo, ms, i)
  {
    if i > 0 {
      BehindAbove(b, lo, ms, i - 1);
      ChainOne(b, lo, ms, i - 1);
      Quoted(b, ms[i - 1]);
    }
  }

  lemma CutPart(b: seq<Byte>, lo: nat, ms: seq<Member>, limit: nat, i: nat, cuts: seq<nat>)
    requires Chain(b, lo, ms) && Values(b, ms, limit) && i < |ms| && |cuts| == |ms| + 1
    requires ms[|ms| - 1].stop < |b| && b[ms[|ms| - 1].stop] == 0x7d
    requires cuts[i] == Behind(lo, ms, i) && cuts[i + 1] == ms[i].stop + 1
    ensures Ends(b, cuts, i, true)
    ensures PartSpan(b, cuts[i], cuts[i + 1] - 1, limit, true)
  {
    StrictPart(b, lo, ms, limit, i);
  }

  lemma PartsAre(b: seq<Byte>, lo: nat, hi: nat, cuts: seq<nat>, limit: nat, keyed: bool)
    requires limit > 0 && |cuts| >= 2 && cuts[0] == lo && cuts[|cuts| - 1] == hi
    requires forall i :: 0 <= i < |cuts| - 1 ==>
               Ends(b, cuts, i, keyed) && PartSpan(b, cuts[i], cuts[i + 1] - 1, limit - 1, keyed)
    ensures Parts(b, lo, hi, cuts, limit, keyed)
  {
  }

  /** Every part is well cut. */
  lemma StrictParts(b: seq<Byte>, lo: nat, hi: nat, ms: seq<Member>, limit: nat)
    requires limit > 0 && Chain(b, lo, ms) && Values(b, ms, limit - 1) && ms != []
    requires ms[|ms| - 1].stop < |b| && b[ms[|ms| - 1].stop] == 0x7d && hi == ms[|ms| - 1].stop + 1
    ensures Parts(b, lo + 1, hi, Cuts(lo, ms), limit, true)
  {
    var cuts := Cuts(lo, ms);
    CutAt(lo, ms, 0);
    CutAt(lo, ms, |ms|);
    forall i | 0 <= i < |cuts| - 1
      ensures Ends(b, cuts, i, true) && PartSpan(b, cuts[i], cuts[i + 1] - 1, limit - 1, true)
    {
      CutAt(lo, ms, i);
      CutAt(lo, ms, i + 1);
      CutPart(b, lo, ms, limit - 1, i, cuts);
    }
    PartsAre(b, lo + 1, hi, cuts, limit, true);
  }

  /** The bracket comes right behind the last member. */
  lemma EndedWithout(b: seq<Byte>, lo: nat, hi: nat, ms: seq<Member>)
    requires Ended(b, lo, hi, ms) && !Trailing(b, ms)
    ensures 0 < hi <= |b| && b[hi - 1] == 0x7d
    ensures if ms == [] then Blank(b, lo + 1, hi - 1) else hi == ms[|ms| - 1].stop + 1
  {
  }

  lemma StrictWithout(b: seq<Byte>, lo: nat, hi: nat, ms: seq<Member>, limit: nat)
    requires Fields(b, lo, hi, ms) && Values(b, ms, limit) && !Trailing(b, ms)
    ensures GroupSpan(b, lo, hi, limit + 1, true)
  {
    EndedWithout(b, lo, hi, ms);
    if ms != [] {
      BehindAbove(b, lo, ms, |ms| - 1);
      StrictPart(b, lo, ms, limit, |ms| - 1);
      StrictParts(b, lo, hi, ms, limit + 1);
      CutAt(lo, ms, |ms|);
      var cuts := Cuts(lo, ms);
      assert cuts[|cuts| - 1] == hi;
    }
  }

  // --- a strict object has no comma before its bracket

  /** The last byte of a value is neither whitespace nor a comma. */
  lemma LastByte(b: seq<Byte>, lo: nat, hi: nat, limit: nat)
    requires ValueSpan(b, lo, hi, limit)
    ensures lo < hi <= |b| && !Whitespace(b[hi - 1]) && b[hi - 1] != 0x2c
  {
    FirstByte(b, lo, hi, limit);
    if WordSpan(b, lo, hi) {
      assert b[lo..hi][hi - lo - 1] == b[hi - 1];
    } else if NumberSpan(b, lo, hi) {
      var p, q :| 0 <= p && 0 <= q && NumberParts(b, lo, p, q, hi);
      NumberEnds(b, lo, p, q, hi);
    } else if GroupSpan(b, lo, hi, limit, false) {
      assert b[hi - 1] == Closing(false);
    } else if GroupSpan(b, lo, hi, limit, true) {
      assert b[hi - 1] == Closing(true);
    }
  }

  lemma NumberEnds(b: seq<Byte>, lo: nat, p: nat, q: nat, hi: nat)
    requires NumberParts(b, lo, p, q, hi)
    ensures 0 < hi <= |b| && Digit(b[hi - 1])
  {
  }

  /** No comma is followed by whitespace alone up to the end of an item. */
  lemma ItemEnds(b: seq<Byte>, lo: nat, hi: nat, limit: nat, comma: nat)
    requires ItemSpan(b, lo, hi, limit) && comma < hi && Blank(b, comma + 1, hi)
    ensures b[comma] != 0x2c
  {
    var p, q :| 0 <= p && 0 <= q && Blank(b, lo, p) && ValueSpan(b, p, q, limit) && Blank(b, q, hi);
    LastByte(b, p, q, limit);
    assert comma >= q ==> Whitespace(b[comma]);
  }

  lemma MemberEnds(b: seq<Byte>, lo: nat, hi: nat, limit: nat, comma: nat)
    requires MemberSpan(b, lo, hi, limit) && comma < hi && Blank(b, comma + 1, hi)
    ensures b[comma] != 0x2c
  {
    var p, q, c :| 0 <= p && 0 <= q && 0 <= c && Blank(b, lo, p) && StringSpan(b, p, q) && Blank(b, q, c) &&
      c < |b| && b[c] == 0x3a && ItemSpan(b, c + 1, hi, limit);
    ItemEnds(b, c + 1, hi, limit, comma);
  }

  /** The comma stands inside the object, with whitespace alone behind it. */
  lemma CommaInside(b: seq<Byte>, lo: nat, hi: nat, ms: seq<Member>)
    requires Fields(b, lo, hi, ms) && Trailing(b, ms)
    ensures var comma := ms[|ms| - 1].stop; lo < comma < hi - 1 < |b| && Blank(b, comma + 1, hi - 1)
  {
    var n := |ms| - 1;
    BehindAbove(b, lo, ms, n);
    ChainOne(b, lo, ms, n);
    Quoted(b, ms[n]);
    BlankBehind(b, lo, hi, ms);
  }

  lemma BlankBehind(b: seq<Byte>, lo: nat, hi: nat, ms: seq<Member>)
    requires Ended(b, lo, hi, ms) && Trailing(b, ms)
    ensures hi <= |b| && Blank(b, ms[|ms| - 1].stop + 1, hi - 1)
  {
  }

  lemma NoGroup(b: seq<Byte>, lo: nat, hi: nat, limit: nat, comma: nat)
    requires lo < comma < hi - 1 < |b| && Blank(b, comma + 1, hi - 1) && b[comma] == 0x2c
    ensures !GroupSpan(b, lo, hi, limit, true)
  {
    if PartsSpan(b, lo + 1, hi, limit, true) {
      var cuts := SomeParts(b, lo + 1, hi, limit, true);
      LastPart(b, lo + 1, hi, cuts, limit, comma);
    }
  }

  lemma LastPart(b: seq<Byte>, lo: nat, hi: nat, cuts: seq<nat>, limit: nat, comma: nat)
    requires Parts(b, lo, hi, cuts, limit, true) && comma < hi - 1 < |b| && Blank(b, comma + 1, hi - 1)
    ensures b[comma] != 0x2c
  {
    var last := |cuts| - 2;
    assert Ends(b, cuts, last, true);
    MemberEnds(b, cuts[last], hi - 1, limit - 1, comma);
  }

  lemma NotStrict(b: seq<Byte>, lo: nat, hi: nat, ms: seq<Member>, limit: nat)
    requires Fields(b, lo, hi, ms) && Trailing(b, ms)
    ensures !GroupSpan(b, lo, hi, limit, true)
  {
    CommaInside(b, lo, hi, ms);
    NoGroup(b, lo, hi, limit, ms[|ms| - 1].stop);
  }

  /** An object of the loader whose values are JSON is a JSON object exactly when no
      comma stands before its bracket. */
  lemma StrictExactly(b: seq<Byte>, lo: nat, hi: nat, ms: seq<Member>, limit: nat)
    requires Fields(b, lo, hi, ms) && Values(b, ms, limit)
    ensures GroupSpan(b, lo, hi, limit + 1, true) <==> !Trailing(b, ms)
  {
    if Trailing(b, ms) {
      NotStrict(b, lo, hi, ms, limit + 1);
    } else {
      StrictWithout(b, lo, hi, ms, limit);
    }
  }

  // --- what the loader accepts

  lemma SaysValue(b: seq<Byte>, key: nat, lo: nat, hi: nat, f: Facts)
    requires Says(b, key, lo, hi, f)
    ensures ValueAfter(b, lo, hi, MAX_DEPTH)
  {
    if IntegerSpan(b, lo, hi) {
      assert b[lo] != 0x2d && NumberParts(b, lo, hi, hi, hi);
      assert Blank(b, lo, lo) && ValueSpan(b, lo, hi, MAX_DEPTH);
    } else if StringSpan(b, lo, hi) {
      assert Blank(b, lo, lo) && ValueSpan(b, lo, hi, MAX_DEPTH);
    }
  }

  /** A header or section object that the loader reads is a JSON object exactly when
      no comma stands before its bracket. */
  lemma SpelledStrict(b: seq<Byte>, words: seq<seq<Byte>>, lo: nat, hi: nat, ms: seq<Member>, f: Facts, needed: nat)
    requires Spelled(b, words, lo, hi, ms, f, needed, FOLDS)
    ensures GroupSpan(b, lo, hi, MAX_DEPTH + 1, true) <==> !Trailing(b, ms)
  {
    SpelledMeans(b, words, lo, hi, ms, f, needed, FOLDS);
    forall i {:trigger ms[i]} | 0 <= i < |ms| ensures ValueAfter(b, ms[i].value, ms[i].end, MAX_DEPTH) {
      SaysValue(b, KeyOf(b, words, ms[i]), ms[i].value, ms[i].end, f);
    }
    StrictExactly(b, lo, hi, ms, MAX_DEPTH);
  }

  // {"a":0,}
  const COMMA: seq<Byte> := [0x7b, 0x22, 0x61, 0x22, 0x3a, 0x30, 0x2c, 0x7d]

  /** The loader reads {"a":0,} as an object with one member; JSON has no such object. */
  lemma CommaAllowed(limit: nat)
    ensures Fields(COMMA, 0, 8, [Member(1, 4, 4, 5, 6, 6)]) && !GroupSpan(COMMA, 0, 8, limit, true)
  {
    var m := Member(1, 4, 4, 5, 6, 6);
    assert CharLength(COMMA, 2) == 1 && Chars(COMMA, 3, 3);
    assert StringSpan(COMMA, 1, 4);
    assert MemberStands(COMMA, m) && [m][0] == m;
    NotStrict(COMMA, 0, 8, [m], limit);
  }
}
