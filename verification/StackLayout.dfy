/** The initial stack as a value: a table of words from the stack pointer up,
    sixteen random bytes, and the strings growing down from near the top. */
module StackLayout {
  import opened Frames
  import opened Words
  import opened Startups

  /** The zero-terminated string at an address. */
  ghost function CString(mem: seq<Byte>, a: nat): seq<Byte>
    decreases |mem| - a
  {
    if a >= |mem| || mem[a] == 0 then [] else [mem[a]] + CString(mem, a + 1)
  }

  ghost predicate StringAt(mem: seq<Byte>, a: nat, text: seq<Byte>) {
    && a + |text| < |mem| && mem[a + |text|] == 0
    && forall k {:trigger mem[k]} :: a <= k < a + |text| ==> mem[k] == text[k - a]
  }

  lemma {:induction false} StringReads(mem: seq<Byte>, a: nat, text: seq<Byte>)
    requires StringAt(mem, a, text) && forall k :: 0 <= k < |text| ==> text[k] != 0
    ensures CString(mem, a) == text
    decreases |text|
  {
    if text != [] {
      assert mem[a] == text[0];
      StringReads(mem, a + 1, text[1..]);
    }
  }

  /** Each string ends below the one before it, the first sixteen bytes under the top. */
  ghost predicate Stacked(texts: seq<seq<Byte>>, pointers: seq<nat>, room: nat, top: nat) {
    && |pointers| == |texts|
    && (forall i :: 0 <= i < |pointers| ==> room <= pointers[i] && pointers[i] + |texts[i]| + 17 <= top)
    && (forall i, j :: 0 <= i < j < |pointers| ==> pointers[j] + |texts[j]| < pointers[i])
  }

  ghost function PointerOf(texts: seq<seq<Byte>>, top: nat, i: nat): nat
    requires i < |texts|
  {
    if Total(texts, i + 1) + 16 <= top then top - 16 - Total(texts, i + 1) else 0
  }

  /** Where the strings go. */
  ghost function Pointers(texts: seq<seq<Byte>>, top: nat): (r: seq<nat>)
    ensures |r| == |texts| && forall i :: 0 <= i < |r| ==> r[i] == PointerOf(texts, top, i)
  {
    seq(|texts|, i requires 0 <= i < |texts| => PointerOf(texts, top, i))
  }

  /** The next string ends just below this one. */
  lemma PointerStep(texts: seq<seq<Byte>>, top: nat, i: nat)
    requires i < |texts| && Total(texts, |texts|) + 16 <= top
    ensures PointerOf(texts, top, i) == top - 16 - Total(texts, i + 1)
    ensures (if i == 0 then top - 16 else PointerOf(texts, top, i - 1)) == PointerOf(texts, top, i) + |texts[i]| + 1
  {
    TotalGrows(texts, i + 1, |texts|);
  }

  lemma PointerInRoom(texts: seq<seq<Byte>>, top: nat, i: nat, p: int, room: nat)
    requires i < |texts| && Total(texts, |texts|) + 16 <= top && room == top - 16 - Total(texts, |texts|)
    requires p == PointerOf(texts, top, i)
    ensures room <= p && p + |texts[i]| + 17 <= top
  {
    PointerStep(texts, top, i);
    TotalGrows(texts, i + 1, |texts|);
  }

  lemma PointersStacked(texts: seq<seq<Byte>>, top: nat, pointers: seq<nat>, room: nat)
    requires Total(texts, |texts|) + 16 <= top && room == top - 16 - Total(texts, |texts|) &&
             pointers == Pointers(texts, top)
    ensures Stacked(texts, pointers, room, top)
    ensures |texts| > 0 ==> pointers[|texts| - 1] == room
  {
    forall i | 0 <= i < |pointers| ensures room <= pointers[i] && pointers[i] + |texts[i]| + 17 <= top {
      PointerInRoom(texts, top, i, pointers[i], room);
    }
    forall i, j | 0 <= i < j < |pointers| ensures pointers[j] +
        |texts[j]| < pointers[i] { PointersFall(texts, top, i, j); }
    if |texts| > 0 { PointerStep(texts, top, |texts| - 1); }
  }

  lemma {:induction false} PointersFall(texts: seq<seq<Byte>>, top: nat, i: nat, j: nat)
    requires i < j < |texts| && Total(texts, |texts|) + 16 <= top
    ensures PointerOf(texts, top, j) + |texts[j]| < PointerOf(texts, top, i)
  {
    PointerStep(texts, top, j);
    PointerStep(texts, top, i);
    TotalGrows(texts, i + 1, j);
  }

  datatype Stack = Stack(before: seq<Byte>, mem: seq<Byte>, sp: nat, top: nat, room: nat, words: seq<nat>,
                         texts: seq<seq<Byte>>, pointers: seq<nat>, count: nat, random: seq<Byte>)

  /** Below this address the strings are still to be written. */
  ghost function Low(pointers: seq<nat>, top: nat, count: nat): int
    requires count <= |pointers|
  {
    if count == 0 then top - 16 else pointers[count - 1]
  }

  ghost predicate TableIs(mem: seq<Byte>, sp: nat, words: seq<nat>) {
    forall k {:trigger words[k]} :: 0 <= k < |words| ==> Holds(mem, sp + 8 * k, words[k], 8)
  }

  ghost predicate StringsIn(mem: seq<Byte>, texts: seq<seq<Byte>>, pointers: seq<nat>, room: nat, top: nat,
                            count: nat) {
    && count <= |texts| == |pointers| && top <= |mem|
    && (forall i :: 0 <= i < count ==> StringAt(mem, pointers[i], texts[i]))
    && (forall k {:trigger mem[k]} :: room <= k < Low(pointers, top, count) && k < |mem| ==> mem[k] == 0)
  }

  ghost predicate DataAt(mem: seq<Byte>, a: nat, data: seq<Byte>) {
    a + |data| <= |mem| && forall k {:trigger mem[k]} :: a <= k < a + |data| ==> mem[k] == data[k - a]
  }

  ghost predicate Built(s: Stack) {
    match s
    case Stack(before, mem, sp, top, room, words, texts, pointers, count, random) =>
      && |mem| == |before| == SPACE && sp < top < SPACE
      && sp + 8 * |words| + 16 <= room && room + 16 <= top && |random| <= 16
      && Stacked(texts, pointers, room, top)
      && TableIs(mem, sp, words)
      && StringsIn(mem, texts, pointers, room, top, count)
      && DataAt(mem, room - 16, random)
      && ChangedWithin(before, mem, sp, top)
  }

  const LAYERS := 3

  /** `Built`, kept folded. */
  ghost predicate Building(s: Stack, layers: nat) {
    if layers == 0 then Built(s) else Building(s, layers - 1)
  }

  lemma Expose(s: Stack, layers: nat)
    requires Building(s, layers)
    ensures Built(s)
  {
  }

  lemma Cover(s: Stack, layers: nat)
    requires Built(s)
    ensures Building(s, layers)
  {
  }

  lemma {:induction false} ZeroByte(i: nat)
    ensures ByteOf(0, i) == 0
  {
    if i > 0 { ZeroByte(i - 1); }
  }

  /** A cleared stack area. */
  lemma Cleared(before: seq<Byte>, mem: seq<Byte>, sp: nat, top: nat, room: nat, words: seq<nat>, texts: seq<seq<Byte>>,
                pointers: seq<nat>)
    requires |before| == SPACE && sp < top < SPACE && Stacked(texts, pointers, room, top)
    requires sp + 8 * |words| + 16 <= room && room + 16 <= top
    requires mem == Zeroed(before, sp, top) && forall k :: 0 <= k < |words| ==> words[k] == 0
    ensures Building(Stack(before, mem, sp, top, room, words, texts, pointers, 0, []), LAYERS)
  {
    forall k {:trigger words[k]} | 0 <= k < |words| ensures Holds(mem, sp + 8 * k, words[k], 8) {
      forall b {:trigger mem[b]} | sp + 8 * k <= b < sp + 8 * k + 8 ensures mem[b] == ByteOf(0, b - (sp + 8 * k)) {
        ZeroByte(b - (sp + 8 * k));
      }
    }
    Cover(Stack(before, mem, sp, top, room, words, texts, pointers, 0, []), LAYERS);
  }

  // --- what a change of some bytes leaves in place

  lemma HoldsStill(m: seq<Byte>, r: seq<Byte>, a: nat, v: nat, low: nat, high: nat)
    requires Holds(m, a, v, 8) && ChangedWithin(m, r, low, high) && (a + 8 <= low || high <= a)
    ensures Holds(r, a, v, 8)
  {
  }

  lemma TableStill(m: seq<Byte>, r: seq<Byte>, sp: nat, words: seq<nat>, low: nat, high: nat)
    requires TableIs(m, sp, words) && ChangedWithin(m, r, low, high) && sp + 8 * |words| <= low
    ensures TableIs(r, sp, words)
  {
    forall j {:trigger words[j]} | 0 <= j < |words| ensures Holds(r, sp + 8 * j, words[j], 8) {
      HoldsStill(m, r, sp + 8 * j, words[j], low, high);
    }
  }

  lemma TableChanges(m: seq<Byte>, r: seq<Byte>, sp: nat, words: seq<nat>, k: nat, v: nat)
    requires TableIs(m, sp, words) && k < |words| && Deposited(m, r, sp + 8 * k, v, 8)
    ensures TableIs(r, sp, words[k := v])
  {
    var w := words[k := v];
    forall j {:trigger w[j]} | 0 <= j < |w| ensures Holds(r, sp + 8 * j, w[j], 8) {
      if j != k { HoldsStill(m, r, sp + 8 * j, words[j], sp + 8 * k, sp + 8 * k + 8); }
    }
  }

  lemma StringsStill(m: seq<Byte>, r: seq<Byte>, texts: seq<seq<Byte>>, pointers: seq<nat>, room: nat, top: nat,
                     count: nat, low: nat, high: nat)
    requires StringsIn(m, texts, pointers, room, top, count) && Stacked(texts, pointers, room, top)
    requires ChangedWithin(m, r, low, high) && high <= room
    ensures StringsIn(r, texts, pointers, room, top, count)
  {
  }

  lemma RestStill(before: seq<Byte>, m: seq<Byte>, r: seq<Byte>, sp: nat, top: nat, a: nat, data: seq<Byte>, low: nat,
                  high: nat)
    requires ChangedWithin(before, m, sp, top) && ChangedWithin(m, r, low, high) && sp <= low && high <= top
    requires DataAt(m, a, data) && (high <= a || a + |data| <= low)
    ensures ChangedWithin(before, r, sp, top) && DataAt(r, a, data)
  {
  }

  lemma StringLands(m: seq<Byte>, a: nat, text: seq<Byte>, room: nat, low: int)
    requires room <= a && a + |text| < low <= |m| && forall k {:trigger m[k]} :: room <= k < low ==> m[k] == 0
    ensures StringAt(Written(m, a, text), a, text)
    ensures forall k {:trigger Written(m, a, text)[k]} :: room <= k < a ==> Written(m, a, text)[k] == 0
    ensures ChangedWithin(m, Written(m, a, text), a, a + |text|)
  {
  }

  lemma StringsMore(m: seq<Byte>, texts: seq<seq<Byte>>, pointers: seq<nat>, room: nat, top: nat, count: nat)
    requires StringsIn(m, texts, pointers, room, top, count) && Stacked(texts, pointers, room, top) && count < |texts|
    ensures StringsIn(Written(m, pointers[count], texts[count]), texts, pointers, room, top, count + 1)
  {
    var a, text := pointers[count], texts[count];
    var r := Written(m, a, text);
    StringLands(m, a, text, room, Low(pointers, top, count));
    forall i | 0 <= i < count ensures StringAt(r, pointers[i], texts[i]) {
      assert a + |text| < pointers[i];
    }
  }

  // --- the steps that build the stack

  lemma WordStored(s: Stack, r: seq<Byte>, k: nat, v: nat)
    requires Building(s, LAYERS) && k < |s.words| && Deposited(s.mem, r, s.sp + 8 * k, v, 8)
    ensures Building(s.(mem := r, words := s.words[k := v]), LAYERS)
  {
    Expose(s, LAYERS);
    TableChanges(s.mem, r, s.sp, s.words, k, v);
    StringsStill(s.mem, r, s.texts, s.pointers, s.room, s.top, s.count, s.sp + 8 * k, s.sp + 8 * k + 8);
    RestStill(s.before, s.mem, r, s.sp, s.top, s.room - 16, s.random, s.sp + 8 * k, s.sp + 8 * k + 8);
    Cover(s.(mem := r, words := s.words[k := v]), LAYERS);
  }

  lemma StringStored(s: Stack, low: nat, text: seq<Byte>)
    requires Building(s, LAYERS) && s.count < |s.texts| && s.count < |s.pointers|
    requires low == s.pointers[s.count] && text == s.texts[s.count]
    ensures Building(s.(mem := Written(s.mem, low, text), count := s.count + 1), LAYERS)
  {
    StringBuilt(s.before, s.mem, s.sp, s.top, s.room, s.words, s.texts, s.pointers, s.count, s.random, low, text);
  }

  lemma StringFits(mem: seq<Byte>, texts: seq<seq<Byte>>, pointers: seq<nat>, room: nat, top: nat, count: nat)
    requires Stacked(texts, pointers, room, top) && count < |texts| && top <= |mem|
    ensures room <= pointers[count] && pointers[count] + |texts[count]| + 17 <= top
    ensures ChangedWithin(mem, Written(mem, pointers[count], texts[count]), pointers[count],
                          pointers[count] + |texts[count]|)
  {
  }

  lemma StringBuilt(before: seq<Byte>, mem: seq<Byte>, sp: nat, top: nat, room: nat, words: seq<nat>,
                    texts: seq<seq<Byte>>,
                    pointers: seq<nat>, count: nat, random: seq<Byte>, low: nat, text: seq<Byte>)
    requires Building(Stack(before, mem, sp, top, room, words, texts, pointers, count, random), LAYERS)
    requires count < |texts| && count < |pointers| && low == pointers[count] && text == texts[count]
    ensures Building(Stack(before, Written(mem, low, text), sp, top, room, words, texts, pointers, count + 1, random),
                     LAYERS)
  {
    Expose(Stack(before, mem, sp, top, room, words, texts, pointers, count, random), LAYERS);
    var r := Written(mem, low, text);
    StringFits(mem, texts, pointers, room, top, count);
    StringsMore(mem, texts, pointers, room, top, count);
    TableStill(mem, r, sp, words, low, low + |text|);
    RestStill(before, mem, r, sp, top, room - 16, random, low, low + |text|);
    Cover(Stack(before, r, sp, top, room, words, texts, pointers, count + 1, random), LAYERS);
  }

  lemma RandomStored(s: Stack, random: seq<Byte>)
    requires Building(s, LAYERS) && |random| == 16 && s.room >= 16
    ensures Building(s.(mem := Written(s.mem, s.room - 16, random), random := random), LAYERS)
  {
    Expose(s, LAYERS);
    var r := Written(s.mem, s.room - 16, random);
    TableStill(s.mem, r, s.sp, s.words, s.room - 16, s.room);
    StringsStill(s.mem, r, s.texts, s.pointers, s.room, s.top, s.count, s.room - 16, s.room);
    Cover(s.(mem := r, random := random), LAYERS);
  }
}
