/** The JSON recogniser of the THX loader.

    The grammar of RFC 8259 is written as spans: which stretches [lo, hi) of the
    text are a string, a number, a value.  The parser stops at the first place
    that works, and the methods below show that it is the only place. */
module Json {
  import opened Frames

  // --- sections 2, 6 and 7: whitespace, numbers, strings

  predicate Whitespace(c: Byte) {
    c == 0x20 || c == 0x09 || c == 0x0a || c == 0x0d
  }

  predicate Digit(c: Byte) {
    0x30 <= c <= 0x39
  }

  predicate Hex(c: Byte) {
    Digit(c) || 0x41 <= c <= 0x46 || 0x61 <= c <= 0x66
  }

  ghost predicate Blank(b: seq<Byte>, lo: nat, hi: nat) {
    lo <= hi <= |b| && forall k :: lo <= k < hi ==> Whitespace(b[k])
  }

  ghost predicate Digits(b: seq<Byte>, lo: nat, hi: nat) {
    lo < hi <= |b| && forall k :: lo <= k < hi ==> Digit(b[k])
  }

  ghost predicate IntegerSpan(b: seq<Byte>, lo: nat, hi: nat) {
    Digits(b, lo, hi) && (b[lo] == 0x30 ==> hi == lo + 1)
  }

  ghost predicate FractionSpan(b: seq<Byte>, lo: nat, hi: nat) {
    lo == hi || (lo < |b| && b[lo] == 0x2e && Digits(b, lo + 1, hi))
  }

  predicate ExponentSign(c: Byte) {
    c == 0x2b || c == 0x2d
  }

  ghost predicate ExponentSpan(b: seq<Byte>, lo: nat, hi: nat) {
    || lo == hi
    || (&& lo + 1 < |b| && (b[lo] == 0x65 || b[lo] == 0x45)
        && Digits(b, if ExponentSign(b[lo + 1]) then lo + 2 else lo + 1, hi))
  }

  /** An integer from `lo` to `p`, a fraction to `q`, an exponent to `hi`. */
  ghost predicate NumberParts(b: seq<Byte>, lo: nat, p: nat, q: nat, hi: nat) {
    && lo < |b|
    && IntegerSpan(b, if b[lo] == 0x2d then lo + 1 else lo, p)
    && FractionSpan(b, p, q)
    && ExponentSpan(b, q, hi)
  }

  ghost predicate NumberSpan(b: seq<Byte>, lo: nat, hi: nat) {
    exists p, q :: 0 <= p && 0 <= q && NumberParts(b, lo, p, q, hi)
  }

  predicate Escape(c: Byte) {
    c == 0x22 || c == 0x5c || c == 0x2f || c == 0x62 || c == 0x66 || c == 0x6e || c == 0x72 || c == 0x74
  }

  ghost predicate Unicode(b: seq<Byte>, at: nat) {
    at + 6 <= |b| && b[at + 1] == 0x75 && Hex(b[at + 2]) && Hex(b[at + 3]) && Hex(b[at + 4]) && Hex(b[at + 5])
  }

  /** How many bytes the character at `at` takes; zero if there is none. */
  ghost function CharLength(b: seq<Byte>, at: nat): nat {
    if at >= |b| || b[at] < 0x20 || b[at] == 0x22 then 0
    else if b[at] != 0x5c then 1
    else if at + 1 < |b| && Escape(b[at + 1]) then 2
    else if Unicode(b, at) then 6
    else 0
  }

  ghost predicate Chars(b: seq<Byte>, lo: nat, hi: nat)
    decreases hi - lo
  {
    lo == hi || (CharLength(b, lo) > 0 && lo + CharLength(b, lo) <= hi && Chars(b, lo + CharLength(b, lo), hi))
  }

  ghost predicate StringSpan(b: seq<Byte>, lo: nat, hi: nat) {
    lo + 2 <= hi <= |b| && b[lo] == 0x22 && b[hi - 1] == 0x22 && Chars(b, lo + 1, hi - 1)
  }

  ghost predicate WordSpan(b: seq<Byte>, lo: nat, hi: nat) {
    lo <= hi <= |b| && (b[lo..hi] == [0x74, 0x72, 0x75, 0x65] || b[lo..hi] == [0x66, 0x61, 0x6c, 0x73, 0x65] ||
                        b[lo..hi] == [0x6e, 0x75, 0x6c, 0x6c])
  }

  // --- sections 3 to 5: values, objects, arrays

  function Opening(keyed: bool): Byte {
    if keyed then 0x7b else 0x5b
  }

  function Closing(keyed: bool): Byte {
    if keyed then 0x7d else 0x5d
  }

  /** Part `i` is not empty and ends with a comma, the last one with the closing bracket. */
  ghost predicate Ends(b: seq<Byte>, cuts: seq<nat>, i: nat, keyed: bool)
    requires i + 1 < |cuts|
  {
    cuts[i] < cuts[i + 1] <= |b| && b[cuts[i + 1] - 1] == if i + 2 == |cuts| then Closing(keyed) else 0x2c
  }

  /** A value that nests arrays and objects at most `limit` deep. */
  ghost predicate ValueSpan(b: seq<Byte>, lo: nat, hi: nat, limit: nat)
    decreases limit, 4
  {
    || WordSpan(b, lo, hi) || NumberSpan(b, lo, hi) || StringSpan(b, lo, hi)
    || GroupSpan(b, lo, hi, limit, false) || GroupSpan(b, lo, hi, limit, true)
  }

  /** Whitespace, a value, whitespace. */
  ghost predicate ItemSpan(b: seq<Byte>, lo: nat, hi: nat, limit: nat)
    decreases limit, 5
  {
    exists p, q {:trigger Blank(b, lo, p), Blank(b, q, hi)} ::
        0 <= p && 0 <= q && Blank(b, lo, p) && ValueSpan(b, p, q, limit) && Blank(b, q, hi)
  }

  /** A string, a colon, a value, with whitespace around. */
  ghost predicate MemberSpan(b: seq<Byte>, lo: nat, hi: nat, limit: nat)
    decreases limit, 6
  {
    exists p, q, c {:trigger Blank(b, lo, p), Blank(b, q, c)} :: 0 <= p && 0 <= q && 0 <= c &&
      Blank(b, lo, p) && StringSpan(b, p, q) && Blank(b, q, c) && c < |b| && b[c] == 0x3a &&
          ItemSpan(b, c + 1, hi, limit)
  }

  ghost predicate PartSpan(b: seq<Byte>, lo: nat, hi: nat, limit: nat, keyed: bool)
    decreases limit, 7
  {
    if keyed then MemberSpan(b, lo, hi, limit) else ItemSpan(b, lo, hi, limit)
  }

  /** The parts of an array or an object: part `i` is [cuts[i], cuts[i + 1]). */
  ghost predicate Parts(b: seq<Byte>, lo: nat, hi: nat, cuts: seq<nat>, limit: nat, keyed: bool)
    decreases limit, 1
  {
    && limit > 0 && |cuts| >= 2 && cuts[0] == lo && cuts[|cuts| - 1] == hi
    && forall i {:trigger Ends(b, cuts, i, keyed)} :: 0 <= i < |cuts| - 1 ==>
         Ends(b, cuts, i, keyed) && PartSpan(b, cuts[i], cuts[i + 1] - 1, limit - 1, keyed)
  }

  ghost predicate PartsSpan(b: seq<Byte>, lo: nat, hi: nat, limit: nat, keyed: bool)
    decreases limit, 2
  {
    exists cuts {:trigger cuts[|cuts| - 1]} :: Parts(b, lo, hi, cuts, limit, keyed)
  }

  /** An array, or an object when `keyed`. */
  ghost predicate GroupSpan(b: seq<Byte>, lo: nat, hi: nat, limit: nat, keyed: bool)
    decreases limit, 3
  {
    && lo + 2 <= hi <= |b| && b[lo] == Opening(keyed) && b[hi - 1] == Closing(keyed)
    && (Blank(b, lo + 1, hi - 1) || PartsSpan(b, lo + 1, hi, limit, keyed))
  }

  /** The text ends here or goes on with a byte that cannot continue a number. */
  ghost predicate Delimited(b: seq<Byte>, at: nat) {
    at == |b| || (at < |b| && !Digit(b[at]) && b[at] != 0x2e && b[at] != 0x65 && b[at] != 0x45)
  }

  // --- the parser

  method Space(b: seq<Byte>, at: nat) returns (cursor: nat)
    requires at <= |b|
    ensures Blank(b, at, cursor) && (cursor < |b| ==> !Whitespace(b[cursor]))
  {
    cursor := at;
    while cursor < |b| && Whitespace(b[cursor])
      invariant at <= cursor <= |b| && forall k :: at <= k < cursor ==> Whitespace(b[k])
    {
      cursor := cursor + 1;
    }
  }

  lemma {:induction false} CharsMore(b: seq<Byte>, lo: nat, mid: nat)
    requires lo <= mid && Chars(b, lo, mid) && CharLength(b, mid) > 0
    ensures Chars(b, lo, mid + CharLength(b, mid))
    decreases mid - lo
  {
    if lo < mid { CharsMore(b, lo + CharLength(b, lo), mid); }
  }

  /** A string literal; a string starts here exactly when one is found. */
  method ParseString(b: seq<Byte>, at: nat) returns (next: nat, ok: bool, length: nat, escaped: bool)
    requires at <= |b|
    ensures ok ==> StringSpan(b, at, next) && length == next - at - 2
    ensures ok ==> (escaped <==> exists k :: at < k < next && b[k] == 0x5c)
    ensures forall hi: nat :: StringSpan(b, at, hi) ==> ok && next == hi
  {
    next, ok, length, escaped := 0, false, 0, false;
    if at >= |b| || b[at] != 0x22 { return; }
    var start := at + 1;
    var cursor := start;
    while cursor < |b|
      invariant start <= cursor && Chars(b, start, cursor) && cursor <= |b|
      invariant escaped <==> exists k :: at < k < cursor && b[k] == 0x5c
      invariant forall hi: nat :: StringSpan(b, at, hi) ==> cursor < hi && Chars(b, cursor, hi - 1)
      invariant !ok
    {
      var c := b[cursor];
      if c == 0x22 { return cursor + 1, true, cursor - start, escaped; }
      if c < 0x20 { return; }
      CharsMoreIf(b, start, cursor);
      if c == 0x5c {
        escaped := true;
        if cursor + 1 >= |b| { return; }
        var code := b[cursor + 1];
        if code == 0x75 {
          if |b| - cursor < 6 || !Hex(b[cursor + 2]) || !Hex(b[cursor + 3]) || !Hex(b[cursor + 4]) ||
             !Hex(b[cursor + 5]) { return; }
          cursor := cursor + 6;
        } else {
          if !Escape(code) { return; }
          cursor := cursor + 2;
        }
      } else {
        cursor := cursor + 1;
      }
    }
  }

  lemma CharsMoreIf(b: seq<Byte>, lo: nat, mid: nat)
    requires lo <= mid && Chars(b, lo, mid)
    ensures CharLength(b, mid) > 0 ==> Chars(b, lo, mid + CharLength(b, mid))
  {
    if CharLength(b, mid) > 0 { CharsMore(b, lo, mid); }
  }

  method SkipDigits(b: seq<Byte>, at: nat) returns (cursor: nat)
    requires at <= |b|
    ensures at <= cursor <= |b| && (forall k :: at <= k < cursor ==> Digit(b[k])) &&
            (cursor < |b| ==> !Digit(b[cursor]))
  {
    cursor := at;
    while cursor < |b| && Digit(b[cursor])
      invariant at <= cursor <= |b| && forall k :: at <= k < cursor ==> Digit(b[k])
    {
      cursor := cursor + 1;
    }
  }

  /** `p` is where every number that starts at `at` and ends well has its integer end. */
  ghost predicate IntegerEnds(b: seq<Byte>, at: nat, p: nat) {
    forall p', q, hi :: 0 <= p' && 0 <= q && 0 <= hi && NumberParts(b, at, p', q, hi) && Delimited(b, hi) ==> p' == p
  }

  ghost predicate FractionEnds(b: seq<Byte>, at: nat, q: nat) {
    forall p, q', hi :: 0 <= p && 0 <= q' && 0 <= hi && NumberParts(b, at, p, q', hi) && Delimited(b, hi) ==> q' == q
  }

  ghost predicate NoNumber(b: seq<Byte>, at: nat) {
    forall p, q, hi :: 0 <= p && 0 <= q && 0 <= hi && NumberParts(b, at, p, q, hi) ==> !Delimited(b, hi)
  }

  method SkipInteger(b: seq<Byte>, at: nat) returns (cursor: nat, ok: bool)
    requires at <= |b|
    ensures if ok then at < |b| && IntegerSpan(b, if b[at] == 0x2d then at + 1 else at, cursor) &&
                       IntegerEnds(b, at, cursor) else NoNumber(b, at)
  {
    cursor := at;
    if cursor < |b| && b[cursor] == 0x2d { cursor := cursor + 1; }
    if cursor >= |b| || !Digit(b[cursor]) { return cursor, false; }
    if b[cursor] == 0x30 { cursor := cursor + 1; } else { cursor := SkipDigits(b, cursor); }
    ok := true;
  }

  method SkipFraction(b: seq<Byte>, ghost at: nat, p: nat) returns (cursor: nat, ok: bool)
    requires at < p <= |b| && IntegerEnds(b, at, p)
    ensures if ok then FractionSpan(b, p, cursor) && p <= cursor <= |b| && FractionEnds(b, at, cursor)
            else NoNumber(b, at)
  {
    cursor := p;
    if cursor < |b| && b[cursor] == 0x2e {
      cursor := cursor + 1;
      if cursor >= |b| || !Digit(b[cursor]) { return cursor, false; }
      cursor := SkipDigits(b, cursor);
    }
    ok := true;
  }

  method SkipExponent(b: seq<Byte>, ghost at: nat, q: nat) returns (cursor: nat, ok: bool)
    requires at < q <= |b| && FractionEnds(b, at, q)
    ensures ok ==> ExponentSpan(b, q, cursor) && q <= cursor <= |b|
    ensures forall p, q', hi :: 0 <= p && 0 <= q' && 0 <= hi && NumberParts(b, at, p, q', hi) && Delimited(b, hi) ==>
            ok && cursor == hi
  {
    cursor := q;
    if cursor < |b| && (b[cursor] == 0x65 || b[cursor] == 0x45) {
      cursor := cursor + 1;
      if cursor < |b| && ExponentSign(b[cursor]) { cursor := cursor + 1; }
      if cursor >= |b| || !Digit(b[cursor]) { return cursor, false; }
      cursor := SkipDigits(b, cursor);
    }
    ok := true;
  }

  /** A number; the longest one that the text can go on from. */
  method SkipNumber(b: seq<Byte>, at: nat) returns (next: nat, ok: bool)
    requires at <= |b|
    ensures ok ==> at < next <= |b| && NumberSpan(b, at, next)
    ensures forall hi: nat :: NumberSpan(b, at, hi) && Delimited(b, hi) ==> ok && next == hi
  {
    var p, q;
    p, ok := SkipInteger(b, at);
    if !ok { return 0, false; }
    q, ok := SkipFraction(b, at, p);
    if !ok { return 0, false; }
    next, ok := SkipExponent(b, at, q);
    if ok { assert NumberParts(b, at, p, q, next); }
  }

  /** true, false or null. */
  method Literal(b: seq<Byte>, at: nat, word: seq<Byte>) returns (next: nat, ok: bool)
    requires at <= |b|
    ensures ok <==> at + |word| <= |b| && b[at..at + |word|] == word
    ensures ok ==> next == at + |word|
  {
    if |b| - at < |word| { return 0, false; }
    var i := 0;
    while i < |word|
      invariant 0 <= i <= |word| && forall k :: 0 <= k < i ==> b[at + k] == word[k]
    {
      if b[at + i] != word[i] {
        assert b[at..at + |word|][i] != word[i];
        return 0, false;
      }
      i := i + 1;
    }
    next, ok := at + |word|, true;
  }

  // --- values

  const MAX_DEPTH := 32

  /** How deep a value at this depth may nest. */
  ghost function Limit(depth: nat): nat {
    if depth <= MAX_DEPTH then MAX_DEPTH - depth else 0
  }

  /** Here whitespace has ended. */
  ghost predicate Solid(b: seq<Byte>, at: nat) {
    at >= |b| || !Whitespace(b[at])
  }

  lemma BlankEnds(b: seq<Byte>, lo: nat, p: nat, q: nat)
    requires Blank(b, lo, p) && Solid(b, p) && Blank(b, lo, q) && Solid(b, q)
    ensures p == q
  {
  }

  /** The first byte of a value tells its kind. */
  lemma FirstByte(b: seq<Byte>, lo: nat, hi: nat, limit: nat)
    requires ValueSpan(b, lo, hi, limit)
    ensures lo < hi <= |b| && Solid(b, lo) && b[lo] != 0x2c && b[lo] != 0x5d && b[lo] != 0x7d
    ensures WordSpan(b, lo, hi) ==> b[lo] == 0x74 || b[lo] == 0x66 || b[lo] == 0x6e
    ensures NumberSpan(b, lo, hi) ==> b[lo] == 0x2d || Digit(b[lo])
  {
    if WordSpan(b, lo, hi) {
      assert b[lo..hi][0] == b[lo];
    } else if NumberSpan(b, lo, hi) {
      var p, q :| 0 <= p && 0 <= q && NumberParts(b, lo, p, q, hi);
    } else if GroupSpan(b, lo, hi, limit, false) {
      assert b[lo] == Opening(false);
    } else if GroupSpan(b, lo, hi, limit, true) {
      assert b[lo] == Opening(true);
    }
  }

  lemma ItemNotEmpty(b: seq<Byte>, lo: nat, hi: nat, limit: nat)
    requires ItemSpan(b, lo, hi, limit)
    ensures lo < hi <= |b|
  {
    var p, q :| 0 <= p && 0 <= q && Blank(b, lo, p) && ValueSpan(b, p, q, limit) && Blank(b, q, hi);
    FirstByte(b, p, q, limit);
  }

  /** A value starts here, after whitespace, and ends at `next`. */
  ghost predicate ValueAfter(b: seq<Byte>, at: nat, next: nat, limit: nat) {
    exists p {:trigger Blank(b, at, p)} :: 0 <= p && Blank(b, at, p) && ValueSpan(b, p, next, limit)
  }

  lemma ValueStarts(b: seq<Byte>, at: nat, cursor: nat, next: nat, limit: nat)
    requires ValueAfter(b, at, next, limit) && Blank(b, at, cursor) && Solid(b, cursor)
    ensures ValueSpan(b, cursor, next, limit)
  {
    var p :| 0 <= p && Blank(b, at, p) && ValueSpan(b, p, next, limit);
    FirstByte(b, p, next, limit);
    BlankEnds(b, at, p, cursor);
  }

  /** Skip whitespace and one value.  It ends where a value does, and when any
      value is there that the text can go on from, it is found. */
  method SkipValue(b: seq<Byte>, at: nat, depth: nat) returns (next: nat, ok: bool)
    requires at <= |b| && depth <= MAX_DEPTH + 1
    ensures ok ==> depth <= MAX_DEPTH && at < next <= |b| && ValueAfter(b, at, next, Limit(depth))
    ensures depth <= MAX_DEPTH ==> forall hi: nat :: ValueAfter(b, at, hi, Limit(depth)) && Delimited(b, hi) ==>
            ok && next == hi
    decreases MAX_DEPTH + 1 - depth, 2
  {
    if depth > MAX_DEPTH { return 0, false; }
    ghost var limit := Limit(depth);
    var cursor := Space(b, at);
    next, ok := SkipSolid(b, cursor, depth);
    forall hi: nat | ValueAfter(b, at, hi, limit) && Delimited(b, hi) ensures ok && next == hi {
      ValueStarts(b, at, cursor, hi, limit);
    }
  }

  /** Skip the value whose first byte is at `cursor`. */
  method SkipSolid(b: seq<Byte>, cursor: nat, depth: nat) returns (next: nat, ok: bool)
    requires cursor <= |b| && depth <= MAX_DEPTH
    ensures ok ==> cursor < next <= |b| && ValueSpan(b, cursor, next, Limit(depth))
    ensures forall hi: nat :: ValueSpan(b, cursor, hi, Limit(depth)) && Delimited(b, hi) ==> ok && next == hi
    decreases MAX_DEPTH + 1 - depth, 1
  {
    ghost var limit := Limit(depth);
    forall hi: nat | ValueSpan(b, cursor, hi, limit) ensures cursor < hi { FirstByte(b, cursor, hi, limit); }
    if cursor >= |b| { return 0, false; }
    var first := b[cursor];
    if first == 0x22 {
      var end, found, _, _ := ParseString(b, cursor);
      next, ok := end, found;
    } else if first == 0x74 {
      next, ok := Literal(b, cursor, [0x74, 0x72, 0x75, 0x65]);
    } else if first == 0x66 {
      next, ok := Literal(b, cursor, [0x66, 0x61, 0x6c, 0x73, 0x65]);
    } else if first == 0x6e {
      next, ok := Literal(b, cursor, [0x6e, 0x75, 0x6c, 0x6c]);
    } else if first == 0x2d || Digit(first) {
      next, ok := SkipNumber(b, cursor);
    } else if first == 0x5b {
      next, ok := SkipGroup(b, cursor, depth, false);
    } else if first == 0x7b {
      next, ok := SkipGroup(b, cursor, depth, true);
    } else {
      return 0, false;
    }
  }

  /** The first byte of a part is neither a comma nor a closing bracket. */
  lemma PartStarts(b: seq<Byte>, mark: nat, hi: nat, limit: nat, keyed: bool, cursor: nat)
    requires PartSpan(b, mark, hi, limit, keyed) && Blank(b, mark, cursor) && Solid(b, cursor)
    ensures cursor < hi <= |b| && b[cursor] != Closing(keyed) && b[cursor] != 0x2c
    ensures keyed ==> MemberAt(b, cursor, hi, limit)
    ensures !keyed ==> ItemAt(b, cursor, hi, limit)
  {
    if keyed {
      var p, q, c :| 0 <= p && 0 <= q && 0 <= c && Blank(b, mark, p) && StringSpan(b, p, q) && Blank(b, q, c) &&
          c < |b| &&
        b[c] == 0x3a && ItemSpan(b, c + 1, hi, limit);
      BlankEnds(b, mark, p, cursor);
      ItemNotEmpty(b, c + 1, hi, limit);
    } else {
      var p, q :| 0 <= p && 0 <= q && Blank(b, mark, p) && ValueSpan(b, p, q, limit) && Blank(b, q, hi);
      FirstByte(b, p, q, limit);
      BlankEnds(b, mark, p, cursor);
    }
  }

  /** A value at `cursor`, then whitespace to `hi`. */
  ghost predicate ItemAt(b: seq<Byte>, cursor: nat, hi: nat, limit: nat) {
    exists q {:trigger Blank(b, q, hi)} :: 0 <= q && ValueSpan(b, cursor, q, limit) && Blank(b, q, hi)
  }

  /** A key at `cursor`, then a colon and an item. */
  ghost predicate MemberAt(b: seq<Byte>, cursor: nat, hi: nat, limit: nat) {
    exists q, c {:trigger Blank(b, q, c)} :: 0 <= q && 0 <= c &&
      StringSpan(b, cursor, q) && Blank(b, q, c) && c < |b| && b[c] == 0x3a && ItemSpan(b, c + 1, hi, limit)
  }

  /** A part ends where a comma or the closing bracket follows. */
  ghost predicate PartEnds(b: seq<Byte>, hi: nat, keyed: bool) {
    hi < |b| && (b[hi] == 0x2c || b[hi] == Closing(keyed))
  }

  /** The value of an item ends at a delimiter. */
  lemma ItemStops(b: seq<Byte>, cursor: nat, hi: nat, limit: nat, keyed: bool) returns (q: nat)
    requires ItemSpan(b, cursor, hi, limit) && PartEnds(b, hi, keyed)
    ensures ValueAfter(b, cursor, q, limit) && Delimited(b, q) && Blank(b, q, hi)
  {
    var p, r :| 0 <= p && 0 <= r && Blank(b, cursor, p) && ValueSpan(b, p, r, limit) && Blank(b, r, hi);
    q := r;
  }

  /** Skip an item and the whitespace after it. */
  method SkipItem(b: seq<Byte>, cursor: nat, depth: nat) returns (next: nat, ok: bool)
    requires cursor <= |b| && depth <= MAX_DEPTH
    ensures ok ==> depth < MAX_DEPTH && cursor < next <= |b| && Solid(b, next) &&
                   ItemSpan(b, cursor, next, Limit(depth + 1))
    ensures depth < MAX_DEPTH ==>
            forall hi: nat, keyed :: ItemSpan(b, cursor, hi, Limit(depth + 1)) && PartEnds(b, hi, keyed) ==>
                ok && next == hi
    decreases MAX_DEPTH + 1 - depth, 0, 0
  {
    var end;
    ghost var limit := Limit(depth + 1);
    end, ok := SkipValue(b, cursor, depth + 1);
    next := 0;
    if ok { next := Space(b, end); }
    forall hi: nat, keyed | depth < MAX_DEPTH && ItemSpan(b, cursor, hi, limit) && PartEnds(b, hi, keyed)
      ensures ok && next == hi
    {
      var q := ItemStops(b, cursor, hi, limit, keyed);
      BlankEnds(b, q, hi, next);
    }
  }

  /** The colon of a member stands behind its key. */
  lemma ColonStands(b: seq<Byte>, cursor: nat, end: nat, colon: nat, hi: nat, limit: nat)
    requires MemberAt(b, cursor, hi, limit) && forall q: nat :: StringSpan(b, cursor, q) ==> q == end
    requires Blank(b, end, colon) && Solid(b, colon)
    ensures colon < |b| && b[colon] == 0x3a && ItemSpan(b, colon + 1, hi, limit)
  {
    var q, c :| 0 <= q && 0 <= c && StringSpan(b, cursor, q) && Blank(b, q, c) && c < |b| && b[c] == 0x3a &&
      ItemSpan(b, c + 1, hi, limit);
    BlankEnds(b, q, c, colon);
  }

  /** Skip a key, a colon and an item. */
  method SkipMember(b: seq<Byte>, cursor: nat, depth: nat) returns (next: nat, ok: bool)
    requires cursor <= |b| && depth <= MAX_DEPTH
    ensures ok ==> depth < MAX_DEPTH && cursor < next <= |b| && Solid(b, next) &&
                   MemberAt(b, cursor, next, Limit(depth + 1))
    ensures depth < MAX_DEPTH ==>
            forall hi: nat, keyed :: MemberAt(b, cursor, hi, Limit(depth + 1)) && PartEnds(b, hi, keyed) ==>
                ok && next == hi
    decreases MAX_DEPTH + 1 - depth, 0, 1
  {
    next := 0;
    ghost var limit := Limit(depth + 1);
    var end, found, _, _ := ParseString(b, cursor);
    if !found { return 0, false; }
    var colon := Space(b, end);
    forall hi: nat | MemberAt(b, cursor, hi, limit)
      ensures colon < |b| && b[colon] == 0x3a && ItemSpan(b, colon + 1, hi, limit)
    {
      ColonStands(b, cursor, end, colon, hi, limit);
    }
    if colon >= |b| || b[colon] != 0x3a { return 0, false; }
    next, ok := SkipItem(b, colon + 1, depth);
  }

  method SkipPart(b: seq<Byte>, ghost mark: nat, cursor: nat, depth: nat, keyed: bool) returns (next: nat, ok: bool)
    requires Blank(b, mark, cursor) && Solid(b, cursor) && depth <= MAX_DEPTH
    ensures ok ==> depth < MAX_DEPTH && cursor < next <= |b| && Solid(b, next) &&
                   PartSpan(b, mark, next, Limit(depth + 1), keyed)
    ensures depth < MAX_DEPTH ==>
            forall hi: nat :: PartSpan(b, mark, hi, Limit(depth + 1), keyed) && PartEnds(b, hi, keyed) ==>
                ok && next == hi
    decreases MAX_DEPTH + 1 - depth, 0, 2
  {
    ghost var limit := Limit(depth + 1);
    if keyed { next, ok := SkipMember(b, cursor, depth); } else { next, ok := SkipItem(b, cursor, depth); }
    forall hi: nat | depth < MAX_DEPTH && PartSpan(b, mark, hi, limit, keyed) && PartEnds(b, hi, keyed) ensures ok &&
        next == hi {
      PartStarts(b, mark, hi, limit, keyed, cursor);
      if !keyed { ItemFromAt(b, cursor, hi, limit); }
    }
    if ok {
      if keyed { MemberBefore(b, mark, cursor, next, limit); } else { ItemBefore(b, mark, cursor, next, limit); }
    }
  }

  lemma ItemFromAt(b: seq<Byte>, cursor: nat, hi: nat, limit: nat)
    requires ItemAt(b, cursor, hi, limit) && cursor <= |b|
    ensures ItemSpan(b, cursor, hi, limit)
  {
    assert Blank(b, cursor, cursor);
  }

  lemma ItemBefore(b: seq<Byte>, mark: nat, cursor: nat, hi: nat, limit: nat)
    requires Blank(b, mark, cursor) && Solid(b, cursor) && ItemSpan(b, cursor, hi, limit)
    ensures ItemSpan(b, mark, hi, limit)
  {
    var p, q :| 0 <= p && 0 <= q && Blank(b, cursor, p) && ValueSpan(b, p, q, limit) && Blank(b, q, hi);
    assert Blank(b, mark, p);
  }

  lemma MemberBefore(b: seq<Byte>, mark: nat, cursor: nat, hi: nat, limit: nat)
    requires Blank(b, mark, cursor) && MemberAt(b, cursor, hi, limit)
    ensures MemberSpan(b, mark, hi, limit)
  {
  }

  /** Part number `n - 1` of an array or object, once it is known where it starts. */
  lemma NextCut(b: seq<Byte>, lo: nat, hi: nat, cuts: seq<nat>, n: nat, mark: nat, limit: nat, keyed: bool)
    requires Parts(b, lo, hi, cuts, limit, keyed) && 0 < n < |cuts| && cuts[n - 1] == mark
    ensures limit > 0 && mark < cuts[n] && PartSpan(b, mark, cuts[n] - 1, limit - 1, keyed) &&
            PartEnds(b, cuts[n] - 1, keyed)
    ensures n + 1 == |cuts| <==> b[cuts[n] - 1] == Closing(keyed)
    ensures n + 1 == |cuts| ==> cuts[n] == hi
  {
    assert Ends(b, cuts, n - 1, keyed);
  }

  /** The parts found so far: each ends with a comma. */
  ghost predicate Begun(b: seq<Byte>, lo: nat, cuts: seq<nat>, limit: nat, keyed: bool) {
    && |cuts| > 0 && cuts[0] == lo && (|cuts| > 1 ==> limit > 0)
    && forall i :: 0 < i < |cuts| ==> Piece(b, cuts, i, limit, keyed)
  }

  /** The part before cut `i`, with a comma. */
  ghost predicate Piece(b: seq<Byte>, cuts: seq<nat>, i: nat, limit: nat, keyed: bool)
    requires 0 < i < |cuts| && limit > 0
  {
    cuts[i - 1] < cuts[i] <= |b| && b[cuts[i] - 1] == 0x2c && PartSpan(b, cuts[i - 1], cuts[i] - 1, limit - 1, keyed)
  }

  /** Every division into parts goes through the last cut found so far. */
  ghost predicate Forced(b: seq<Byte>, lo: nat, cuts: seq<nat>, limit: nat, keyed: bool)
    requires |cuts| > 0
  {
    forall hi: nat, cuts' :: Parts(b, lo, hi, cuts', limit, keyed) ==>
        |cuts'| > |cuts| && cuts'[|cuts| - 1] == cuts[|cuts| - 1]
  }

  lemma BegunMore(b: seq<Byte>, lo: nat, cuts: seq<nat>, next: nat, limit: nat, keyed: bool)
    requires Begun(b, lo, cuts, limit, keyed) && limit > 0 && cuts[|cuts| - 1] < next < |b| && b[next] == 0x2c
    requires PartSpan(b, cuts[|cuts| - 1], next, limit - 1, keyed)
    ensures Begun(b, lo, cuts + [next + 1], limit, keyed)
  {
    var all := cuts + [next + 1];
    forall i | 0 < i < |all| ensures Piece(b, all, i, limit, keyed) {
      if i < |cuts| { assert Piece(b, cuts, i, limit, keyed); }
    }
  }

  lemma Complete(b: seq<Byte>, lo: nat, cuts: seq<nat>, next: nat, limit: nat, keyed: bool)
    requires Begun(b, lo, cuts, limit, keyed) && limit > 0 && cuts[|cuts| - 1] < next < |b| && b[next] == Closing(keyed)
    requires PartSpan(b, cuts[|cuts| - 1], next, limit - 1, keyed)
    ensures PartsSpan(b, lo, next + 1, limit, keyed)
  {
    var all := cuts + [next + 1];
    forall i | 0 <= i < |all| - 1 ensures Ends(b, all, i, keyed) &&
        PartSpan(b, all[i], all[i + 1] - 1, limit - 1, keyed) {
      if i + 1 < |cuts| { assert Piece(b, cuts, i + 1, limit, keyed); }
    }
    assert Parts(b, lo, next + 1, all, limit, keyed) && all[|all| - 1] == next + 1;
  }

  /** Part number `n - 1` ends at `next`, with a comma or as the last one. */
  ghost predicate Onward(b: seq<Byte>, hi: nat, cuts: seq<nat>, n: nat, next: nat, keyed: bool) {
    && next < |b| && (b[next] == 0x2c || b[next] == Closing(keyed)) && n < |cuts| && cuts[n] == next + 1
    && (|cuts| == n + 1 <==> b[next] == Closing(keyed)) && (|cuts| == n + 1 ==> hi == next + 1)
  }

  /** After one more part, every division goes through its end. */
  lemma ForcedOn(b: seq<Byte>, lo: nat, cuts: seq<nat>, next: nat, limit: nat, keyed: bool)
    requires |cuts| > 0 && Forced(b, lo, cuts, limit, keyed)
    requires limit > 0 ==>
             forall hi: nat :: PartSpan(b, cuts[|cuts| - 1], hi, limit - 1, keyed) && PartEnds(b, hi, keyed) ==>
                 next == hi
    ensures forall hi: nat, cuts' :: Parts(b, lo, hi, cuts', limit, keyed) ==> Onward(b, hi, cuts', |cuts|, next, keyed)
  {
    forall hi: nat, cuts' | Parts(b, lo, hi, cuts', limit, keyed) ensures Onward(b, hi, cuts', |cuts|, next, keyed) {
      NextCut(b, lo, hi, cuts', |cuts|, cuts[|cuts| - 1], limit, keyed);
    }
  }

  lemma SomeParts(b: seq<Byte>, lo: nat, hi: nat, limit: nat, keyed: bool) returns (cuts: seq<nat>)
    requires PartsSpan(b, lo, hi, limit, keyed)
    ensures Parts(b, lo, hi, cuts, limit, keyed)
  {
    cuts :| Parts(b, lo, hi, cuts, limit, keyed);
  }

  lemma GroupStarts(b: seq<Byte>, open: nat, hi: nat, limit: nat, keyed: bool, cursor: nat)
    requires GroupSpan(b, open, hi, limit, keyed) && Blank(b, open + 1, cursor) && Solid(b, cursor)
    ensures cursor < |b|
    ensures if b[cursor] == Closing(keyed) then hi == cursor + 1 else PartsSpan(b, open + 1, hi, limit, keyed)
  {
    var lo := open + 1;
    if Blank(b, lo, hi - 1) {
      BlankEnds(b, lo, hi - 1, cursor);
    } else {
      var cuts := SomeParts(b, lo, hi, limit, keyed);
      NextCut(b, lo, hi, cuts, 1, lo, limit, keyed);
      PartStarts(b, lo, cuts[1] - 1, limit - 1, keyed, cursor);
    }
  }

  /** At `next` the group ends or a comma follows. */
  ghost predicate Goes(b: seq<Byte>, hi: nat, next: nat, keyed: bool) {
    next < |b| && (b[next] == 0x2c || (b[next] == Closing(keyed) && hi == next + 1))
  }

  lemma GroupGoesOn(b: seq<Byte>, lo: nat, hi: nat, cuts: seq<nat>, next: nat, ok: bool, limit: nat, keyed: bool)
    requires |cuts| > 0 && Forced(b, lo, cuts, limit, keyed) && PartsSpan(b, lo, hi, limit, keyed)
    requires limit > 0 ==>
             forall hi: nat :: PartSpan(b, cuts[|cuts| - 1], hi, limit - 1, keyed) && PartEnds(b, hi, keyed) ==>
                 ok && next == hi
    ensures ok && Goes(b, hi, next, keyed)
  {
    var all := SomeParts(b, lo, hi, limit, keyed);
    NextCut(b, lo, hi, all, |cuts|, cuts[|cuts| - 1], limit, keyed);
  }

  lemma GroupHasMore(b: seq<Byte>, lo: nat, hi: nat, cuts: seq<nat>, cursor: nat, limit: nat, keyed: bool)
    requires |cuts| > 0 && Forced(b, lo, cuts, limit, keyed) && PartsSpan(b, lo, hi, limit, keyed)
    requires Blank(b, cuts[|cuts| - 1], cursor) && Solid(b, cursor)
    ensures cursor < |b|
  {
    var all := SomeParts(b, lo, hi, limit, keyed);
    NextCut(b, lo, hi, all, |cuts|, cuts[|cuts| - 1], limit, keyed);
    PartStarts(b, cuts[|cuts| - 1], all[|cuts|] - 1, limit - 1, keyed, cursor);
  }

  /** Skip an array, or an object when `keyed`, whose opening bracket is at `open`. */
  method SkipGroup(b: seq<Byte>, open: nat, depth: nat, keyed: bool) returns (next: nat, ok: bool)
    requires open < |b| && depth <= MAX_DEPTH && b[open] == Opening(keyed)
    ensures ok ==> open < next <= |b| && GroupSpan(b, open, next, Limit(depth), keyed)
    ensures forall hi: nat :: GroupSpan(b, open, hi, Limit(depth), keyed) ==> ok && next == hi
    decreases MAX_DEPTH + 1 - depth, 0, 3
  {
    ghost var limit, lo := Limit(depth), open + 1;
    var cursor := Space(b, open + 1);
    forall hi: nat | GroupSpan(b, open, hi, limit, keyed)
      ensures cursor < |b| && if b[cursor] == Closing(keyed) then hi == cursor + 1
              else PartsSpan(b, lo, hi, limit, keyed)
    {
      GroupStarts(b, open, hi, limit, keyed, cursor);
    }
    if cursor < |b| && b[cursor] == Closing(keyed) { return cursor + 1, true; }
    ghost var cuts: seq<nat> := [lo];
    while cursor < |b|
      invariant Begun(b, lo, cuts, limit, keyed) && Blank(b, cuts[|cuts| - 1], cursor) && Solid(b, cursor)
      invariant Forced(b, lo, cuts, limit, keyed)
      invariant forall hi: nat :: GroupSpan(b, open, hi, limit, keyed) ==> cursor < |b|
      decreases |b| - cursor
    {
      ghost var mark := cuts[|cuts| - 1];
      next, ok := SkipPart(b, mark, cursor, depth, keyed);
      forall hi: nat | GroupSpan(b, open, hi, limit, keyed) ensures ok && Goes(b, hi, next, keyed) {
        GroupGoesOn(b, lo, hi, cuts, next, ok, limit, keyed);
      }
      ForcedOn(b, lo, cuts, next, limit, keyed);
      if !ok { return 0, false; }
      if next < |b| && b[next] == Closing(keyed) {
        Complete(b, lo, cuts, next, limit, keyed);
        return next + 1, true;
      }
      if next >= |b| || b[next] != 0x2c { return 0, false; }
      BegunMore(b, lo, cuts, next, limit, keyed);
      cuts := cuts + [next + 1];
      cursor := Space(b, next + 1);
      forall hi: nat | GroupSpan(b, open, hi, limit,
                                 keyed) ensures cursor < |b| { GroupHasMore(b, lo, hi, cuts, cursor, limit, keyed); }
    }
    return 0, false;
  }
}
