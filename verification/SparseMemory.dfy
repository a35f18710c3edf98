/** Sparse paged memory: pages of 64 KiB made on the first byte that is not
    zero, within a budget.  It stands for a flat memory that starts as zeros. */
module SparseMemory {
  import opened Frames
  import opened Words

  const MAX_SAFE := 9007199254740991

  datatype Status = Ok | Range | NoMemory

  type Pages = map<nat, seq<Byte>>

  function ByteAt(pages: Pages, a: nat): Byte {
    if a / 65536 in pages && a % 65536 < |pages[a / 65536]| then pages[a / 65536][a % 65536] else 0
  }

  /** The flat memory. */
  ghost function Flat(pages: Pages, top: nat): (m: seq<Byte>)
    ensures |m| == top && forall a :: 0 <= a < top ==> m[a] == ByteAt(pages, a)
  {
    seq(top, a requires 0 <= a < top => ByteAt(pages, a))
  }

  ghost predicate Proper(pages: Pages, used: nat, cap: nat) {
    && (forall p :: p in pages ==> |pages[p]| == PAGE_SIZE)
    && used == |pages| * 65536 <= cap
  }

  // --- the pages that a write has to make

  /** The data holds a byte other than zero for page `p`. */
  ghost predicate Wants(at: nat, b: seq<Byte>, p: nat) {
    exists i {:trigger b[i]} :: 0 <= i < |b| && (at + i) / 65536 == p && b[i] != 0
  }

  /** The absent pages that must be made to write the data. */
  ghost function Missing(pages: Pages, at: nat, b: seq<Byte>): (s: set<nat>)
    ensures forall p: nat {:trigger p in s} :: p in s <==> p !in pages && Wants(at, b, p)
  {
    set p | 0 <= p <= (at + |b|) / 65536 && p !in pages && Wants(at, b, p)
  }

  ghost predicate Affordable(pages: Pages, used: nat, cap: nat, at: nat, b: seq<Byte>) {
    used + |Missing(pages, at, b)| * 65536 <= cap
  }

  lemma {:induction false} Fewer(small: set<nat>, large: set<nat>)
    requires small <= large
    ensures |small| <= |large|
  {
    if small != {} {
      var p :| p in small;
      Fewer(small - {p}, large - {p});
    }
  }

  /** The next piece of the data lies in one page, which no piece before it touches. */
  lemma PieceWanted(at: nat, b: seq<Byte>, n: nat, k: nat, page: nat, p: nat)
    requires n + k <= |b| && 0 < k && (at + n) / 65536 == page && (at + n + k - 1) / 65536 == page
    ensures Wants(at, b[..n + k], p) <==> Wants(at, b[..n], p) || (p == page && Wants(at + n, b[n..n + k], p))
    ensures Wants(at, b[..n + k], p) ==> Wants(at, b, p)
    ensures n == 0 || (at + n) % 65536 == 0 ==> !Wants(at, b[..n], page)
  {
    var head, all, piece := b[..n], b[..n + k], b[n..n + k];
    if Wants(at, all, p) {
      var i :| 0 <= i < |all| && (at + i) / 65536 == p && all[i] != 0;
      assert b[i] == all[i];
      if i < n { assert head[i] == b[i]; } else { assert piece[i - n] == b[i] && (at + n + (i - n)) / 65536 == p; }
    }
    if Wants(at, head, p) {
      var i :| 0 <= i < |head| && (at + i) / 65536 == p && head[i] != 0;
      assert all[i] == head[i];
    }
    if p == page && Wants(at + n, piece, p) {
      var i :| 0 <= i < |piece| && (at + n + i) / 65536 == p && piece[i] != 0;
      assert all[n + i] == piece[i];
    }
  }

  // --- changing one page

  /** A page with the bytes from `off` on replaced. */
  function Overlaid(q: seq<Byte>, off: nat, x: seq<Byte>): (r: seq<Byte>)
    requires off + |x| <= |q|
    ensures |r| == |q| && forall i :: 0 <= i < |q| ==> r[i] == if off <= i < off + |x| then x[i - off] else q[i]
  {
    q[..off] + x + q[off + |x|..]
  }

  function Zeros(n: nat): (z: seq<Byte>)
    ensures |z| == n && forall i :: 0 <= i < n ==> z[i] == 0
  {
    seq(n, _ => 0)
  }

  /** A page, whether present or not. */
  function PageOf(pages: Pages, p: nat): seq<Byte> {
    if p in pages then pages[p] else Zeros(65536)
  }

  lemma PlaceOf(page: nat, off: nat)
    requires off < 65536
    ensures (page * 65536 + off) / 65536 == page && (page * 65536 + off) % 65536 == off
  {
  }

  /** Replacing bytes of a page writes them to the flat memory. */
  lemma PageWritten(pages: Pages, top: nat, page: nat, off: nat, x: seq<Byte>, a: nat)
    requires |PageOf(pages, page)| == 65536 && off + |x| <= 65536 && a == page * 65536 + off
    ensures Flat(pages[page := Overlaid(PageOf(pages, page), off, x)], top) == Written(Flat(pages, top), a, x)
  {
    var q := Overlaid(PageOf(pages, page), off, x);
    var now := pages[page := q];
    forall b: nat | b < top ensures ByteAt(now, b) == if a <= b < a + |x| then x[b - a] else ByteAt(pages, b) {
      if b / 65536 == page { assert b == page * 65536 + b % 65536; }
         else if a <= b < a + |x| { PlaceOf(page, b - page * 65536); }
    }
  }

  /** Zeros written to an absent page change nothing. */
  lemma ZerosUnseen(pages: Pages, top: nat, page: nat, a: nat, x: seq<Byte>)
    requires page !in pages && !Wants(a, x, page) && page * 65536 <= a && a + |x| <= page * 65536 + 65536
    ensures Written(Flat(pages, top), a, x) == Flat(pages, top)
  {
    forall b: nat | a <= b < a + |x| && b < top ensures x[b - a] == 0 && ByteAt(pages, b) == 0 {
      PlaceOf(page, b - page * 65536);
      assert (a + (b - a)) / 65536 == page;
    }
  }

  /** Writing the data in two parts. */
  lemma WrittenOn(m: seq<Byte>, at: nat, b: seq<Byte>, n: nat, k: nat)
    requires n + k <= |b|
    ensures Written(Written(m, at, b[..n]), at + n, b[n..n + k]) == Written(m, at, b[..n + k])
  {
  }

  /** What a write does, piece by piece or at once: it fails outside the memory,
      leaving everything, or for want of budget, having written a part; it
      succeeds exactly when the pages it has to make fit the budget. */
  ghost predicate Wrote(pages: Pages, used: nat, now: Pages, cap: nat, top: nat, at: int, b: seq<Byte>, r: Status) {
    if at < 0 || at + |b| > top then r == Range && now == pages
    else if Affordable(pages, used, cap, at, b) then r == Ok && Flat(now, top) == Written(Flat(pages, top), at, b)
    else r == NoMemory && exists n {:trigger b[..n]} ::
        0 <= n <= |b| && Flat(now, top) == Written(Flat(pages, top), at, b[..n])
  }

  predicate SomeNonzero(x: seq<Byte>) {
    exists i {:trigger x[i]} :: 0 <= i < |x| && x[i] != 0
  }

  lemma SomeWanted(page: nat, off: nat, x: seq<Byte>, a: nat)
    requires off + |x| <= 65536 && a == page * 65536 + off
    ensures Wants(a, x, page) <==> SomeNonzero(x)
  {
    forall i {:trigger x[i]} | 0 <= i < |x| ensures (a + i) / 65536 == page { PlaceOf(page, off + i); }
  }

  /** The bytes are those of the memory from `a` on. */
  ghost predicate ReadFrom(pages: Pages, a: nat, out: seq<Byte>) {
    forall i {:trigger out[i]} :: 0 <= i < |out| ==> out[i] == ByteAt(pages, a + i)
  }

  lemma ReadOn(pages: Pages, at: nat, out: seq<Byte>, page: nat, off: nat, part: seq<Byte>)
    requires ReadFrom(pages, at, out) && at + |out| == page * 65536 + off && off + |part| <= 65536
    requires |PageOf(pages, page)| == 65536 && part == PageOf(pages, page)[off..off + |part|]
    ensures ReadFrom(pages, at, out + part)
  {
    forall i {:trigger (out + part)[i]} | 0 <= i < |out + part| ensures (out + part)[i] == ByteAt(pages, at + i) {
      if i >= |out| { PlaceOf(page, off + (i - |out|)); }
    }
  }

  lemma ReadIs(pages: Pages, top: nat, at: nat, out: seq<Byte>)
    requires ReadFrom(pages, at, out) && at + |out| <= top
    ensures out == Flat(pages, top)[at..at + |out|]
  {
  }

  // --- dropping a range

  /** The page lies wholly in the range. */
  predicate Whole(p: nat, at: nat, n: nat) {
    at <= p * 65536 && p * 65536 + 65536 <= at + n
  }

  /** Dropping a range has come to page `stop`: the range is zero below it, and
      the pages below it that lie wholly in the range are gone. */
  ghost predicate Cleared(was: Pages, now: Pages, at: nat, n: nat, stop: nat) {
    && (forall p: nat {:trigger p in now} :: p in now <==> p in was && !(Whole(p, at, n) && p < stop))
    && (forall a: nat {:trigger ByteAt(now, a)} :: ByteAt(now, a) ==
          if at <= a < at + n && a / 65536 < stop then 0 else ByteAt(was, a))
  }

  /** A page without the bytes [low, high), or no page at all. */
  function Dropped(pages: Pages, p: nat, low: nat, high: nat): Pages
    requires low <= high && p in pages && high <= |pages[p]|
  {
    if low == 0 && high == 65536 then pages - {p} else pages[p := Overlaid(pages[p], low, Zeros(high - low))]
  }

  lemma DroppedByte(pages: Pages, p: nat, low: nat, high: nat, a: nat)
    requires low <= high <= 65536 && p in pages && |pages[p]| == 65536
    ensures ByteAt(Dropped(pages, p, low, high), a) ==
            if a / 65536 == p && low <= a % 65536 < high then 0 else ByteAt(pages, a)
  {
  }

  lemma ClearedMore(was: Pages, now: Pages, next: Pages, at: nat, n: nat, p: nat, low: nat, high: nat)
    requires Cleared(was, now, at, n, p) && at / 65536 <= p <= (at + n - 1) / 65536 && 0 < n
    requires low == (if at > p * 65536 then at - p * 65536 else 0)
    requires high == if at + n < p * 65536 + 65536 then at + n - p * 65536 else 65536
    requires p in now ==> |now[p]| == 65536 && low <= high && next == Dropped(now, p, low, high)
    requires p !in now ==> next == now
    ensures Cleared(was, next, at, n, p + 1)
  {
    forall a: nat ensures ByteAt(next, a) == if at <= a < at + n && a / 65536 < p + 1 then 0 else ByteAt(was, a) {
      if p in now { DroppedByte(now, p, low, high, a); }
      assert a == a / 65536 * 65536 + a % 65536;
      if a / 65536 == p && p !in now { assert ByteAt(now, a) == 0; }
    }
    assert Whole(p, at, n) <==> low == 0 && high == 65536;
  }

  lemma AllCleared(was: Pages, now: Pages, top: nat, at: nat, n: nat)
    requires 0 < n && Cleared(was, now, at, n, (at + n - 1) / 65536 + 1)
    ensures Flat(now, top) == Zeroed(Flat(was, top), at, at + n)
    ensures forall p: nat :: p in now <==> p in was && !Whole(p, at, n)
  {
    forall p: nat | Whole(p, at, n) ensures p < (at + n - 1) / 65536 + 1 { PlaceOf(p, 65535); }
  }

  lemma RemovedSize(pages: Pages, p: nat)
    requires p in pages
    ensures |pages - {p}| == |pages| - 1
  {
    assert pages.Keys == (pages - {p}).Keys + {p};
  }

  /** The first `n` bytes of the data are written, and the pages they want are there. */
  ghost predicate UpTo(was: Pages, now: Pages, top: nat, at: nat, b: seq<Byte>, n: nat) {
    && n <= |b| && Flat(now, top) == Written(Flat(was, top), at, b[..n])
    && forall p: nat {:trigger p in now} :: p in now <==> p in was || Wants(at, b[..n], p)
  }

  /** The pages are the same, but `page` has come in if it was wanted. */
  ghost predicate Joined(was: Pages, now: Pages, page: nat, wanted: bool) {
    forall p: nat {:trigger p in now} :: p in now <==> p in was || (p == page && wanted)
  }

  lemma UpToNone(pages: Pages, top: nat, at: nat, b: seq<Byte>)
    ensures UpTo(pages, pages, top, at, b, 0)
  {
    assert b[..0] == [];
  }

  lemma UpToMore(was: Pages, now: Pages, next: Pages, top: nat, at: nat, b: seq<Byte>, n: nat, k: nat, page: nat,
                 x: seq<Byte>)
    requires UpTo(was, now, top, at, b, n) && n + k <= |b| && 0 < k && x == b[n..n + k]
    requires (at + n) / 65536 == page && (at + n + k - 1) / 65536 == page
    requires Flat(next, top) == Written(Flat(now, top), at + n, x)
    requires Joined(now, next, page, Wants(at + n, x, page))
    ensures UpTo(was, next, top, at, b, n + k)
  {
    forall p: nat ensures p in next <==> p in was || Wants(at, b[..n + k], p) { PieceWanted(at, b, n, k, page, p); }
    WrittenOn(Flat(was, top), at, b, n, k);
  }

  lemma {:induction false} JoinedSize(a: set<nat>, b: set<nat>)
    requires a !! b
    ensures |a + b| == |a| + |b|
  {
  }

  /** Every page made was missing, so the write could pay for all it wanted ... */
  lemma Paid(was: Pages, before: nat, now: Pages, used: nat, cap: nat, top: nat, at: nat, b: seq<Byte>)
    requires UpTo(was, now, top, at, b, |b|) && Proper(was, before, cap) && Proper(now, used, cap)
    ensures Affordable(was, before, cap, at, b)
  {
    assert b[..|b|] == b;
    assert now.Keys == was.Keys + Missing(was, at, b);
    JoinedSize(was.Keys, Missing(was, at, b));
  }

  /** ... or one page more than it could pay for. */
  lemma Unpaid(was: Pages, before: nat, now: Pages, used: nat, cap: nat, top: nat, at: nat, b: seq<Byte>, n: nat,
               k: nat, page: nat, x: seq<Byte>)
    requires UpTo(was, now, top, at, b, n) && Proper(was, before, cap) && Proper(now, used, cap)
    requires n + k <= |b| && 0 < k && (at + n) / 65536 == page && (at + n + k - 1) / 65536 == page
    requires page !in now && x == b[n..n + k] && Wants(at + n, x, page) && used + 65536 > cap
    ensures !Affordable(was, before, cap, at, b)
  {
    forall p: nat | p in now || p == page ensures p in was.Keys + Missing(was, at, b) {
      PieceWanted(at, b, n, k, page, p);
    }
    Fewer(now.Keys + {page}, was.Keys + Missing(was, at, b));
    JoinedSize(now.Keys, {page});
    JoinedSize(was.Keys, Missing(was, at, b));
  }

  /** A piece that lies in one page is a whole write. */
  lemma PieceWrote(was: Pages, before: nat, now: Pages, used: nat, cap: nat, top: nat, at: nat, b: seq<Byte>, ok: bool)
    requires Proper(was, before, cap) && Proper(now, used, cap)
    requires 0 < |b| && at + |b| <= top && at / 65536 == (at + |b| - 1) / 65536
    requires ok == (at / 65536 in was || !Wants(at, b, at / 65536) || before + 65536 <= cap)
    requires Flat(now, top) == if ok then Written(Flat(was, top), at, b) else Flat(was, top)
    requires Joined(was, now, at / 65536, ok && Wants(at, b, at / 65536)) && (!ok ==> now == was)
    ensures Wrote(was, before, now, cap, top, at, b, if ok then Ok else NoMemory)
  {
    UpToNone(was, top, at, b);
    assert b[0..|b|] == b == b[..|b|];
    if ok {
      UpToMore(was, was, now, top, at, b, 0, |b|, at / 65536, b);
      Paid(was, before, now, used, cap, top, at, b);
    } else {
      Unpaid(was, before, was, before, cap, top, at, b, 0, |b|, at / 65536, b);
      assert Flat(now, top) == Written(Flat(was, top), at, b[..0]);
    }
  }

  const FOLDS := 3

  /** `UpTo`, kept folded for the loop. */
  ghost predicate Folded(was: Pages, now: Pages, top: nat, at: nat, b: seq<Byte>, n: nat, folds: nat) {
    if folds == 0 then UpTo(was, now, top, at, b, n) else Folded(was, now, top, at, b, n, folds - 1)
  }

  lemma Unfold(was: Pages, now: Pages, top: nat, at: nat, b: seq<Byte>, n: nat, folds: nat)
    ensures Folded(was, now, top, at, b, n, folds) <==> UpTo(was, now, top, at, b, n)
  {
  }

  /** What one piece of a write comes to. */
  lemma PieceTaken(was: Pages, before: nat, now: Pages, used: nat, next: Pages, spent: nat, cap: nat, top: nat, at: nat,
                   b: seq<Byte>, n: nat, k: nat, page: nat, x: seq<Byte>, ok: bool)
    requires Folded(was, now, top, at, b, n, FOLDS) && Proper(was, before, cap) && Proper(now, used, cap)
    requires n + k <= |b| && 0 < k && x == b[n..n + k]
    requires (at + n) / 65536 == page && (at + n + k - 1) / 65536 == page
    requires ok == (page in now || !Wants(at + n, x, page) || used + 65536 <= cap)
    requires Flat(next, top) == if ok then Written(Flat(now, top), at + n, x) else Flat(now, top)
    requires Joined(now, next, page, ok && Wants(at + n, x, page)) && (!ok ==> next == now)
    ensures if ok then Folded(was, next, top, at, b, n + k, FOLDS) else !Affordable(was, before, cap, at, b)
  {
    Unfold(was, now, top, at, b, n, FOLDS);
    if ok {
      UpToMore(was, now, next, top, at, b, n, k, page, x);
      Unfold(was, next, top, at, b, n + k, FOLDS);
    } else {
      Unpaid(was, before, now, used, cap, top, at, b, n, k, page, x);
    }
  }

  // --- numbers

  /** The low bytes of a number, in two's complement. */
  function AsUint(value: int, size: nat): nat {
    value % Pow256(size)
  }

  function Bytes(x: nat, size: nat): (b: seq<Byte>)
    ensures |b| == size
  {
    seq(size, i requires 0 <= i < size => ByteOf(x, i))
  }

  lemma {:induction false} ZeroDigits(x: nat, size: nat)
    requires x < Pow256(size) && forall i: nat :: i < size ==> ByteOf(x, i) == 0
    ensures x == 0
  {
    if size > 0 {
      forall i: nat | i < size - 1 ensures ByteOf(x / 256, i) == 0 { assert ByteOf(x, i + 1) == 0; }
      ZeroDigits(x / 256, size - 1);
      assert ByteOf(x, 0) == 0;
    }
  }

  lemma {:induction i} DigitOfZero(i: nat)
    ensures ByteOf(0, i) == 0
  {
  }

  /** A number is not zero exactly when one of its bytes is not. */
  lemma BytesNonzero(x: nat, size: nat)
    requires x < Pow256(size)
    ensures x != 0 <==> SomeNonzero(Bytes(x, size))
  {
    var b := Bytes(x, size);
    if x == 0 {
      forall i | 0 <= i < size ensures b[i] == 0 { DigitOfZero(i); }
    } else if forall i :: 0 <= i < size ==> b[i] == 0 {
      forall i: nat | i < size ensures ByteOf(x, i) == 0 { assert b[i] == 0; }
      ZeroDigits(x, size);
    }
  }

  /** Put the bytes of a number together, the highest first. */
  method Number(q: seq<Byte>, off: nat, size: nat) returns (r: nat)
    requires off + size <= |q|
    ensures r == Value(q, off, size)
  {
    r := 0;
    var i := size;
    while i > 0
      invariant 0 <= i <= size && r == Value(q, off + i, size - i)
    {
      i := i - 1;
      r := r * 256 + q[off + i];
    }
  }

  lemma {:induction false} SameValue(m: seq<Byte>, a: nat, q: seq<Byte>, off: nat, size: nat)
    requires a + size <= |m| && off + size <= |q|
    requires forall k {:trigger q[k]} :: off <= k < off + size ==> q[k] == m[a + k - off]
    ensures Value(m, a, size) == Value(q, off, size)
    decreases size
  {
    if size > 0 { SameValue(m, a + 1, q, off + 1, size - 1); }
  }

  lemma {:induction false} ZeroValue(q: seq<Byte>, off: nat, size: nat)
    requires off + size <= |q| && forall i :: 0 <= i < |q| ==> q[i] == 0
    ensures Value(q, off, size) == 0
    decreases size
  {
    if size > 0 { ZeroValue(q, off + 1, size - 1); }
  }

  /** A number within one page; an absent page holds zeros. */
  lemma PageNumber(pages: Pages, top: nat, at: nat, page: nat, off: nat, size: nat)
    requires at == page * 65536 + off && off + size <= 65536 && at + size <= top && |PageOf(pages, page)| == 65536
    ensures Value(Flat(pages, top), at, size) == if page in pages then Value(pages[page], off, size) else 0
  {
    var q, m := PageOf(pages, page), Flat(pages, top);
    forall k {:trigger q[k]} | off <= k < off + size ensures q[k] == m[at + k - off] { PlaceOf(page, k); }
    SameValue(m, at, q, off, size);
    if page !in pages { ZeroValue(q, off, size); }
  }

  /** What is stored is what is loaded, modulo the width, and every number that
      does not overlap it stays. */
  lemma StoredThenLoaded(m: seq<Byte>, at: nat, value: int, size: nat, a: nat, n: nat)
    requires at + size <= |m| && a + n <= |m|
    ensures var r := Written(m, at, Bytes(AsUint(value, size), size));
      Value(r, at, size) == AsUint(value, size) && (a + n <= at || at + size <= a ==> Value(r, a, n) == Value(m, a, n))
  {
    var x := AsUint(value, size);
    var r := Written(m, at, Bytes(x, size));
    forall b {:trigger r[b]} | at <= b < at + size ensures r[b] == ByteOf(x, b - at) {
      assert r[b] == Bytes(x, size)[b - at];
    }
    WordRoundTrip(r, at, x, size);
    if a + n <= at || at + size <= a { SameValue(r, a, m, a, n); }
  }

  class Mem64 {
    const top: nat
    const cap: nat
    var pages: Pages
    var used: nat

    ghost predicate Valid()
      reads this
    {
      0x100000 <= top <= MAX_SAFE && 65536 <= cap <= MAX_SAFE && Proper(pages, used, cap)
    }

    constructor (virtualTop: nat, budget: nat)
      requires 0x100000 <= virtualTop <= MAX_SAFE && 65536 <= budget <= MAX_SAFE
      ensures Valid() && top == virtualTop && cap == budget && Flat(pages, top) == Zeros(top)
    {
      top, cap, pages, used := virtualTop, budget, map[], 0;
    }

    /** An empty memory, unless the sizes are bad. */
    static method Create(virtualTop: int, budget: int) returns (m: Mem64?)
      ensures m != null <==> 0x100000 <= virtualTop <= MAX_SAFE && 65536 <= budget <= MAX_SAFE
      ensures m != null ==> fresh(m) && m.Valid() && m.top == virtualTop && m.cap == budget &&
                            Flat(m.pages, m.top) == Zeros(m.top)
    {
      if virtualTop < 0x100000 || virtualTop > MAX_SAFE || budget < 65536 || budget > MAX_SAFE { return null; }
      m := new Mem64(virtualTop, budget);
    }

    predicate Inside(at: int, n: nat) {
      0 <= at && at + n <= top
    }

    method Make(p: nat) returns (ok: bool)
      requires Valid() && p !in pages
      modifies this
      ensures Valid() && ok == (old(used) + 65536 <= cap)
      ensures pages == if ok then old(pages)[p := Zeros(65536)] else old(pages)
      ensures used == old(used) + if ok then 65536 else 0
    {
      if used + 65536 > cap { return false; }
      pages := pages[p := Zeros(65536)];
      used := used + 65536;
      return true;
    }

    method Read(at: int, n: nat) returns (out: seq<Byte>, ok: bool)
      requires Valid()
      ensures ok <==> Inside(at, n)
      ensures ok ==> out == Flat(pages, top)[at..at + n]
    {
      out := [];
      if !Inside(at, n) { return [], false; }
      while |out| < n
        invariant |out| <= n && ReadFrom(pages, at, out)
      {
        var here := at + |out|;
        var page, off, left := here / 65536, here % 65536, n - |out|;
        var len := if left < 65536 - off then left else 65536 - off;
        var part := if page in pages then pages[page][off..off + len] else Zeros(len);
        ReadOn(pages, at, out, page, off, part);
        out := out + part;
      }
      ReadIs(pages, top, at, out);
      return out, true;
    }

    /** Put bytes into one page, which is made only if they are not all zero. */
    method PutPiece(page: nat, off: nat, x: seq<Byte>, wanted: bool, ghost a: nat) returns (ok: bool)
      requires Valid() && off + |x| <= 65536 && a == page * 65536 + off && wanted == Wants(a, x, page)
      modifies this
      ensures Valid()
      ensures ok == (page in old(pages) || !wanted || old(used) + 65536 <= cap)
      ensures Flat(pages, top) == if ok then Written(old(Flat(pages, top)), a, x) else old(Flat(pages, top))
      ensures Joined(old(pages), pages, page, ok && wanted)
      ensures !ok ==> pages == old(pages) && used == old(used)
    {
      ghost var was := pages;
      if page !in pages && wanted {
        ok := Make(page);
        if !ok { return; }
      }
      if page in pages {
        PageWritten(was, top, page, off, x, a);
        pages := pages[page := Overlaid(pages[page], off, x)];
        assert pages == was[page := Overlaid(PageOf(was, page), off, x)];
      } else {
        ZerosUnseen(pages, top, page, a, x);
      }
      ok := true;
    }

    /** Write as much of the rest of the data as lies in one page. */
    method WriteNext(at: nat, b: seq<Byte>, p: nat, ghost was: Pages, ghost before: nat) returns (len: nat, ok: bool)
      requires Valid() && p < |b| && at + |b| <= top && Proper(was, before, cap) &&
               Folded(was, pages, top, at, b, p, FOLDS)
      modifies this
      ensures Valid() && 0 < len <= |b| - p
      ensures if ok then Folded(was, pages, top, at, b, p + len, FOLDS)
              else !Affordable(was, before, cap, at, b) && pages == old(pages)
    {
      var page, off := (at + p) / 65536, (at + p) % 65536;
      len := if |b| - p < 65536 - off then |b| - p else 65536 - off;
      ghost var now, spent := pages, used;
      var x := b[p..p + len];
      SomeWanted(page, off, x, at + p);
      ok := PutPiece(page, off, x, SomeNonzero(x), at + p);
      PieceTaken(was, before, now, spent, pages, used, cap, top, at, b, p, len, page, x, ok);
    }

    method Write(at: int, b: seq<Byte>) returns (r: Status)
      requires Valid()
      modifies this
      ensures Valid() && Wrote(old(pages), old(used), pages, cap, top, at, b, r)
    {
      if !Inside(at, |b|) { return Range; }
      ghost var was, before := pages, used;
      var p := 0;
      UpToNone(pages, top, at, b);
      Unfold(pages, pages, top, at, b, 0, FOLDS);
      while p < |b|
        invariant 0 <= p <= |b| && Valid() && Folded(was, pages, top, at, b, p, FOLDS)
      {
        var len, ok := WriteNext(at, b, p, was, before);
        if !ok {
          Unfold(was, pages, top, at, b, p, FOLDS);
          return NoMemory;
        }
        p := p + len;
      }
      Unfold(was, pages, top, at, b, p, FOLDS);
      Paid(was, before, pages, used, cap, top, at, b);
      assert b[..p] == b;
      return Ok;
    }

    /** Store the low bytes of a number: straight into its page, or through
        `Write` when it crosses into the next one. */
    method Set(at: int, value: int, size: nat) returns (r: Status)
      requires Valid() && size in {1, 2, 4, 8}
      modifies this
      ensures Valid() && Wrote(old(pages), old(used), pages, cap, top, at, Bytes(AsUint(value, size), size), r)
    {
      if !Inside(at, size) { return Range; }
      var off, x := at % 65536, AsUint(value, size);
      var b := Bytes(x, size);
      if off > 65536 - size {
        r := Write(at, b);
        return;
      }
      ghost var was, before := pages, used;
      BytesNonzero(x, size);
      SomeWanted(at / 65536, off, b, at);
      var ok := PutPiece(at / 65536, off, b, x != 0, at);
      PieceWrote(was, before, pages, used, cap, top, at, b, ok);
      r := if ok then Ok else NoMemory;
    }

    /** Load a little-endian number: straight from its page, or through `Read`
        when it crosses into the next one. */
    method Load(at: int, size: nat) returns (r: nat, ok: bool)
      requires Valid() && size in {1, 2, 4, 8}
      ensures ok <==> Inside(at, size)
      ensures ok ==> r == Value(Flat(pages, top), at, size)
    {
      r := 0;
      if !Inside(at, size) { return 0, false; }
      var off, page := at % 65536, at / 65536;
      if off > 65536 - size {
        var b, _ := Read(at, size);
        r := Number(b, 0, size);
        SameValue(Flat(pages, top), at, b, 0, size);
      } else {
        PageNumber(pages, top, at, page, off, size);
        if page in pages { r := Number(pages[page], off, size); }
      }
      ok := true;
    }

    /** Zero a part of a page; a page dropped whole goes away. */
    method DropPart(p: nat, low: nat, high: nat)
      requires Valid() && p in pages && low <= high <= 65536
      modifies this
      ensures Valid() && pages == Dropped(old(pages), p, low, high)
    {
      if low == 0 && high == 65536 {
        RemovedSize(pages, p);
        pages := pages - {p};
        used := used - 65536;
      } else {
        pages := pages[p := Overlaid(pages[p], low, Zeros(high - low))];
      }
    }

    /** Drop what the range holds of one page. */
    method DropPage(p: nat, at: nat, n: nat, ghost was: Pages)
      requires Valid() && 0 < n && at / 65536 <= p <= (at + n - 1) / 65536 && Cleared(was, pages, at, n, p)
      modifies this
      ensures Valid() && Cleared(was, pages, at, n, p + 1)
    {
      var base, end := p * 65536, at + n;
      var low := if at > base then at - base else 0;
      var high := if end < base + 65536 then end - base else 65536;
      ghost var now := pages;
      if p in pages { DropPart(p, low, high); }
      ClearedMore(was, now, pages, at, n, p, low, high);
    }

    method Drop(at: int, n: nat) returns (ok: bool)
      requires Valid()
      modifies this
      ensures Valid() && ok == Inside(at, n)
      ensures Flat(pages, top) == if ok then Zeroed(old(Flat(pages, top)), at, at + n) else old(Flat(pages, top))
      ensures forall p: nat :: p in pages <==> p in old(pages) && !(ok && Whole(p, at, n))
    {
      if !Inside(at, n) { return false; }
      ok := true;
      ghost var was := pages;
      if n == 0 { return; }
      var p, last := at / 65536, (at + n - 1) / 65536;
      while p <= last
        invariant at / 65536 <= p <= last + 1 && Valid() && Cleared(was, pages, at, n, p)
      {
        DropPage(p, at, n, was);
        p := p + 1;
      }
      AllCleared(was, pages, top, at, n);
    }
  }
}
