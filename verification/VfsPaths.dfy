/** Paths as byte strings: their parts, parents and last names. */
module VfsPaths {
  import opened Frames
  import opened VfsImages

  /** Where the part that starts at `at` ends: at the next slash or the end. */
  function PartEnd(p: seq<Byte>, at: nat): (r: nat)
    requires at <= |p|
    ensures at <= r <= |p| && (r < |p| ==> p[r] == SLASH)
    ensures forall k :: at <= k < r ==> p[k] != SLASH
    decreases |p| - at
  {
    if at == |p| || p[at] == SLASH then at else PartEnd(p, at + 1)
  }

  predicate GoodPart(part: seq<Byte>) {
    part != [] && part != [DOT] && part != [DOT, DOT] && 0 !in part
  }

  /** All parts from `at` on are good. */
  predicate GoodParts(p: seq<Byte>, at: nat)
    requires at <= |p|
    decreases |p| - at
  {
    var end := PartEnd(p, at);
    GoodPart(Span(p, at, end - at)) && (end == |p| || GoodParts(p, end + 1))
  }

  predicate ValidPath(p: seq<Byte>) {
    p == [SLASH] || (|p| > 1 && p[0] == SLASH && GoodParts(p, 1))
  }

  /** The last slash before `n`, or -1. */
  function LastSlash(p: seq<Byte>, n: nat): (r: int)
    requires n <= |p|
    ensures -1 <= r < n && (r >= 0 ==> p[r] == SLASH)
    ensures forall k :: r < k < n ==> p[k] != SLASH
  {
    if n == 0 then -1 else if p[n - 1] == SLASH then n - 1 else LastSlash(p, n - 1)
  }

  function Parent(p: seq<Byte>): seq<Byte> {
    var split := LastSlash(p, |p|);
    if split <= 0 then [SLASH] else Span(p, 0, split)
  }

  function Base(p: seq<Byte>): seq<Byte> {
    Span(p, LastSlash(p, |p|) + 1, |p| - LastSlash(p, |p|) - 1)
  }

  /** The last part of a valid path is a good one. */
  lemma {:induction false} LastPart(p: seq<Byte>, at: nat)
    requires 0 < at <= |p| && p[at - 1] == SLASH && GoodParts(p, at)
    ensures at - 1 <= LastSlash(p, |p|) < |p| - 1 && GoodPart(Base(p))
    decreases |p| - at
  {
    var end := PartEnd(p, at);
    if end == |p| {
      assert LastSlash(p, |p|) == at - 1;
      assert Span(p, at, end - at) == Base(p);
    } else {
      LastPart(p, end + 1);
    }
  }

  /** A path other than the root is its parent, a slash unless the parent is the
      root, and its last name. */
  lemma Split(p: seq<Byte>)
    requires ValidPath(p) && p != [SLASH]
    ensures 0 <= LastSlash(p, |p|) < |p| - 1 && GoodPart(Base(p)) && SLASH !in Base(p)
    ensures p == if Parent(p) == [SLASH] then [SLASH] + Base(p) else Parent(p) + [SLASH] + Base(p)
    ensures |Parent(p)| < |p|
  {
    LastPart(p, 1);
    BaseClean(p);
    if LastSlash(p, |p|) == 0 {
      SplitFirst(p);
    } else {
      NoDoubleSlash(p);
      SplitLater(p);
    }
  }

  lemma SplitFirst(p: seq<Byte>)
    requires LastSlash(p, |p|) == 0
    ensures Parent(p) == [SLASH] && p == [SLASH] + Base(p)
  {
    ParentFirst(p);
    JoinedFirst(p, Base(p));
  }

  lemma ParentFirst(p: seq<Byte>)
    requires LastSlash(p, |p|) == 0
    ensures Parent(p) == [SLASH] && |Base(p)| == |p| - 1 && Base(p) == Span(p, 1, |Base(p)|)
  {
  }

  lemma JoinedFirst(p: seq<Byte>, after: seq<Byte>)
    requires |p| == 1 + |after| && p[0] == SLASH && after == Span(p, 1, |after|)
    ensures p == [SLASH] + after
  {
  }

  lemma SplitLater(p: seq<Byte>)
    requires 0 < LastSlash(p, |p|) < |p| - 1 && p[1] != SLASH && p[0] == SLASH
    ensures Parent(p) != [SLASH] && p == Parent(p) + [SLASH] + Base(p) && |Parent(p)| < |p|
  {
    var s := LastSlash(p, |p|);
    assert s != 1;
    Joined(p, Span(p, 0, s), Base(p));
    assert |Parent(p)| == s;
  }

  lemma BaseClean(p: seq<Byte>)
    ensures SLASH !in Base(p)
  {
    var b, s := Base(p), LastSlash(p, |p|) + 1;
    forall k | 0 <= k < |b| ensures b[k] != SLASH {
      assert b[k] == p[s + k];
    }
  }

  lemma NoDoubleSlash(p: seq<Byte>)
    requires |p| > 1 && GoodParts(p, 1)
    ensures p[1] != SLASH
  {
    assert Span(p, 1, 0) == [];
  }

  lemma Joined(p: seq<Byte>, before: seq<Byte>, after: seq<Byte>)
    requires |p| == |before| + 1 + |after| && p[|before|] == SLASH
    requires before == Span(p, 0, |before|) && after == Span(p, |before| + 1, |after|)
    ensures p == before + [SLASH] + after
  {
  }

  /** Parent and last name determine the path. */
  lemma SameSplit(p: seq<Byte>, q: seq<Byte>)
    requires ValidPath(p) && ValidPath(q) && p != [SLASH] && q != [SLASH] && Parent(p) == Parent(q) &&
             Base(p) == Base(q)
    ensures p == q
  {
    Split(p);
    Split(q);
  }
}
