/** Path resolution piece by piece: what a path does is what its first part does,
    followed by what the rest does from there. */
module VfsNaming {
  import opened Frames
  import opened VfsImages
  import opened VfsPaths
  import opened VfsResolving

  /** All bytes are slashes, and there is one. */
  predicate Slashes(s: seq<Byte>) {
    s != [] && forall k :: 0 <= k < |s| ==> s[k] == SLASH
  }

  /** What becomes of a walk after one step, with the path behind `end` still to go. */
  ghost function After(t: Tree, c: Credentials, p: seq<Byte>, end: nat, step: Step, follow: bool, hops: nat): int
    requires end <= |p| && 0 < |p| && hops <= 32
  {
    match step
    case Ends(r) => r
    case GoesOn(id) => Walk(t, c, p, end, id, follow, hops)
  }

  // --- the front of a path

  ghost predicate Starts(p: seq<Byte>, w: seq<Byte>) {
    && 0 < |p| < |w| && p[|p| - 1] != SLASH && w[|p|] == SLASH
    && forall k :: 0 <= k < |p| ==> w[k] == p[k]
  }

  lemma {:induction false} SlashesFront(p: seq<Byte>, w: seq<Byte>, cursor: nat)
    requires Starts(p, w) && cursor < |p|
    ensures SkipSlashes(w, cursor) == SkipSlashes(p, cursor) < |p|
    decreases |p| - cursor
  {
    if p[cursor] == SLASH { SlashesFront(p, w, cursor + 1); }
  }

  lemma {:induction false} PartFront(p: seq<Byte>, w: seq<Byte>, at: nat)
    requires Starts(p, w) && at <= |p|
    ensures PartEnd(w, at) == PartEnd(p, at)
    decreases |p| - at
  {
    if at < |p| && p[at] != SLASH { PartFront(p, w, at + 1); }
  }

  lemma SpanFront(p: seq<Byte>, w: seq<Byte>, at: nat, end: nat)
    requires Starts(p, w) && at <= end <= |p|
    ensures Span(w, at, end - at) == Span(p, at, end - at)
  {
  }

  /** Walking a longer path first walks its front, through every link. */
  lemma {:induction false} WalkFront(t: Tree, c: Credentials, p: seq<Byte>, w: seq<Byte>, cursor: nat, current: nat,
                                     follow: bool, hops: nat, m: int)
    requires Starts(p, w) && cursor <= |p| && hops <= 32 && m == Walk(t, c, p, cursor, current, true, hops)
    ensures Walk(t, c, w, cursor, current, follow, hops) == if m < 0 then m else Walk(t, c, w, |p|, m, follow, hops)
    decreases |p| - cursor
  {
    if cursor < |p| {
      SlashesFront(p, w, cursor);
      var at := SkipSlashes(p, cursor);
      PartFront(p, w, at);
      var end := PartEnd(p, at);
      SpanFront(p, w, at, end);
      var text := Span(p, at, end - at);
      WalkPart(t, c, p, cursor, at, end, text, current, true, hops);
      WalkPart(t, c, w, cursor, at, end, text, current, follow, hops);
      var step := PartStep(t, c, text, current, true, hops);
      if step.GoesOn? { WalkFront(t, c, p, w, end, step.node, follow, hops, m); }
    } else {
      AtEnd(t, c, p, current, true, hops);
    }
  }

  lemma AtEnd(t: Tree, c: Credentials, p: seq<Byte>, current: nat, follow: bool, hops: nat)
    requires 0 < |p| && hops <= 32
    ensures Walk(t, c, p, |p|, current, follow, hops) ==
            if p[|p| - 1] == SLASH && KindOf(t, current) != DIRECTORY then NOT_DIRECTORY else current
  {
  }

  // --- the back of a path

  const ENDS := 3

  /** The path `q` stands in `w` from `n` to the end; kept folded. */
  ghost predicate EndsWith(w: seq<Byte>, n: nat, q: seq<Byte>, folds: nat) {
    0 < |q| && |w| == n + |q| &&
        if folds == 0 then forall k {:trigger q[k]} :: 0 <= k < |q| ==> w[n + k] == q[k]
        else EndsWith(w, n, q, folds - 1)
  }

  lemma SameByte(w: seq<Byte>, n: nat, q: seq<Byte>, folds: nat)
    requires EndsWith(w, n, q, folds)
    ensures forall k {:trigger q[k]} :: 0 <= k < |q| ==> w[n + k] == q[k]
  {
  }

  lemma Ended(w: seq<Byte>, n: nat, q: seq<Byte>, folds: nat)
    requires 0 < |q| && |w| == n + |q| && forall k {:trigger q[k]} :: 0 <= k < |q| ==> w[n + k] == q[k]
    ensures EndsWith(w, n, q, folds)
  {
  }

  lemma {:induction false} SlashesBack(w: seq<Byte>, n: nat, q: seq<Byte>, cursor: nat)
    requires EndsWith(w, n, q, ENDS) && cursor <= |q|
    ensures SkipSlashes(w, n + cursor) == n + SkipSlashes(q, cursor)
    decreases |q| - cursor
  {
    SameByte(w, n, q, ENDS);
    if cursor < |q| {
      assert w[n + cursor] == q[cursor];
      if q[cursor] == SLASH { SlashesBack(w, n, q, cursor + 1); }
    }
  }

  lemma {:induction false} PartBack(w: seq<Byte>, n: nat, q: seq<Byte>, at: nat)
    requires EndsWith(w, n, q, ENDS) && at <= |q|
    ensures PartEnd(w, n + at) == n + PartEnd(q, at)
    decreases |q| - at
  {
    SameByte(w, n, q, ENDS);
    if at < |q| {
      assert w[n + at] == q[at];
      if q[at] != SLASH { PartBack(w, n, q, at + 1); }
    }
  }

  lemma SpanBack(w: seq<Byte>, n: nat, q: seq<Byte>, at: nat, end: nat)
    requires EndsWith(w, n, q, ENDS) && at <= end <= |q|
    ensures Span(w, n + at, end - at) == Span(q, at, end - at)
  {
    SameByte(w, n, q, ENDS);
    var x, y := Span(w, n + at, end - at), Span(q, at, end - at);
    forall k | 0 <= k < end - at ensures x[k] == y[k] { assert w[n + (at + k)] == q[at + k]; }
  }

  lemma WalkOut(t: Tree, c: Credentials, p: seq<Byte>, cursor: nat, current: nat, follow: bool, hops: nat)
    requires 0 < |p| && cursor <= |p| && hops <= 32 && SkipSlashes(p, cursor) == |p|
    ensures Walk(t, c, p, cursor, current, follow, hops) ==
            if p[|p| - 1] == SLASH && KindOf(t, current) != DIRECTORY then NOT_DIRECTORY else current
  {
  }

  lemma BackOut(t: Tree, c: Credentials, w: seq<Byte>, n: nat, q: seq<Byte>, cursor: nat, current: nat, follow: bool,
                hops: nat)
    requires EndsWith(w, n, q, ENDS) && cursor <= |q| && hops <= 32
    requires SkipSlashes(q, cursor) == |q| && SkipSlashes(w, n + cursor) == |w|
    ensures Walk(t, c, w, n + cursor, current, follow, hops) == Walk(t, c, q, cursor, current, follow, hops)
  {
    SameByte(w, n, q, ENDS);
    WalkOut(t, c, q, cursor, current, follow, hops);
    WalkOut(t, c, w, n + cursor, current, follow, hops);
    assert w[n + (|q| - 1)] == q[|q| - 1];
  }

  lemma WalkThrough(t: Tree, c: Credentials, p: seq<Byte>, cursor: nat, at: nat, end: nat, text: seq<Byte>,
                    current: nat, follow: bool, hops: nat, through: bool)
    requires cursor <= at < end <= |p| && hops <= 32 && at == SkipSlashes(p, cursor) && end == PartEnd(p, at)
    requires text == Span(p, at, end - at) && through == (follow || SkipSlashes(p, end) < |p| || end < |p|)
    ensures Walk(t, c, p, cursor, current, follow, hops) ==
            After(t, c, p, end, PartStep(t, c, text, current, through, hops), follow, hops)
  {
    WalkPart(t, c, p, cursor, at, end, text, current, follow, hops);
  }

  /** The next part is the same in both, and so is what one step does with it. */
  lemma BackStep(t: Tree, c: Credentials, w: seq<Byte>, n: nat, q: seq<Byte>, cursor: nat, at: nat, end: nat,
                 from: nat, next: nat, current: nat, follow: bool, hops: nat, text: seq<Byte>, through: bool)
    requires EndsWith(w, n, q, ENDS) && cursor <= |q| && hops <= 32 && at == SkipSlashes(q, cursor) < |q|
    requires from == n + cursor && next == n + end && SkipSlashes(w, from) == n + at
    requires end == PartEnd(q, at) && text == Span(q, at, end - at)
    requires through == (follow || SkipSlashes(q, end) < |q| || end < |q|)
    ensures Walk(t, c, q, cursor, current, follow, hops) ==
            After(t, c, q, end, PartStep(t, c, text, current, through, hops), follow, hops)
    ensures next <= |w|
    ensures Walk(t, c, w, from, current, follow, hops) ==
            After(t, c, w, next, PartStep(t, c, text, current, through, hops), follow, hops)
  {
    BackPart(w, n, q, at, end, text);
    var at' := n + at;
    WalkThrough(t, c, q, cursor, at, end, text, current, follow, hops, through);
    WalkThrough(t, c, w, from, at', next, text, current, follow, hops, through);
  }

  lemma BackPart(w: seq<Byte>, n: nat, q: seq<Byte>, at: nat, end: nat, text: seq<Byte>)
    requires EndsWith(w, n, q, ENDS) && at <= |q| && end == PartEnd(q, at) && text == Span(q, at, end - at)
    ensures n + end <= |w| == n + |q| && PartEnd(w, n + at) == n + end && text == Span(w, n + at, end - at)
    ensures SkipSlashes(w, n + end) == n + SkipSlashes(q, end)
  {
    PartBack(w, n, q, at);
    SpanBack(w, n, q, at, end);
    SlashesBack(w, n, q, end);
  }

  /** Walking the back of a path is walking it as a path of its own. */
  lemma {:induction false} WalkBack(t: Tree, c: Credentials, w: seq<Byte>, n: nat, q: seq<Byte>, cursor: nat,
                                    from: nat, current: nat, follow: bool, hops: nat, r: int)
    requires EndsWith(w, n, q, ENDS) && cursor <= |q| && hops <= 32 && from == n + cursor
    requires r == Walk(t, c, q, cursor, current, follow, hops)
    ensures Walk(t, c, w, from, current, follow, hops) == r
    decreases |q| - cursor
  {
    SlashesBack(w, n, q, cursor);
    var at := SkipSlashes(q, cursor);
    if at < |q| {
      var end := PartEnd(q, at);
      var text, through, next := Span(q, at, end - at), follow || SkipSlashes(q, end) < |q| || end < |q|, n + end;
      BackStep(t, c, w, n, q, cursor, at, end, from, next, current, follow, hops, text, through);
      var step := PartStep(t, c, text, current, through, hops);
      if step.GoesOn? { WalkBack(t, c, w, n, q, end, next, step.node, follow, hops, r); }
    } else {
      BackOut(t, c, w, n, q, cursor, current, follow, hops);
    }
  }

  ghost predicate AllSlashes(w: seq<Byte>, low: nat, high: nat) {
    high <= |w| && forall k :: low <= k < high ==> w[k] == SLASH
  }

  lemma {:induction false} PastSlashes(w: seq<Byte>, cursor: nat, at: nat)
    requires cursor <= at && AllSlashes(w, cursor, at)
    ensures SkipSlashes(w, cursor) == SkipSlashes(w, at)
    decreases at - cursor
  {
    if cursor < at { PastSlashes(w, cursor + 1, at); }
  }

  lemma WalkPastSlashes(t: Tree, c: Credentials, w: seq<Byte>, cursor: nat, at: nat, current: nat, follow: bool,
                        hops: nat)
    requires 0 < |w| && cursor <= at && hops <= 32 && AllSlashes(w, cursor, at)
    ensures Walk(t, c, w, cursor, current, follow, hops) == Walk(t, c, w, at, current, follow, hops)
  {
    PastSlashes(w, cursor, at);
    var from := SkipSlashes(w, at);
    if from < |w| {
      var end := PartEnd(w, from);
      WalkPart(t, c, w, cursor, from, end, Span(w, from, end - from), current, follow, hops);
      WalkPart(t, c, w, at, from, end, Span(w, from, end - from), current, follow, hops);
    } else {
      WalkOut(t, c, w, cursor, current, follow, hops);
      WalkOut(t, c, w, at, current, follow, hops);
    }
  }

  // --- whole paths

  lemma Joints(p: seq<Byte>, s: seq<Byte>, q: seq<Byte>, w: seq<Byte>)
    requires Slashes(s) && q != [] && w == p + s + q
    ensures AllSlashes(w, |p|, |p| + |s|) && EndsWith(w, |p| + |s|, q, ENDS)
  {
    Ended(w, |p| + |s|, q, ENDS);
  }

  lemma Rest(t: Tree, c: Credentials, w: seq<Byte>, at: nat, n: nat, q: seq<Byte>, current: nat, follow: bool,
             hops: nat)
    requires at <= n && AllSlashes(w, at, n) && EndsWith(w, n, q, ENDS) && hops <= 32
    ensures Walk(t, c, w, at, current, follow, hops) == Walk(t, c, q, 0, current, follow, hops)
  {
    WalkPastSlashes(t, c, w, at, n, current, follow, hops);
    WalkBack(t, c, w, n, q, 0, n, current, follow, hops, Walk(t, c, q, 0, current, follow, hops));
  }

  lemma Front(t: Tree, c: Credentials, start: nat, p: seq<Byte>, s: seq<Byte>, q: seq<Byte>, follow: bool, hops: nat,
              m: int)
    requires p != [] && p[|p| - 1] != SLASH && Slashes(s) && hops <= 32 && m == Resolved(t, c, start, p, true, hops)
    ensures Resolved(t, c, start, p + s + q, follow, hops) == if m < 0 then m
            else Walk(t, c, p + s + q, |p|, m, follow, hops)
  {
    var w := p + s + q;
    assert w[|p|] == s[0];
    var current := if p[0] == SLASH then t.root else start;
    if KindOf(t, current) == DIRECTORY {
      WalkFront(t, c, p, w, 0, current, follow, hops, Walk(t, c, p, 0, current, true, hops));
    }
  }

  /** A path of two pieces: the first is followed through every link, and the second
      is resolved in the directory it leads to.  How many slashes stand between them
      makes no difference. */
  lemma ByPieces(t: Tree, c: Credentials, start: nat, p: seq<Byte>, s: seq<Byte>, q: seq<Byte>, follow: bool, hops: nat,
                 m: int)
    requires p != [] && p[|p| - 1] != SLASH && Slashes(s) && q != [] && q[0] != SLASH
    requires m == Resolved(t, c, start, p, true, hops)
    ensures m < 0 ==> Resolved(t, c, start, p + s + q, follow, hops) == m
    ensures m >= 0 && KindOf(t, m) == DIRECTORY ==>
            Resolved(t, c, start, p + s + q, follow, hops) == Resolved(t, c, m, q, follow, hops)
  {
    if hops <= 32 {
      Front(t, c, start, p, s, q, follow, hops, m);
      if m >= 0 {
        Joints(p, s, q, p + s + q);
        Rest(t, c, p + s + q, |p|, |p| + |s|, q, m, follow, hops);
      }
    }
  }

  /** Behind something that is no directory a name is refused; but the part `.` is
      passed over there too. */
  lemma BelowFile(t: Tree, c: Credentials, start: nat, p: seq<Byte>, s: seq<Byte>, q: seq<Byte>, follow: bool,
                  hops: nat, m: int)
    requires p != [] && p[|p| - 1] != SLASH && Slashes(s) && q != [] && SLASH !in q && q != [DOT, DOT]
    requires m == Resolved(t, c, start, p, true, hops) && m >= 0 && KindOf(t, m) != DIRECTORY
    ensures Resolved(t, c, start, p + s + q, follow, hops) ==
            if q == [DOT] then m else if |q| > 255 then TOO_LONG else NOT_DIRECTORY
  {
    Front(t, c, start, p, s, q, follow, hops, m);
    Joints(p, s, q, p + s + q);
    Rest(t, c, p + s + q, |p|, |p| + |s|, q, m, follow, hops);
    OnlyPart(t, c, q, m, follow, hops);
  }

  /** Neither is it asked before `..` whether this is a directory. */
  lemma DotDotBelow(t: Tree, c: Credentials, start: nat, p: seq<Byte>, s: seq<Byte>, follow: bool, hops: nat, m: int)
    requires p != [] && p[|p| - 1] != SLASH && Slashes(s)
    requires m == Resolved(t, c, start, p, true, hops) && m >= 0
    ensures Resolved(t, c, start, p + s + [DOT, DOT], follow, hops) ==
            if ParentOf(t, m) == 0 then NOT_FOUND else ParentOf(t, m)
  {
    var q := [DOT, DOT];
    Front(t, c, start, p, s, q, follow, hops, m);
    Joints(p, s, q, p + s + q);
    Rest(t, c, p + s + q, |p|, |p| + |s|, q, m, follow, hops);
    OnlyPart(t, c, q, m, follow, hops);
  }

  /** Slashes at the end ask for a directory. */
  lemma SlashesEnd(t: Tree, c: Credentials, start: nat, p: seq<Byte>, s: seq<Byte>, follow: bool, hops: nat, m: int)
    requires p != [] && p[|p| - 1] != SLASH && Slashes(s) && m == Resolved(t, c, start, p, true, hops)
    ensures Resolved(t, c, start, p + s, follow, hops) == if m >= 0 && KindOf(t, m) != DIRECTORY then NOT_DIRECTORY
            else m
  {
    if hops <= 32 {
      assert p + s + [] == p + s;
      Front(t, c, start, p, s, [], follow, hops, m);
      if m >= 0 {
        PastSlashes(p + s, |p|, |p + s|);
        WalkOut(t, c, p + s, |p|, m, follow, hops);
      }
    }
  }

  /** An absolute path is resolved in the root. */
  lemma FromRoot(t: Tree, c: Credentials, start: nat, s: seq<Byte>, q: seq<Byte>, follow: bool, hops: nat)
    requires Slashes(s) && q != [] && q[0] != SLASH
    ensures Resolved(t, c, start, s + q, follow, hops) == Resolved(t, c, t.root, q, follow, hops)
  {
    if hops <= 32 && KindOf(t, t.root) == DIRECTORY {
      assert [] + s + q == s + q;
      Joints([], s, q, s + q);
      Rest(t, c, s + q, 0, |s|, q, t.root, follow, hops);
    }
  }

  lemma RootItself(t: Tree, c: Credentials, start: nat, s: seq<Byte>, follow: bool, hops: nat)
    requires Slashes(s) && hops <= 32 && KindOf(t, t.root) == DIRECTORY
    ensures Resolved(t, c, start, s, follow, hops) == t.root
  {
    PastSlashes(s, 0, |s|);
    WalkOut(t, c, s, 0, t.root, follow, hops);
  }

  /** A walk over one part. */
  lemma OnlyPart(t: Tree, c: Credentials, q: seq<Byte>, current: nat, follow: bool, hops: nat)
    requires q != [] && SLASH !in q && hops <= 32
    ensures Walk(t, c, q, 0, current, follow, hops) ==
            match PartStep(t, c, q, current, follow, hops) case Ends(r) => r case GoesOn(id) => id
  {
    NoSlash(q, 0);
    assert Span(q, 0, |q|) == q;
    WalkPart(t, c, q, 0, 0, |q|, q, current, follow, hops);
    var step := PartStep(t, c, q, current, follow, hops);
    if step.GoesOn? { AtEnd(t, c, q, step.node, follow, hops); }
  }

  lemma {:induction false} NoSlash(q: seq<Byte>, at: nat)
    requires at <= |q| && SLASH !in q
    ensures PartEnd(q, at) == |q| && SkipSlashes(q, at) == at
    decreases |q| - at
  {
    if at < |q| { NoSlash(q, at + 1); }
  }

  /** The part `.` stays where it is. */
  lemma DotStays(t: Tree, c: Credentials, k: nat, follow: bool, hops: nat)
    requires KindOf(t, k) == DIRECTORY && hops <= 32
    ensures Resolved(t, c, k, [DOT], follow, hops) == k
  {
    OnlyPart(t, c, [DOT], k, follow, hops);
  }
}
