/** Resolving paths in a loaded tree. */
module VfsResolving {
  import opened Frames
  import opened VfsImages
  import opened VfsPaths
  import opened VfsLoading

  datatype Credentials = Credentials(uid: nat, gid: nat, groups: seq<nat>)

  const NOT_PERMITTED := -13
  const INVALID := -22
  const NOT_FOUND := -2
  const NOT_DIRECTORY := -20
  const TOO_LONG := -36
  const TOO_MANY_LINKS := -40

  ghost function KindOf(t: Tree, id: nat): nat {
    if id in t.nodes then t.nodes[id].kind else 0
  }

  /** The node that the first entry of this name, from number `i` on, names. */
  ghost function FirstChild(names: seq<Name>, parent: nat, text: seq<Byte>, i: nat): nat
    requires i <= |names|
    decreases |names| - i
  {
    if i == |names| then 0
    else if names[i].parent == parent && names[i].text == text then names[i].child
    else FirstChild(names, parent, text, i + 1)
  }

  ghost function Child(t: Tree, parent: nat, text: seq<Byte>): nat {
    if ValidName(text) then FirstChild(t.names, parent, text, 0) else 0
  }

  ghost function FirstParent(names: seq<Name>, child: nat, i: nat): nat
    requires i <= |names|
    decreases |names| - i
  {
    if i == |names| then 0 else if names[i].child == child then names[i].parent else FirstParent(names, child, i + 1)
  }

  ghost function ParentOf(t: Tree, id: nat): nat {
    if id == t.root then t.root else FirstParent(t.names, id, 0)
  }

  function Shifted(uid: nat, gid: nat, c: Credentials, mode: nat): nat {
    if c.uid == uid then mode / 64 else if c.gid == gid || gid in c.groups then mode / 8 else mode
  }

  /** May a directory be searched?  User 0 always may. */
  ghost predicate MaySearch(t: Tree, c: Credentials, id: nat) {
    c.uid == 0 || (id in t.nodes && Shifted(t.nodes[id].uid, t.nodes[id].gid, c, t.nodes[id].mode) % 2 == 1)
  }

  function SkipSlashes(p: seq<Byte>, at: nat): (r: nat)
    requires at <= |p|
    ensures at <= r <= |p| && (r < |p| ==> p[r] != SLASH)
    ensures forall k :: at <= k < r ==> p[k] == SLASH
    decreases |p| - at
  {
    if at == |p| || p[at] != SLASH then at else SkipSlashes(p, at + 1)
  }

  function HopsLeft(hops: nat): nat {
    if hops > 32 then 0 else 33 - hops
  }

  ghost function Resolved(t: Tree, c: Credentials, start: nat, p: seq<Byte>, follow: bool, hops: nat): int
    decreases HopsLeft(hops), |p| + 2
  {
    if hops > 32 then TOO_MANY_LINKS
    else
      var current := if p != [] && p[0] == SLASH then t.root else start;
      if KindOf(t, current) != DIRECTORY then NOT_DIRECTORY
      else if p == [] then NOT_FOUND
      else Walk(t, c, p, 0, current, follow, hops)
  }

  /** Resolving what is left of `p` after `cursor`, in `current`. */
  ghost function Walk(t: Tree, c: Credentials, p: seq<Byte>, cursor: nat, current: nat, follow: bool, hops: nat): int
    requires cursor <= |p| && 0 < |p| && hops <= 32
    decreases HopsLeft(hops), |p| - cursor + 1
  {
    var at := SkipSlashes(p, cursor);
    if at == |p| then
      (if p[|p| - 1] == SLASH && KindOf(t, current) != DIRECTORY then NOT_DIRECTORY else current)
    else
      var end := PartEnd(p, at);
      var text := Span(p, at, end - at);
      if |text| > 255 then TOO_LONG
      else if text == [DOT] then Walk(t, c, p, end, current, follow, hops)
      else if text == [DOT, DOT] then
        (if ParentOf(t, current) == 0 then NOT_FOUND else Walk(t, c, p, end, ParentOf(t, current), follow, hops))
      else
        var entered := Entered(t, c, current, text, follow || SkipSlashes(p, end) < |p| || end < |p|, hops);
        if entered < 0 then entered else Walk(t, c, p, end, entered, follow, hops)
  }

  /** The child of this name, or where its link leads if it is one to go through. */
  ghost function Entered(t: Tree, c: Credentials, current: nat, text: seq<Byte>, through: bool, hops: nat): int
    requires hops <= 32
    decreases HopsLeft(hops), 0
  {
    if KindOf(t, current) != DIRECTORY then NOT_DIRECTORY
    else if !MaySearch(t, c, current) then NOT_PERMITTED
    else
      var child := Child(t, current, text);
      if child == 0 then NOT_FOUND
      else if KindOf(t, child) == LINK && through then
        var target := t.nodes[child].data;
        if target == [] || |target| > 4096 then NOT_FOUND
        else Resolved(t, c, if target[0] == SLASH then t.root else current, target, true, hops + 1)
      else child
  }

  // --- the kernel's loops

  method Search(v: Vfs, c: Credentials, id: nat) returns (ok: bool)
    requires v.Valid() && id in v.nodes
    ensures ok <==> MaySearch(v.Contents(), c, id)
  {
    Unfold(v.inodes[..], v.dentries[..], v.data[..], v.next, v.nodes, v.names, FOLDS);
    if c.uid == 0 { return true; }
    var state := v.inodes[id];
    var member := state.gid == c.gid;
    var index := 0;
    while index < |c.groups| && !member
      invariant 0 <= index <= |c.groups|
      invariant member <==> state.gid == c.gid || state.gid in c.groups[..index]
    {
      assert c.groups[..index + 1] == c.groups[..index] + [c.groups[index]];
      member := c.groups[index] == state.gid;
      index := index + 1;
    }
    assert c.groups[..|c.groups|] == c.groups;
    assert member <==> state.gid == c.gid || state.gid in c.groups by {
      if member { assert state.gid == c.gid || state.gid in c.groups[..index]; }
    }
    ok := (if c.uid == state.uid then state.mode / 64 else if member then state.mode / 8 else state.mode) % 2 == 1;
  }

  method FindChild(v: Vfs, parent: nat, bytes: array<Byte>, at: nat, size: nat, ghost text: seq<Byte>)
    returns (child: nat)
    requires v.Valid() && v.loaded && at + size <= bytes.Length && text == Span(bytes[..], at, size)
    ensures child == Child(v.Contents(), parent, text)
  {
    var valid := Vfs.IsName(bytes, at, size);
    if !valid { return 0; }
    var hash := Vfs.HashBytes(bytes, at, size);
    Unfold(v.inodes[..], v.dentries[..], v.data[..], v.next, v.nodes, v.names, FOLDS);
    var index := 0;
    while index < v.dentryCount
      invariant 0 <= index <= v.dentryCount
      invariant FirstChild(v.names, parent, text, 0) == FirstChild(v.names, parent, text, index)
    {
      if v.dentries[index].parent == parent {
        var same := v.SameName(index, bytes, at, size, hash);
        if same { return v.dentries[index].inode; }
      }
      index := index + 1;
    }
    return 0;
  }

  method FindParent(v: Vfs, id: nat) returns (parent: nat)
    requires v.Valid() && v.loaded
    ensures parent == ParentOf(v.Contents(), id)
  {
    if id == v.root { return id; }
    Unfold(v.inodes[..], v.dentries[..], v.data[..], v.next, v.nodes, v.names, FOLDS);
    var index := 0;
    while index < v.dentryCount
      invariant 0 <= index <= v.dentryCount
      invariant FirstParent(v.names, id, 0) == FirstParent(v.names, id, index)
    {
      if v.dentries[index].inode == id { return v.dentries[index].parent; }
      index := index + 1;
    }
    return 0;
  }

  method FindKind(v: Vfs, id: nat) returns (kind: nat)
    requires v.Valid()
    ensures kind == if v.loaded then KindOf(v.Contents(), id) else 0
  {
    if !v.loaded || id == 0 || id >= INODE_CAPACITY {
      Unfold(v.inodes[..], v.dentries[..], v.data[..], v.next, v.nodes, v.names, FOLDS);
      return 0;
    }
    Unfold(v.inodes[..], v.dentries[..], v.data[..], v.next, v.nodes, v.names, FOLDS);
    kind := v.inodes[id].kind;
  }

  /** Is there anything but slashes from `at` on? */
  method MoreComponents(bytes: array<Byte>, at: nat, end: nat, ghost p: seq<Byte>, ghost from: nat) returns (more: bool)
    requires at <= end <= bytes.Length && from <= at && |p| == end - from && p == Span(bytes[..], from, end - from)
    ensures more <==> SkipSlashes(p, at - from) < |p|
  {
    var cursor := at;
    while cursor < end
      invariant at <= cursor <= end && SkipSlashes(p, at - from) == SkipSlashes(p, cursor - from)
    {
      assert p[cursor - from] == bytes[cursor];
      if bytes[cursor] != SLASH { return true; }
      cursor := cursor + 1;
    }
    return false;
  }

  /** The next part of a path: where it starts and where it ends. */
  method NextPart(bytes: array<Byte>, at: nat, end: nat, ghost p: seq<Byte>, ghost from: nat)
    returns (start: nat, stop: nat)
    requires at <= end <= bytes.Length && from <= at && |p| == end - from && p == Span(bytes[..], from, end - from)
    ensures at <= start <= stop <= end && start == from + SkipSlashes(p, at - from) &&
            stop == from + PartEnd(p, start - from)
  {
    start := at;
    while start < end && bytes[start] == SLASH
      invariant at <= start <= end && SkipSlashes(p, at - from) == SkipSlashes(p, start - from)
    {
      assert p[start - from] == bytes[start];
      start := start + 1;
    }
    assert start < end ==> p[start - from] == bytes[start];
    stop := start;
    while stop < end && bytes[stop] != SLASH
      invariant start <= stop <= end && PartEnd(p, start - from) == PartEnd(p, stop - from)
    {
      assert p[stop - from] == bytes[stop];
      stop := stop + 1;
    }
    assert stop < end ==> p[stop - from] == bytes[stop];
  }

  /** Resolution ends with an error, or goes on in a node. */
  datatype Step = Ends(error: int) | GoesOn(node: nat)

  /** What resolution does with one part of a path. */
  ghost function PartStep(t: Tree, c: Credentials, text: seq<Byte>, current: nat, through: bool, hops: nat): Step
    requires hops <= 32
  {
    if |text| > 255 then Ends(TOO_LONG)
    else if text == [DOT] then GoesOn(current)
    else if text == [DOT, DOT] then
      (if ParentOf(t, current) == 0 then Ends(NOT_FOUND) else GoesOn(ParentOf(t, current)))
    else
      var entered := Entered(t, c, current, text, through, hops);
      if entered < 0 then Ends(entered) else GoesOn(entered)
  }

  /** A walk takes the part of `p` from `at` to `end` and goes on behind it. */
  lemma WalkPart(t: Tree, c: Credentials, p: seq<Byte>, cursor: nat, at: nat, end: nat, text: seq<Byte>, current: nat,
                 follow: bool, hops: nat)
    requires cursor <= at < end <= |p| && hops <= 32 && at == SkipSlashes(p, cursor) && end == PartEnd(p, at)
    requires text == Span(p, at, end - at)
    ensures Walk(t, c, p, cursor, current, follow, hops) ==
      match PartStep(t, c, text, current, follow || SkipSlashes(p, end) < |p| || end < |p|, hops)
      case Ends(r) => r
      case GoesOn(id) => Walk(t, c, p, end, id, follow, hops)
  {
  }

  lemma DotTexts(text: seq<Byte>)
    ensures text == [DOT] <==> |text| == 1 && text[0] == DOT
    ensures text == [DOT, DOT] <==> |text| == 2 && text[0] == DOT && text[1] == DOT
  {
  }

  /** One part of a path: resolution ends with `r`, or goes on in node `r`. */
  method TakePart(v: Vfs, c: Credentials, bytes: array<Byte>, part: nat, stop: nat, current: nat, through: bool,
                  hops: nat,
                  ghost text: seq<Byte>) returns (done: bool, r: int)
    requires v.Valid() && v.loaded && part < stop <= bytes.Length && hops <= 32 &&
             text == Span(bytes[..], part, stop - part)
    ensures PartStep(v.Contents(), c, text, current, through, hops) == if done then Ends(r) else if r >= 0 then
            GoesOn(r) else Ends(0)
    ensures !done ==> r >= 0
    decreases HopsLeft(hops), 1
  {
    DotTexts(text);
    assert text[0] == bytes[part] && (|text| > 1 ==> text[1] == bytes[part + 1]);
    if stop - part > 255 { return true, TOO_LONG; }
    if stop - part == 1 && bytes[part] == DOT { return false, current; }
    if stop - part == 2 && bytes[part] == DOT && bytes[part + 1] == DOT {
      var parent := FindParent(v, current);
      if parent == 0 { return true, NOT_FOUND; }
      return false, parent;
    }
    done, r := Enter(v, c, bytes, part, stop, current, through, hops, text);
  }

  /** Go to a child of `current`, through its link if it is one to follow. */
  method Enter(v: Vfs, c: Credentials, bytes: array<Byte>, part: nat, stop: nat, current: nat, through: bool, hops: nat,
               ghost text: seq<Byte>)
    returns (done: bool, r: int)
    requires v.Valid() && v.loaded && part < stop <= bytes.Length && hops <= 32 &&
             text == Span(bytes[..], part, stop - part)
    ensures r == Entered(v.Contents(), c, current, text, through, hops)
    ensures done <==> r < 0
    decreases HopsLeft(hops), 0
  {
    var kind := FindKind(v, current);
    if kind != DIRECTORY { return true, NOT_DIRECTORY; }
    var ok := Search(v, c, current);
    if !ok { return true, NOT_PERMITTED; }
    var child := FindChild(v, current, bytes, part, stop - part, text);
    if child == 0 { return true, NOT_FOUND; }
    kind := FindKind(v, child);
    if kind == LINK && through {
      Unfold(v.inodes[..], v.dentries[..], v.data[..], v.next, v.nodes, v.names, FOLDS);
      var link := v.inodes[child];
      if link.size == 0 || link.size > 4096 { return true, NOT_FOUND; }
      assert v.nodes[child].data == Span(v.data[..], link.data, link.size);
      var base := if v.data[link.data] == SLASH then v.root else current;
      r := ResolveRange(v, c, v.data, link.data, link.size, base, true, hops + 1);
      done := r < 0;
    } else {
      done, r := false, child;
    }
  }

  const WALK_FOLDS := 3

  /** The walk from here gives `all`; kept folded for the loop. */
  ghost predicate WalkGives(t: Tree, c: Credentials, p: seq<Byte>, cursor: nat, current: nat, follow: bool, hops: nat,
                            all: int, folds: nat)
    requires cursor <= |p| && 0 < |p| && hops <= 32
  {
    if folds == 0 then Walk(t, c, p, cursor, current, follow, hops) == all
    else WalkGives(t, c, p, cursor, current, follow, hops, all, folds - 1)
  }

  lemma Unfolded(t: Tree, c: Credentials, p: seq<Byte>, cursor: nat, current: nat, follow: bool, hops: nat, all: int,
                 folds: nat)
    requires cursor <= |p| && 0 < |p| && hops <= 32 && WalkGives(t, c, p, cursor, current, follow, hops, all, folds)
    ensures Walk(t, c, p, cursor, current, follow, hops) == all
  {
  }

  lemma Folded(t: Tree, c: Credentials, p: seq<Byte>, cursor: nat, current: nat, follow: bool, hops: nat, all: int,
               folds: nat)
    requires cursor <= |p| && 0 < |p| && hops <= 32 && Walk(t, c, p, cursor, current, follow, hops) == all
    ensures WalkGives(t, c, p, cursor, current, follow, hops, all, folds)
  {
  }

  /** After one part, the walk is over or goes on behind it. */
  lemma WalkOn(t: Tree, c: Credentials, p: seq<Byte>, cursor: nat, at: nat, end: nat, text: seq<Byte>, current: nat,
               follow: bool, hops: nat, through: bool, done: bool, r: int, all: int)
    requires cursor <= at < end <= |p| && hops <= 32 && at == SkipSlashes(p, cursor) && end == PartEnd(p, at)
    requires text == Span(p, at, end - at) && through == (follow || SkipSlashes(p, end) < |p| || end < |p|)
    requires PartStep(t, c, text, current, through, hops) == if done then Ends(r) else if r >= 0 then GoesOn(r)
             else Ends(0)
    requires WalkGives(t, c, p, cursor, current, follow, hops, all, WALK_FOLDS) && (!done ==> r >= 0)
    ensures if done then r == all else WalkGives(t, c, p, end, r, follow, hops, all, WALK_FOLDS)
  {
    Unfolded(t, c, p, cursor, current, follow, hops, all, WALK_FOLDS);
    WalkPart(t, c, p, cursor, at, end, text, current, follow, hops);
    if !done { Folded(t, c, p, end, r, follow, hops, all, WALK_FOLDS); }
  }

  /** At the end of a path, the walk gives the node it has come to. */
  lemma WalkOver(t: Tree, c: Credentials, p: seq<Byte>, cursor: nat, current: nat, follow: bool, hops: nat, all: int)
    requires cursor <= |p| && 0 < |p| && hops <= 32 && SkipSlashes(p, cursor) == |p|
    requires WalkGives(t, c, p, cursor, current, follow, hops, all, WALK_FOLDS)
    ensures all == if p[|p| - 1] == SLASH && KindOf(t, current) != DIRECTORY then NOT_DIRECTORY else current
  {
    Unfolded(t, c, p, cursor, current, follow, hops, all, WALK_FOLDS);
  }

  /** The next part of a path: where it starts and ends, and whether a link there is to be followed. */
  method FindPart(bytes: array<Byte>, cursor: nat, end: nat, follow: bool, ghost p: seq<Byte>, ghost from: nat)
    returns (part: nat, stop: nat, through: bool)
    requires cursor <= end <= bytes.Length && from <= cursor && |p| == end - from &&
             p == Span(bytes[..], from, end - from)
    ensures cursor <= part <= stop <= end && part - from == SkipSlashes(p, cursor - from) &&
            stop - from == PartEnd(p, part - from)
    ensures part < end ==> part < stop && through == (follow || SkipSlashes(p, stop - from) < |p| || stop < end)
    ensures Span(p, part - from, stop - part) == Span(bytes[..], part, stop - part)
  {
    part, stop := NextPart(bytes, cursor, end, p, from);
    var more := MoreComponents(bytes, stop, end, p, from);
    through := follow || more || stop < end;
  }

  /** Take one part of a path: the walk is over with `r`, or goes on behind the part in node `r`. */
  method TakeNext(v: Vfs, c: Credentials, bytes: array<Byte>, ghost cursor: nat, part: nat, stop: nat, current: nat,
                  follow: bool, through: bool, hops: nat, ghost p: seq<Byte>, ghost path: nat, ghost all: int)
    returns (done: bool, r: int)
    requires v.Valid() && v.loaded && path <= cursor <= part < stop <= path + |p| && stop <= bytes.Length && hops <= 32
    requires Span(p, part - path, stop - part) == Span(bytes[..], part, stop - part)
    requires part - path == SkipSlashes(p, cursor - path) && stop - path == PartEnd(p, part - path)
    requires through == (follow || SkipSlashes(p, stop - path) < |p| || stop - path < |p|)
    requires WalkGives(v.Contents(), c, p, cursor - path, current, follow, hops, all, WALK_FOLDS)
    ensures if done then r == all
            else r >= 0 && WalkGives(v.Contents(), c, p, stop - path, r, follow, hops, all, WALK_FOLDS)
    decreases HopsLeft(hops), 2
  {
    ghost var text := Span(p, part - path, stop - part);
    done, r := TakePart(v, c, bytes, part, stop, current, through, hops, text);
    WalkOn(v.Contents(), c, p, cursor - path, part - path, stop - path, text, current, follow, hops, through, done, r,
           all);
  }

  /** The whole path is walked. */
  method EndWalk(v: Vfs, c: Credentials, bytes: array<Byte>, end: nat, current: nat, ghost cursor: nat,
                 ghost follow: bool, ghost hops: nat, ghost p: seq<Byte>, ghost all: int) returns (r: int)
    requires v.Valid() && v.loaded && 0 < |p| && 0 < end <= bytes.Length && p[|p| - 1] == bytes[end - 1]
    requires cursor <= |p| && hops <= 32 && SkipSlashes(p, cursor) == |p|
    requires WalkGives(v.Contents(), c, p, cursor, current, follow, hops, all, WALK_FOLDS)
    ensures r == all
  {
    WalkOver(v.Contents(), c, p, cursor, current, follow, hops, all);
    var kind := FindKind(v, current);
    if bytes[end - 1] == SLASH && kind != DIRECTORY { return NOT_DIRECTORY; }
    r := current;
  }

  /** Resolve the parts of a path one after the other. */
  method WalkParts(v: Vfs, c: Credentials, bytes: array<Byte>, path: nat, end: nat, start: nat, follow: bool, hops: nat,
                   ghost p: seq<Byte>)
    returns (r: int)
    requires v.Valid() && v.loaded && path < end <= bytes.Length && p == Span(bytes[..], path, end - path) && hops <= 32
    ensures r == Walk(v.Contents(), c, p, 0, start, follow, hops)
    decreases HopsLeft(hops), 3
  {
    var cursor: nat, current: nat := path, start;
    ghost var t, all := v.Contents(), Walk(v.Contents(), c, p, 0, start, follow, hops);
    Folded(t, c, p, 0, start, follow, hops, all, WALK_FOLDS);
    while cursor < end
      invariant path <= cursor <= end
      invariant WalkGives(t, c, p, cursor - path, current, follow, hops, all, WALK_FOLDS)
      invariant cursor == end ==> SkipSlashes(p, cursor - path) == |p|
    {
      var part, stop, through := FindPart(bytes, cursor, end, follow, p, path);
      if part == end { break; }
      var done;
      done, r := TakeNext(v, c, bytes, cursor, part, stop, current, follow, through, hops, p, path, all);
      if done { return; }
      cursor, current := stop, r;
    }
    assert p[end - path - 1] == bytes[end - 1];
    r := EndWalk(v, c, bytes, end, current, cursor - path, follow, hops, p, all);
  }

  method ResolveRange(v: Vfs, c: Credentials, bytes: array<Byte>, path: nat, length: nat, start: nat, follow: bool,
                      hops: nat)
    returns (r: int)
    requires v.Valid() && v.loaded && path + length <= bytes.Length
    ensures r == Resolved(v.Contents(), c, start, Span(bytes[..], path, length), follow, hops)
    decreases HopsLeft(hops), 4
  {
    if hops > 32 { return TOO_MANY_LINKS; }
    ghost var p := Span(bytes[..], path, length);
    assert length > 0 ==> p[0] == bytes[path];
    var current := if length != 0 && bytes[path] == SLASH then v.root else start;
    var kind := FindKind(v, current);
    if kind != DIRECTORY { return NOT_DIRECTORY; }
    if length == 0 { return NOT_FOUND; }
    r := WalkParts(v, c, bytes, path, path + length, current, follow, hops, p);
  }

  /** Resolve the path of `length` bytes at `path`. */
  method Resolve(v: Vfs, c: Credentials, start: nat, bytes: array<Byte>, path: nat, length: nat, follow: bool)
    returns (r: int)
    requires v.Valid()
    ensures r == if !v.loaded || length > 4096 || path + length > bytes.Length then INVALID
                 else Resolved(v.Contents(), c, start, Span(bytes[..], path, length), follow, 0)
  {
    if !v.loaded || length > 4096 || path > bytes.Length || length > bytes.Length - path { return INVALID; }
    r := ResolveRange(v, c, bytes, path, length, start, follow, 0);
  }
}
