/** What the operations on names mean for paths: where every path of the file
    system leads before and after each of them. */
module LinkPaths {
  import opened Links

  /** Where a path leads. */
  ghost function At(nodes: seq<Node>, p: seq<string>): Option<nat> {
    Walk(nodes, p, |p|)
  }

  /** Something lies below this path. */
  ghost predicate Occupied(nodes: seq<Node>, p: seq<string>) {
    exists r: seq<string> :: p < r && At(nodes, r).Some?
  }

  ghost predicate IsDirAt(nodes: seq<Node>, p: seq<string>) {
    At(nodes, p).Some? && IsDir(nodes, At(nodes, p).value)
  }

  /** What the entry of a directory leads to. */
  ghost function Named(nodes: seq<Node>, d: nat, x: string): Option<nat> {
    if IsDir(nodes, d) && Has(nodes, d, x) then Some(nodes[d].content.ent[x]) else None
  }

  // --- one part more

  lemma AtNext(nodes: seq<Node>, s: seq<string>, z: string)
    ensures At(nodes, s + [z]) == if At(nodes, s).Some? then Named(nodes, At(nodes, s).value, z) else None
  {
    WalkSame(nodes, s, s + [z], |s|);
  }

  lemma AtLast(nodes: seq<Node>, r: seq<string>)
    requires r != []
    ensures r == r[..|r| - 1] + [r[|r| - 1]]
    ensures At(nodes, r) == if At(nodes, r[..|r| - 1]).Some?
                            then Named(nodes, At(nodes, r[..|r| - 1]).value, r[|r| - 1]) else None
  {
    AtNext(nodes, r[..|r| - 1], r[|r| - 1]);
  }

  lemma AtInRange(nodes: seq<Node>, r: seq<string>)
    requires Counted(nodes) && At(nodes, r).Some?
    ensures At(nodes, r).value < |nodes|
  {
    if r != [] {
      WalkEntry(nodes, r, |r|);
      EntryInRange(nodes, Walk(nodes, r, |r| - 1).value, r[|r| - 1], At(nodes, r).value);
    }
  }

  /** Where one path leads nowhere, longer ones do not lead anywhere. */
  lemma {:induction false} NothingBeyond(nodes: seq<Node>, p: seq<string>, r: seq<string>)
    requires p <= r && At(nodes, p).None?
    ensures At(nodes, r).None?
    decreases |r|
  {
    if |r| > |p| {
      AtLast(nodes, r);
      NothingBeyond(nodes, p, r[..|r| - 1]);
    } else {
      assert r == p;
    }
  }

  /** Below something that is no directory, or an empty one, there is nothing. */
  lemma NothingBelow(nodes: seq<Node>, p: seq<string>, r: seq<string>)
    requires p < r && At(nodes, p).Some? && forall z :: Named(nodes, At(nodes, p).value, z).None?
    ensures At(nodes, r).None?
  {
    var next := r[..|p| + 1];
    assert next == p + [r[|p|]];
    AtNext(nodes, p, r[|p|]);
    NothingBeyond(nodes, next, r);
  }

  /** A directory is empty when no path leads below it. */
  lemma EmptyAt(nodes: seq<Node>, p: seq<string>)
    requires IsDirAt(nodes, p)
    ensures nodes[At(nodes, p).value].content.ent == map[] <==> !Occupied(nodes, p)
  {
    var d := At(nodes, p).value;
    if nodes[d].content.ent != map[] {
      var z :| z in nodes[d].content.ent;
      AtNext(nodes, p, z);
      assert p < p + [z] && At(nodes, p + [z]).Some?;
    } else if Occupied(nodes, p) {
      var r: seq<string> :| p < r && At(nodes, r).Some?;
      NothingBelow(nodes, p, r);
    }
  }

  /** Below anything but a directory there is nothing. */
  lemma BareAt(nodes: seq<Node>, p: seq<string>)
    requires At(nodes, p).Some? && !IsDirAt(nodes, p)
    ensures !Occupied(nodes, p)
  {
    if Occupied(nodes, p) {
      var r: seq<string> :| p < r && At(nodes, r).Some?;
      NothingBelow(nodes, p, r);
    }
  }

  /** Two paths to one directory are the same path. */
  lemma OnePathTo(nodes: seq<Node>, p: seq<string>, q: seq<string>)
    requires Counted(nodes) && IsDirAt(nodes, p) && At(nodes, q) == At(nodes, p)
    ensures p == q
  {
    UniquePath(nodes, p, |p|, q, |q|);
  }

  // --- one entry changes

  /** All entries but that of `x` in `d` are the same. */
  ghost predicate SameBut(nodes: seq<Node>, t: seq<Node>, d: nat, x: string) {
    forall u: nat, z :: u < |nodes| && (u, z) != (d, x) ==> Named(t, u, z) == Named(nodes, u, z)
  }

  /** A path that does not go through the changed entry leads where it did. */
  lemma {:induction false} Elsewhere(nodes: seq<Node>, t: seq<Node>, p: seq<string>, x: string, r: seq<string>)
    requires Counted(nodes) && IsDirAt(nodes, p) && SameBut(nodes, t, At(nodes, p).value, x)
    requires !(p + [x] <= r)
    ensures At(t, r) == At(nodes, r)
    decreases |r|
  {
    if r != [] {
      var s, z := r[..|r| - 1], r[|r| - 1];
      AtLast(nodes, r);
      AtLast(t, r);
      Elsewhere(nodes, t, p, x, s);
      if At(nodes, s).Some? {
        AtInRange(nodes, s);
        if At(nodes, s) == At(nodes, p) { OnePathTo(nodes, p, s); }
      }
    }
  }

  /** After making a node: its path leads to it, nothing lies below it, and every
      other path leads where it did. */
  lemma MadeAt(nodes: seq<Node>, p: seq<string>, x: string, content: Content, r: seq<string>)
    requires Counted(nodes) && IsDirAt(nodes, p) && !Has(nodes, At(nodes, p).value, x)
    requires !content.Dir? || content.ent == map[]
    ensures At(Created(nodes, At(nodes, p).value, x, content), r) ==
            if p + [x] <= r then (if r == p + [x] then Some(|nodes|) else None) else At(nodes, r)
  {
    var d := At(nodes, p).value;
    var t := Created(nodes, d, x, content);
    assert SameBut(nodes, t, d, x);
    if p + [x] <= r {
      Elsewhere(nodes, t, p, x, p);
      AtNext(t, p, x);
      assert At(t, p + [x]) == Some(|nodes|);
      if p + [x] < r { NothingBelow(t, p + [x], r); }
    } else {
      Elsewhere(nodes, t, p, x, r);
    }
  }

  /** After linking: the new path leads to the node, and every other where it did. */
  lemma LinkedAtPath(nodes: seq<Node>, p: seq<string>, x: string, id: nat, r: seq<string>)
    requires Counted(nodes) && IsDirAt(nodes, p) && !Has(nodes, At(nodes, p).value, x)
    requires 0 < id < |nodes| && !nodes[id].content.Dir?
    ensures At(Linked(nodes, At(nodes, p).value, x, id), r) ==
            if p + [x] <= r then (if r == p + [x] then Some(id) else None) else At(nodes, r)
  {
    var d := At(nodes, p).value;
    var t := Linked(nodes, d, x, id);
    assert SameBut(nodes, t, d, x);
    if p + [x] <= r {
      Elsewhere(nodes, t, p, x, p);
      AtNext(t, p, x);
      assert At(t, p + [x]) == Some(id);
      if p + [x] < r { NothingBelow(t, p + [x], r); }
    } else {
      Elsewhere(nodes, t, p, x, r);
    }
  }

  /** After removing a name: its path and those below it lead nowhere, and every
      other path leads where it did. */
  lemma RemovedAt(nodes: seq<Node>, p: seq<string>, x: string, r: seq<string>)
    requires Counted(nodes) && IsDirAt(nodes, p) && Has(nodes, At(nodes, p).value, x)
    ensures At(Removed(nodes, At(nodes, p).value, x), r) == if p + [x] <= r then None else At(nodes, r)
  {
    var d := At(nodes, p).value;
    var t := Removed(nodes, d, x);
    assert SameBut(nodes, t, d, x);
    if p + [x] <= r {
      Elsewhere(nodes, t, p, x, p);
      AtNext(t, p, x);
      NothingBeyond(t, p + [x], r);
    } else {
      Elsewhere(nodes, t, p, x, r);
    }
  }

  // --- renaming

  /** The path that led where `r` leads after `from` became `to`. */
  function Source(from: seq<string>, to: seq<string>, r: seq<string>): seq<string>
    requires to <= r
  {
    from + r[|to|..]
  }

  lemma RenamedNamed(nodes: seq<Node>, a: nat, x: string, b: nat, y: string, u: nat, z: string)
    requires IsDir(nodes, a) && Has(nodes, a, x) && IsDir(nodes, b) && u < |nodes|
    ensures Named(Renamed(nodes, a, x, b, y), u, z) ==
            if (u, z) == (a, x) then None else if (u, z) == (b, y) then Named(nodes, a, x) else Named(nodes, u, z)
  {
  }

  /** One part more, on a path that the rename does not touch or after the new name. */
  lemma StepSame(nodes: seq<Node>, t: seq<Node>, a: nat, x: string, b: nat, y: string, p: seq<string>, q: seq<string>,
                 s: seq<string>, z: string)
    requires Counted(nodes) && IsDirAt(nodes, p) && IsDirAt(nodes, q) && At(nodes, p) == Some(a) &&
             At(nodes, q) == Some(b) && Has(nodes, a, x) && t == Renamed(nodes, a, x, b, y)
    requires s + [z] != p + [x] && s + [z] != q + [y] && At(nodes, s).Some?
    ensures Named(t, At(nodes, s).value, z) == Named(nodes, At(nodes, s).value, z)
  {
    var u := At(nodes, s).value;
    AtInRange(nodes, s);
    RenamedNamed(nodes, a, x, b, y, u, z);
    if u == a { OnePathTo(nodes, p, s); }
    if u == b { OnePathTo(nodes, q, s); }
  }

  /** Where every path leads after a rename.  What lay at the old path and below it
      lies at the new path and below that, unless the new path is the old one or lies
      below it: then it is lost.  Every other path leads where it did. */
  lemma {:induction false} RenamedPath(nodes: seq<Node>, p: seq<string>, x: string, q: seq<string>, y: string,
                                       r: seq<string>)
    requires Counted(nodes) && IsDirAt(nodes, p) && IsDirAt(nodes, q) && Has(nodes, At(nodes, p).value, x)
    ensures At(Renamed(nodes, At(nodes, p).value, x, At(nodes, q).value, y), r) ==
            if q + [y] <= r && !(p + [x] <= q + [y]) then At(nodes, Source(p + [x], q + [y], r))
            else if p + [x] <= r then None
            else At(nodes, r)
    decreases |r|
  {
    var a, b := At(nodes, p).value, At(nodes, q).value;
    var t, from, to := Renamed(nodes, a, x, b, y), p + [x], q + [y];
    if r != [] {
      var s, z := r[..|r| - 1], r[|r| - 1];
      AtLast(t, r);
      RenamedPath(nodes, p, x, q, y, s);
      if to <= r && !(from <= to) {
        if r == to { ToNewName(nodes, t, p, x, q, y, a, b); } else { BelowNewName(nodes, t, p, x, q, y, a, b, r); }
      } else if from <= r {
        if r == from { RenamedNamed(nodes, a, x, b, y, a, x); }
      } else {
        AtLast(nodes, r);
        if At(nodes, s).Some? { StepSame(nodes, t, a, x, b, y, p, q, s, z); }
      }
    }
  }

  lemma ToNewName(nodes: seq<Node>, t: seq<Node>, p: seq<string>, x: string, q: seq<string>, y: string, a: nat, b: nat)
    requires Counted(nodes) && IsDirAt(nodes, p) && IsDirAt(nodes, q)
    requires At(nodes, p) == Some(a) && At(nodes, q) == Some(b) && Has(nodes, a, x) && t == Renamed(nodes, a, x, b, y)
    requires At(t, q) == At(nodes, q) && p + [x] != q + [y]
    ensures At(t, q + [y]) == At(nodes, Source(p + [x], q + [y], q + [y]))
  {
    AtNext(t, q, y);
    AtNext(nodes, p, x);
    RenamedNamed(nodes, a, x, b, y, b, y);
    if a == b { OnePathTo(nodes, p, q); }
    assert Source(p + [x], q + [y], q + [y]) == p + [x];
  }

  lemma BelowNewName(nodes: seq<Node>, t: seq<Node>, p: seq<string>, x: string, q: seq<string>, y: string, a: nat,
                     b: nat, r: seq<string>)
    requires Counted(nodes) && IsDirAt(nodes, p) && IsDirAt(nodes, q)
    requires At(nodes, p) == Some(a) && At(nodes, q) == Some(b) && Has(nodes, a, x) && t == Renamed(nodes, a, x, b, y)
    requires q + [y] < r && !(p + [x] <= q + [y])
    requires At(t, r[..|r| - 1]) == At(nodes, Source(p + [x], q + [y], r[..|r| - 1]))
    ensures At(t, r) == At(nodes, Source(p + [x], q + [y], r))
  {
    var s, z, to := r[..|r| - 1], r[|r| - 1], q + [y];
    var old' := Source(p + [x], to, s);
    assert Source(p + [x], to, r) == old' + [z];
    AtLast(t, r);
    AtNext(nodes, old', z);
    if At(nodes, old').Some? {
      NotBelowItself(p + [x], to, old', z);
      StepSame(nodes, t, a, x, b, y, p, q, old', z);
    }
  }

  lemma NotBelowItself(from: seq<string>, to: seq<string>, s: seq<string>, z: string)
    requires from <= s && !(from <= to)
    ensures s + [z] != from && s + [z] != to
  {
    assert (s + [z])[..|from|] == from;
  }

  // --- the operations, told by paths

  /** Remove the name at the end of a path.  It succeeds exactly for an empty
      directory, or for anything else, as was asked; then no path but this one
      changes. */
  method RemovePath(v: Vfs, ghost p: seq<string>, d: nat, x: string, dir: bool) returns (e: Error)
    requires v.Valid() && At(v.nodes, p) == Some(d) && IsDir(v.nodes, d)
    modifies v
    ensures v.Valid() && (e != Fine ==> v.nodes == old(v.nodes))
    ensures e == NotFound <==> old(At(v.nodes, p + [x]).None?)
    ensures e == IsDirectory <==> !dir && old(IsDirAt(v.nodes, p + [x]))
    ensures e == NotDirectory <==> dir && old(At(v.nodes, p + [x]).Some? && !IsDirAt(v.nodes, p + [x]))
    ensures e == NotEmpty <==> dir && old(IsDirAt(v.nodes, p + [x]) && Occupied(v.nodes, p + [x]))
    ensures e == Fine <==> old(At(v.nodes, p + [x]).Some? && !Occupied(v.nodes, p + [x])) &&
                           (dir <==> old(IsDirAt(v.nodes, p + [x])))
    ensures e == Fine ==> forall r :: At(v.nodes, r) == if r == p + [x] then None else At(old(v.nodes), r)
  {
    ghost var nodes, path := v.nodes, p + [x];
    AtNext(nodes, p, x);
    if At(nodes, path).Some? {
      AtInRange(nodes, path);
      if IsDirAt(nodes, path) { EmptyAt(nodes, path); } else { BareAt(nodes, path); }
    }
    e := v.Remove(d, x, dir);
    if e == Fine {
      forall r ensures At(v.nodes, r) == if r == path then None else At(nodes, r) { RemovedAlone(nodes, p, x, r); }
    }
  }

  lemma RemovedAlone(nodes: seq<Node>, p: seq<string>, x: string, r: seq<string>)
    requires Counted(nodes) && IsDirAt(nodes, p) && Has(nodes, At(nodes, p).value, x) && !Occupied(nodes, p + [x])
    ensures At(Removed(nodes, At(nodes, p).value, x), r) == if r == p + [x] then None else At(nodes, r)
  {
    RemovedAt(nodes, p, x, r);
  }

  /** Rename one path to another.  Something may be replaced only by its like, and a
      directory only when nothing lies below it; then each path leads where
      `RenamedPath` says. */
  method RenamePath(v: Vfs, ghost p: seq<string>, a: nat, x: string, ghost q: seq<string>, b: nat, y: string,
                    same: bool) returns (e: Error)
    requires v.Valid() && At(v.nodes, p) == Some(a) && At(v.nodes, q) == Some(b) && IsDir(v.nodes, a)
    requires IsDir(v.nodes, b) && (same ==> p + [x] == q + [y])
    modifies v
    ensures v.Valid() && (e != Fine || same ==> v.nodes == old(v.nodes))
    ensures e == NotFound <==> old(At(v.nodes, p + [x]).None?)
    ensures e == IsDirectory <==> !same && old(At(v.nodes, p + [x]).Some? && !IsDirAt(v.nodes, p + [x])) &&
                                  old(IsDirAt(v.nodes, q + [y]))
    ensures e == NotDirectory <==> !same && old(IsDirAt(v.nodes, p + [x])) &&
                                   old(At(v.nodes, q + [y]).Some? && !IsDirAt(v.nodes, q + [y]))
    ensures e == NotEmpty <==> !same && old(IsDirAt(v.nodes, p + [x])) &&
                               old(IsDirAt(v.nodes, q + [y]) && Occupied(v.nodes, q + [y]))
    ensures e == Fine || e == NotFound || e == IsDirectory || e == NotDirectory || e == NotEmpty
    ensures e == Fine && !same ==> !old(Occupied(v.nodes, q + [y])) && forall r ::
              At(v.nodes, r) ==
              if q + [y] <= r && !(p + [x] <= q + [y]) then At(old(v.nodes), Source(p + [x], q + [y], r))
              else if p + [x] <= r then None else At(old(v.nodes), r)
  {
    ghost var nodes, from, to := v.nodes, p + [x], q + [y];
    AtNext(nodes, p, x);
    AtNext(nodes, q, y);
    if same { assert p == from[..|p|] == to[..|p|] == q && x == from[|p|] == y; }
    if At(nodes, from).Some? { AtInRange(nodes, from); }
    if At(nodes, to).Some? {
      AtInRange(nodes, to);
      if IsDirAt(nodes, to) { EmptyAt(nodes, to); } else { BareAt(nodes, to); }
    } else if Occupied(nodes, to) {
      var r: seq<string> :| to < r && At(nodes, r).Some?;
      NothingBeyond(nodes, to, r);
    }
    e := v.Rename(a, x, b, y, same);
    if e == Fine && !same {
      forall r ensures At(v.nodes, r) ==
                       if to <= r && !(from <= to) then At(nodes, Source(from, to, r))
                       else if from <= r then None else At(nodes, r) {
        RenamedPath(nodes, p, x, q, y, r);
      }
    }
  }

  // --- what a new file takes

  lemma {:induction false} SameTotal(nodes: seq<Node>, t: seq<Node>, seen: set<nat>, more: set<nat>, n: nat)
    requires n <= |nodes| <= |t| && forall i :: 0 <= i < n ==> Cost(t[i]) == Cost(nodes[i])
    requires forall i :: i in seen <==> i in more && i < |nodes|
    ensures Total(t, more, n) == Total(nodes, seen, n)
  {
    if n > 0 { SameTotal(nodes, t, seen, more, n - 1); }
  }

  /** A new file takes 128 bytes and its size more than all files took before. */
  lemma FileTakes(nodes: seq<Node>, p: seq<string>, x: string, size: nat, n: nat)
    requires Counted(nodes) && IsDirAt(nodes, p) && !Has(nodes, At(nodes, p).value, x) && Takes(nodes, n)
    ensures Takes(Created(nodes, At(nodes, p).value, x, File(size)), n + 128 + size)
  {
    var t := Created(nodes, At(nodes, p).value, x, File(size));
    var seen: set<nat> :| AllReached(nodes, seen) && n == Total(nodes, seen, |nodes|);
    forall id | id in seen ensures id < |nodes| { ReachedInRange(nodes, id); }
    var more := seen + {|nodes|};
    forall id: nat ensures id in more <==> Reached(t, id) { MadeReached(nodes, p, x, File(size), id); }
    OneFileMore(nodes, t, At(nodes, p).value, x, size, seen, more);
    assert AllReached(t, more);
  }

  lemma ReachedInRange(nodes: seq<Node>, id: nat)
    requires Counted(nodes) && Reached(nodes, id)
    ensures id < |nodes|
  {
    var r: seq<string> :| Walk(nodes, r, |r|) == Some(id);
    AtInRange(nodes, r);
  }

  lemma OneFileMore(nodes: seq<Node>, t: seq<Node>, d: nat, x: string, size: nat, seen: set<nat>, more: set<nat>)
    requires IsDir(nodes, d) && t == Created(nodes, d, x, File(size)) && more == seen + {|nodes|}
    requires forall id :: id in seen ==> id < |nodes|
    ensures Total(t, more, |t|) == Total(nodes, seen, |nodes|) + 128 + size
  {
    SameTotal(nodes, t, seen, more, |nodes|);
  }

  lemma MadeReached(nodes: seq<Node>, p: seq<string>, x: string, content: Content, id: nat)
    requires Counted(nodes) && IsDirAt(nodes, p) && !Has(nodes, At(nodes, p).value, x)
    requires !content.Dir? || content.ent == map[]
    ensures Reached(Created(nodes, At(nodes, p).value, x, content), id) <==> Reached(nodes, id) || id == |nodes|
  {
    var t := Created(nodes, At(nodes, p).value, x, content);
    if Reached(t, id) {
      var r: seq<string> :| Walk(t, r, |r|) == Some(id);
      MadeAt(nodes, p, x, content, r);
      assert At(nodes, r) == Walk(nodes, r, |r|);
    }
    if id == |nodes| {
      MadeAt(nodes, p, x, content, p + [x]);
      assert Walk(t, p + [x], |p + [x]|) == Some(id);
    }
    if Reached(nodes, id) {
      var r: seq<string> :| Walk(nodes, r, |r|) == Some(id);
      MadeAt(nodes, p, x, content, r);
      if p + [x] <= r { NewNameFree(nodes, p, x, r); }
      assert Walk(t, r, |r|) == Some(id);
    }
  }

  lemma NewNameFree(nodes: seq<Node>, p: seq<string>, x: string, r: seq<string>)
    requires IsDirAt(nodes, p) && !Has(nodes, At(nodes, p).value, x) && p + [x] <= r
    ensures At(nodes, r).None?
  {
    AtNext(nodes, p, x);
    NothingBeyond(nodes, p + [x], r);
  }

  lemma OneTotal(nodes: seq<Node>, n: nat, m: nat)
    requires Takes(nodes, n) && Takes(nodes, m)
    ensures n == m
  {
    var a: set<nat> :| AllReached(nodes, a) && n == Total(nodes, a, |nodes|);
    var b: set<nat> :| AllReached(nodes, b) && m == Total(nodes, b, |nodes|);
    assert a == b;
  }

  /** Make a file at the end of a path.  It succeeds exactly when nothing is there and
      128 bytes and its size are left; then no path but this one changes. */
  method MakeFilePath(v: Vfs, ghost p: seq<string>, d: nat, x: string, size: nat, ghost n: nat) returns (e: Error)
    requires v.Valid() && At(v.nodes, p) == Some(d) && IsDir(v.nodes, d) && Takes(v.nodes, n)
    modifies v
    ensures v.Valid() && (e != Fine ==> v.nodes == old(v.nodes))
    ensures e == Exists <==> old(At(v.nodes, p + [x]).Some?)
    ensures e == NoSpace <==> old(At(v.nodes, p + [x]).None?) && n + 128 + size > v.cap
    ensures e == Fine <==> old(At(v.nodes, p + [x]).None?) && n + 128 + size <= v.cap
    ensures e == Fine ==> Takes(v.nodes, n + 128 + size) && forall r ::
              At(v.nodes, r) == if r == p + [x] then Some(|old(v.nodes)|) else At(old(v.nodes), r)
  {
    ghost var nodes := v.nodes;
    AtNext(nodes, p, x);
    if !Has(nodes, d, x) { FileTakes(nodes, p, x, size, n); }
    e := v.MakeFile(d, x, size);
    if !Has(nodes, d, x) {
      ghost var m: nat :| Takes(Created(nodes, d, x, File(size)), m) && (e == Fine <==> m <= v.cap);
      OneTotal(Created(nodes, d, x, File(size)), m, n + 128 + size);
    }
    if e == Fine {
      forall r ensures At(v.nodes, r) == if r == p + [x] then Some(|nodes|) else At(nodes, r) {
        MadeAt(nodes, p, x, File(size), r);
        if p + [x] <= r { NewNameFree(nodes, p, x, r); }
      }
    }
  }
}
