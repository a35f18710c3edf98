/** In a loaded tree every path of the list resolves to its own file, and a path
    the list does not have resolves to an error. */
module VfsLookup {
  import opened Frames
  import opened VfsImages
  import opened VfsPaths
  import opened VfsLayout
  import opened VfsSerializing
  import opened VfsHost
  import opened VfsLoading
  import opened VfsRoundTrip
  import opened VfsResolving
  import opened VfsNaming

  /** What a name of the list is in the loaded tree. */
  lemma EntryLoaded(entries: seq<Entry>, t: Tree, ids: seq<nat>, from: seq<nat>, i: nat)
    requires Describes(entries, t, ids, from) && i < |entries|
    ensures entries[i].id in LoadedTree(t).nodes
    ensures LoadedTree(t).nodes[entries[i].id] ==
      Node(KindCode(entries[i].kind), Nat(entries[i].mode) % 4096, Nat(entries[i].uid), Nat(entries[i].gid),
           Count(entries, entries[i].id, |entries|), Nat(entries[i].at), Nat(entries[i].mt), Nat(entries[i].ct),
               Payload(entries[i]))
  {
    assert t.nodes[entries[i].id] == NodeFor(entries[i], Count(entries, entries[i].id, |entries|));
  }

  // --- children

  lemma {:induction false} FirstChildIs(names: seq<Name>, parent: nat, text: seq<Byte>, i: nat, m: nat)
    requires i <= m < |names| && names[m].parent == parent && names[m].text == text
    requires forall k :: 0 <= k < |names| && k != m ==> names[k].parent != parent || names[k].text != text
    ensures FirstChild(names, parent, text, i) == names[m].child
    decreases m - i
  {
    if i < m { FirstChildIs(names, parent, text, i + 1, m); }
  }

  lemma {:induction false} NoChild(names: seq<Name>, parent: nat, text: seq<Byte>, i: nat)
    requires i <= |names| && forall k :: 0 <= k < |names| ==> names[k].parent != parent || names[k].text != text
    ensures FirstChild(names, parent, text, i) == 0
    decreases |names| - i
  {
    if i < |names| { NoChild(names, parent, text, i + 1); }
  }

  /** The name of entry `j` is found in its directory and leads to its file. */
  lemma ChildFound(entries: seq<Entry>, t: Tree, ids: seq<nat>, from: seq<nat>, j: nat, k: nat)
    requires Describes(entries, t, ids, from) && IsParent(entries, j, k) && entries[j].path != ROOT
    ensures entries[k].id >= 0 && Child(LoadedTree(t), entries[k].id, Base(entries[j].path)) == entries[j].id > 0
  {
    CheckedAt(entries, |entries|, j);
    CheckedAt(entries, |entries|, k);
    PlacedAt(entries, |entries|, j);
    BaseValid(entries[j].path);
    assert IsListed(from, j);
    var m :| 0 <= m < |from| && from[m] == j;
    assert NamedBy(entries, t.names[m], j);
    var l: nat :| IsParent(entries, j, l) && entries[l].id == t.names[m].parent;
    SamePath(entries, k, l);
    TreeProper(entries, t, ids, from);
    FirstChildIs(t.names, entries[k].id, Base(entries[j].path), 0, m);
  }

  /** A directory has no name that would make a path the list does not have. */
  lemma ChildMissing(entries: seq<Entry>, t: Tree, ids: seq<nat>, from: seq<nat>, k: nat, path: seq<Byte>)
    requires Describes(entries, t, ids, from) && k < |entries| && entries[k].kind == Directory &&
             entries[k].path == Parent(path)
    requires ValidPath(path) && path != ROOT && forall i :: 0 <= i < |entries| ==> entries[i].path != path
    ensures entries[k].id >= 0 && Child(LoadedTree(t), entries[k].id, Base(path)) == 0
  {
    CheckedAt(entries, |entries|, k);
    forall m | 0 <= m < |t.names| ensures t.names[m].parent != entries[k].id || t.names[m].text != Base(path) {
      var i := from[m];
      assert NamedBy(entries, t.names[m], i);
      if t.names[m].parent == entries[k].id && t.names[m].text == Base(path) {
        var l: nat :| IsParent(entries, i, l) && entries[l].id == t.names[m].parent;
        OneDirectory(entries, k, l);
        CheckedAt(entries, |entries|, i);
        SameSplit(entries[i].path, path);
      }
    }
    NoChild(t.names, entries[k].id, Base(path), 0);
  }

  // --- prefixes of a path

  /** How far into a path its prefix `q` reaches; the root reaches nowhere. */
  function Reach(q: seq<Byte>): nat {
    if q == ROOT then 0 else |q|
  }

  /** The path `q` is `p` or a directory on the way to it. */
  ghost predicate OnTheWay(q: seq<Byte>, p: seq<Byte>) {
    && |q| <= |p| && (forall k :: 0 <= k < |q| ==> q[k] == p[k])
    && (|q| == |p| || (Reach(q) < |p| && p[Reach(q)] == SLASH))
  }

  lemma ReachOfParent(q: seq<Byte>)
    requires ValidPath(q) && q != ROOT
    ensures Reach(Parent(q)) == LastSlash(q, |q|) < |q| - 1 && q[LastSlash(q, |q|)] == SLASH
  {
    Split(q);
    NoDoubleSlash(q);
    var s := LastSlash(q, |q|);
    if s > 0 { assert |Parent(q)| == s && s != 1; }
  }

  lemma {:induction false} PartEndIs(p: seq<Byte>, at: nat, end: nat)
    requires at <= end <= |p| && (forall k :: at <= k < end ==> p[k] != SLASH) && (end == |p| || p[end] == SLASH)
    ensures PartEnd(p, at) == end
    decreases end - at
  {
    if at < end { PartEndIs(p, at + 1, end); }
  }

  /** The directories on the way to a path: its own, and those on the way there. */
  lemma OnTheWayUp(q: seq<Byte>, p: seq<Byte>)
    requires ValidPath(p) && p != ROOT && ValidPath(q)
    ensures OnTheWay(q, p) && q != p <==> OnTheWay(q, Parent(p))
  {
    ParentValid(p);
    ReachOfParent(p);
    var r := Parent(p);
    assert p[0] == SLASH;
    assert forall k :: 0 <= k < |r| ==> r[k] == p[k];
    if OnTheWay(q, p) && q != p {
      if q != ROOT { EndsAtSlash(q, p); }
    }
    if OnTheWay(q, r) { OnTheWayFurther(q, r, p); }
  }

  lemma OnTheWayFurther(q: seq<Byte>, r: seq<Byte>, p: seq<Byte>)
    requires OnTheWay(q, r) && ValidPath(p) && p != ROOT && r == Parent(p)
    requires forall k :: 0 <= k < |r| ==> r[k] == p[k]
    requires Reach(r) == LastSlash(p, |p|) < |p| - 1 && p[LastSlash(p, |p|)] == SLASH && |q| > 0
    ensures OnTheWay(q, p) && q != p
  {
  }

  lemma EndsAtSlash(q: seq<Byte>, p: seq<Byte>)
    requires OnTheWay(q, p) && q != ROOT
    ensures |q| == |p| || (|q| < |p| && p[|q|] == SLASH)
  {
  }

  // --- the loaded list

  const LOADS := 3

  /** The list is accepted, and `lt` is what the kernel holds after loading its tree;
      kept folded. */
  ghost predicate Loads(entries: seq<Entry>, t: Tree, ids: seq<nat>, from: seq<nat>, lt: Tree, folds: nat) {
    if folds == 0 then Describes(entries, t, ids, from) && lt == LoadedTree(t)
    else Loads(entries, t, ids, from, lt, folds - 1)
  }

  lemma LoadsAre(entries: seq<Entry>, t: Tree, ids: seq<nat>, from: seq<nat>, lt: Tree, folds: nat)
    ensures Loads(entries, t, ids, from, lt, folds) <==> Describes(entries, t, ids, from) && lt == LoadedTree(t)
  {
  }

  /** What is known of one entry. */
  lemma Facts(entries: seq<Entry>, t: Tree, ids: seq<nat>, from: seq<nat>, lt: Tree, i: nat)
    requires Loads(entries, t, ids, from, lt, LOADS) && i < |entries|
    ensures ValidPath(entries[i].path) && entries[i].id > 0
    ensures KindOf(lt, entries[i].id) == KindCode(entries[i].kind)
    ensures entries[i].kind == Link ==> lt.nodes[entries[i].id].data == entries[i].data
    ensures entries[i].path != ROOT ==> |Base(entries[i].path)| <= 255
    ensures lt.root == t.root && KindOf(lt, t.root) == DIRECTORY && Listed(entries, ROOT)
    ensures entries[i].path == ROOT ==> entries[i].kind == Directory && entries[i].id == t.root
    ensures entries[i].path != ROOT && entries[i].kind == Directory ==> entries[i].id != t.root
  {
    LoadsAre(entries, t, ids, from, lt, LOADS);
    CheckedAt(entries, |entries|, i);
    PlacedAt(entries, |entries|, i);
    EntryLoaded(entries, t, ids, from, i);
    var r: nat :| HasRoot(entries, r) && entries[r].id == t.root;
    EntryLoaded(entries, t, ids, from, r);
    if entries[i].path == ROOT { SamePath(entries, i, r); }
    if entries[i].kind == Directory && entries[i].id == t.root { OneDirectory(entries, i, r); }
  }

  lemma Above(entries: seq<Entry>, t: Tree, ids: seq<nat>, from: seq<nat>, lt: Tree, i: nat) returns (k: nat)
    requires Loads(entries, t, ids, from, lt, LOADS) && i < |entries| && entries[i].path != ROOT
    ensures IsParent(entries, i, k)
  {
    LoadsAre(entries, t, ids, from, lt, LOADS);
    PlacedAt(entries, |entries|, i);
    k :| IsParent(entries, i, k);
  }

  lemma OnePath(entries: seq<Entry>, t: Tree, ids: seq<nat>, from: seq<nat>, lt: Tree, i: nat, j: nat)
    requires Loads(entries, t, ids, from, lt, LOADS) && i < |entries| && j < |entries|
    ensures entries[i].path == entries[j].path ==> i == j
  {
    LoadsAre(entries, t, ids, from, lt, LOADS);
    if entries[i].path == entries[j].path { SamePath(entries, i, j); }
  }

  // --- permission to search

  /** May this user search the directory?  The bit is that of the owner, the group or all others. */
  predicate Searchable(e: Entry, c: Credentials) {
    || c.uid == 0
    || (c.uid == e.uid && Nat(e.mode) / 64 % 2 == 1)
    || (c.uid != e.uid && (c.gid == e.gid || e.gid in c.groups) && Nat(e.mode) / 8 % 2 == 1)
    || (c.uid != e.uid && c.gid != e.gid && e.gid !in c.groups && Nat(e.mode) % 2 == 1)
  }

  /** The user may search every directory on the way to `p`. */
  ghost predicate WaySearchable(entries: seq<Entry>, c: Credentials, p: seq<Byte>) {
    forall k :: 0 <= k < |entries| && entries[k].kind == Directory && entries[k].path != p ==>
      OnTheWay(entries[k].path, p) ==> Searchable(entries[k], c)
  }

  lemma WayUp(entries: seq<Entry>, t: Tree, ids: seq<nat>, from: seq<nat>, lt: Tree, c: Credentials, p: seq<Byte>,
              k: nat)
    requires Loads(entries, t, ids, from, lt, LOADS) && ValidPath(p) && p != ROOT
    requires k < |entries| && entries[k].kind == Directory && entries[k].path == Parent(p)
    ensures WaySearchable(entries, c, p) <==> WaySearchable(entries, c, Parent(p)) && Searchable(entries[k], c)
  {
    forall j | 0 <= j < |entries|
      ensures OnTheWay(entries[j].path, p) && entries[j].path != p <==> OnTheWay(entries[j].path, Parent(p))
      ensures entries[j].path == Parent(p) ==> j == k
    {
      Facts(entries, t, ids, from, lt, j);
      OnTheWayUp(entries[j].path, p);
      OnePath(entries, t, ids, from, lt, j, k);
    }
    assert OnTheWay(Parent(p), Parent(p));
  }

  lemma MayAsListed(entries: seq<Entry>, t: Tree, ids: seq<nat>, from: seq<nat>, lt: Tree, c: Credentials, k: nat)
    requires Loads(entries, t, ids, from, lt, LOADS) && k < |entries|
    ensures entries[k].id >= 0 && (MaySearch(lt, c, entries[k].id) <==> Searchable(entries[k], c))
  {
    LoadsAre(entries, t, ids, from, lt, LOADS);
    CheckedAt(entries, |entries|, k);
    EntryLoaded(entries, t, ids, from, k);
    BitKept(Nat(entries[k].mode));
    MayIs(lt, c, entries[k].id, entries[k]);
  }

  /** The search bits are among the twelve that a loaded mode keeps. */
  lemma BitKept(m: nat)
    ensures m % 4096 / 64 % 2 == m / 64 % 2 && m % 4096 / 8 % 2 == m / 8 % 2 && m % 4096 % 2 == m % 2
  {
    OwnerBitKept(m / 4096, m % 4096 / 64, m % 4096 % 64);
    GroupBitKept(m / 4096, m % 4096 / 8, m % 4096 % 8);
  }

  lemma OwnerBitKept(high: nat, middle: nat, low: nat)
    requires low < 64
    ensures (4096 * high + 64 * middle + low) / 64 % 2 == middle % 2
  {
    var q := 2 * (32 * high) + middle;
    assert 4096 * high + 64 * middle + low == 64 * q + low;
    assert (64 * q + low) / 64 == q;
    EvenAway(32 * high, middle);
  }

  lemma GroupBitKept(high: nat, middle: nat, low: nat)
    requires low < 8
    ensures (4096 * high + 8 * middle + low) / 8 % 2 == middle % 2
  {
    var q := 2 * (256 * high) + middle;
    assert 4096 * high + 8 * middle + low == 8 * q + low;
    assert (8 * q + low) / 8 == q;
    EvenAway(256 * high, middle);
  }

  lemma EvenAway(x: nat, y: nat)
    ensures (2 * x + y) % 2 == y % 2
  {
  }

  lemma MayIs(lt: Tree, c: Credentials, id: nat, e: Entry)
    requires id in lt.nodes && e.uid >= 0 && e.gid >= 0
    requires lt.nodes[id].uid == e.uid && lt.nodes[id].gid == e.gid
    requires lt.nodes[id].mode / 64 % 2 == Nat(e.mode) / 64 % 2 && lt.nodes[id].mode / 8 % 2 == Nat(e.mode) / 8 % 2
    requires lt.nodes[id].mode % 2 == Nat(e.mode) % 2
    ensures MaySearch(lt, c, id) <==> Searchable(e, c)
  {
  }

  // --- one name in a directory

  /** Where a link leads whose target is `target` and whose directory is `k`. */
  ghost function Led(entries: seq<Entry>, lt: Tree, c: Credentials, k: nat, target: seq<Byte>, hops: nat): int
    requires k < |entries| && entries[k].id >= 0
  {
    if target == [] || |target| > 4096 then NOT_FOUND
    else Resolved(lt, c, if target[0] == SLASH then lt.root else entries[k].id, target, true, hops + 1)
  }

  /** A name of the list in its directory `k`: the file it names, or where its link
      leads if that is to be followed, or a refusal to search. */
  lemma NameListed(entries: seq<Entry>, t: Tree, ids: seq<nat>, from: seq<nat>, lt: Tree, c: Credentials, j: nat,
                   k: nat, follow: bool, hops: nat)
    requires Loads(entries, t, ids, from, lt, LOADS) && IsParent(entries, j, k) &&
             entries[j].path != ROOT && hops <= 32
    ensures entries[k].id >= 0
    ensures Resolved(lt, c, entries[k].id, Base(entries[j].path), follow, hops) ==
            if !Searchable(entries[k], c) then NOT_PERMITTED
            else if entries[j].kind == Link && follow then Led(entries, lt, c, k, entries[j].data, hops)
            else entries[j].id
  {
    var text, id := Base(entries[j].path), entries[k].id;
    Facts(entries, t, ids, from, lt, j);
    Facts(entries, t, ids, from, lt, k);
    ChildIs(entries, t, ids, from, lt, j, k);
    MayAsListed(entries, t, ids, from, lt, c, k);
    LastIsGood(entries[j].path);
    OneName(lt, c, id, text, follow, hops);
  }

  lemma ChildIs(entries: seq<Entry>, t: Tree, ids: seq<nat>, from: seq<nat>, lt: Tree, j: nat, k: nat)
    requires Loads(entries, t, ids, from, lt, LOADS) && IsParent(entries, j, k) && entries[j].path != ROOT
    ensures entries[k].id >= 0 && Child(lt, entries[k].id, Base(entries[j].path)) == entries[j].id
  {
    LoadsAre(entries, t, ids, from, lt, LOADS);
    ChildFound(entries, t, ids, from, j, k);
  }

  lemma OneName(lt: Tree, c: Credentials, k: nat, text: seq<Byte>, follow: bool, hops: nat)
    requires KindOf(lt, k) == DIRECTORY && GoodPart(text) && SLASH !in text && hops <= 32
    ensures Resolved(lt, c, k, text, follow, hops) == if |text| > 255 then TOO_LONG
            else Entered(lt, c, k, text, follow, hops)
  {
    OnlyPart(lt, c, text, k, follow, hops);
  }

  /** A name the list does not have. */
  lemma NameMissing(entries: seq<Entry>, t: Tree, ids: seq<nat>, from: seq<nat>, lt: Tree, c: Credentials, q: seq<Byte>,
                    k: nat, follow: bool, hops: nat)
    requires Loads(entries, t, ids, from, lt, LOADS) && ValidPath(q) && q != ROOT && !Listed(entries, q)
    requires k < |entries| && entries[k].kind == Directory && entries[k].path == Parent(q) && hops <= 32
    ensures entries[k].id >= 0
    ensures Resolved(lt, c, entries[k].id, Base(q), follow, hops) == if |Base(q)| > 255 then TOO_LONG
            else if Searchable(entries[k], c) then NOT_FOUND else NOT_PERMITTED
  {
    Facts(entries, t, ids, from, lt, k);
    MayAsListed(entries, t, ids, from, lt, c, k);
    LastIsGood(q);
    NoChildIs(entries, t, ids, from, lt, q, k);
    OneName(lt, c, entries[k].id, Base(q), follow, hops);
  }

  lemma NoChildIs(entries: seq<Entry>, t: Tree, ids: seq<nat>, from: seq<nat>, lt: Tree, q: seq<Byte>, k: nat)
    requires Loads(entries, t, ids, from, lt, LOADS) && ValidPath(q) && q != ROOT && !Listed(entries, q)
    requires k < |entries| && entries[k].kind == Directory && entries[k].path == Parent(q)
    ensures entries[k].id >= 0 && Child(lt, entries[k].id, Base(q)) == 0
  {
    LoadsAre(entries, t, ids, from, lt, LOADS);
    assert forall i :: 0 <= i < |entries| ==> entries[i].path != q;
    ChildMissing(entries, t, ids, from, k, q);
  }

  /** The last part of a valid path is a good one. */
  lemma LastIsGood(q: seq<Byte>)
    requires ValidPath(q) && q != ROOT
    ensures GoodPart(Base(q)) && SLASH !in Base(q)
  {
    Split(q);
  }

  // --- whole paths

  /** A valid path resolves like its last name where its parent leads. */
  lemma ByParent(lt: Tree, c: Credentials, start: nat, q: seq<Byte>, follow: bool, hops: nat, m: int)
    requires ValidPath(q) && q != ROOT && hops <= 32 && KindOf(lt, lt.root) == DIRECTORY
    requires m == Resolved(lt, c, start, Parent(q), true, hops)
    ensures m < 0 ==> Resolved(lt, c, start, q, follow, hops) == m
    ensures m >= 0 && KindOf(lt, m) == DIRECTORY ==>
            Resolved(lt, c, start, q, follow, hops) == Resolved(lt, c, m, Base(q), follow, hops)
    ensures m >= 0 && KindOf(lt, m) != DIRECTORY ==> Resolved(lt, c, start, q, follow, hops) < 0
  {
    LastIsGood(q);
    Split(q);
    if Parent(q) == ROOT {
      FirstPiece(lt, c, start, Base(q), follow, hops);
    } else {
      ParentEnds(q);
      TwoPieces(lt, c, start, Parent(q), Base(q), follow, hops, m);
    }
  }

  lemma FirstPiece(lt: Tree, c: Credentials, start: nat, q: seq<Byte>, follow: bool, hops: nat)
    requires GoodPart(q) && SLASH !in q && hops <= 32 && KindOf(lt, lt.root) == DIRECTORY
    ensures Resolved(lt, c, start, ROOT, true, hops) == lt.root
    ensures Resolved(lt, c, start, [SLASH] + q, follow, hops) == Resolved(lt, c, lt.root, q, follow, hops)
  {
    RootItself(lt, c, start, ROOT, true, hops);
    FromRoot(lt, c, start, [SLASH], q, follow, hops);
  }

  lemma TwoPieces(lt: Tree, c: Credentials, start: nat, p: seq<Byte>, q: seq<Byte>, follow: bool, hops: nat, m: int)
    requires p != [] && p[|p| - 1] != SLASH && GoodPart(q) && SLASH !in q
    requires hops <= 32 && m == Resolved(lt, c, start, p, true, hops)
    ensures m < 0 ==> Resolved(lt, c, start, p + [SLASH] + q, follow, hops) == m
    ensures m >= 0 && KindOf(lt, m) == DIRECTORY ==>
            Resolved(lt, c, start, p + [SLASH] + q, follow, hops) == Resolved(lt, c, m, q, follow, hops)
    ensures m >= 0 && KindOf(lt, m) != DIRECTORY ==> Resolved(lt, c, start, p + [SLASH] + q, follow, hops) < 0
  {
    ByPieces(lt, c, start, p, [SLASH], q, follow, hops, m);
    if m >= 0 && KindOf(lt, m) != DIRECTORY { BelowFile(lt, c, start, p, [SLASH], q, follow, hops, m); }
  }

  lemma ParentEnds(q: seq<Byte>)
    requires ValidPath(q) && q != ROOT && Parent(q) != ROOT
    ensures Parent(q) != [] && Parent(q)[|Parent(q)| - 1] != SLASH
  {
    ParentValid(q);
    ReachOfParent(Parent(q));
  }

  /** Every listed path that is not a link to be followed resolves to its own file,
      from wherever resolution starts, unless the user may not search a directory on
      the way: exactly then the answer is -13. */
  lemma {:induction false} EntryResolves(entries: seq<Entry>, t: Tree, ids: seq<nat>, from: seq<nat>, lt: Tree,
                                         c: Credentials, start: nat, i: nat, follow: bool, hops: nat)
    requires Loads(entries, t, ids, from, lt, LOADS) && i < |entries| && hops <= 32
    requires entries[i].kind != Link || !follow
    ensures Resolved(lt, c, start, entries[i].path, follow, hops) ==
            if WaySearchable(entries, c, entries[i].path) then entries[i].id else NOT_PERMITTED
    decreases |entries[i].path|
  {
    var p := entries[i].path;
    Facts(entries, t, ids, from, lt, i);
    if p == ROOT {
      RootItself(lt, c, start, p, follow, hops);
      NothingAboveRoot(entries, t, ids, from, lt, c);
    } else {
      var k := Above(entries, t, ids, from, lt, i);
      Split(p);
      EntryResolves(entries, t, ids, from, lt, c, start, k, true, hops);
      BelowEntry(entries, t, ids, from, lt, c, start, i, k, follow, hops);
    }
  }

  /** A name of the list, when its directory `k` resolves as it should. */
  lemma BelowEntry(entries: seq<Entry>, t: Tree, ids: seq<nat>, from: seq<nat>, lt: Tree, c: Credentials, start: nat,
                   i: nat, k: nat, follow: bool, hops: nat)
    requires Loads(entries, t, ids, from, lt, LOADS) && hops <= 32 && IsParent(entries, i, k) && entries[i].path != ROOT
    requires Resolved(lt, c, start, Parent(entries[i].path), true, hops) ==
             if WaySearchable(entries, c, Parent(entries[i].path)) then entries[k].id else NOT_PERMITTED
    ensures entries[k].id >= 0
    ensures Resolved(lt, c, start, entries[i].path, follow, hops) ==
            if !WaySearchable(entries, c, entries[i].path) then NOT_PERMITTED
            else if entries[i].kind == Link && follow then Led(entries, lt, c, k, entries[i].data, hops)
            else entries[i].id
  {
    var p := entries[i].path;
    Facts(entries, t, ids, from, lt, i);
    Facts(entries, t, ids, from, lt, k);
    ByParent(lt, c, start, p, follow, hops, Resolved(lt, c, start, Parent(p), true, hops));
    NameListed(entries, t, ids, from, lt, c, i, k, follow, hops);
    WayUp(entries, t, ids, from, lt, c, p, k);
  }

  lemma NothingAboveRoot(entries: seq<Entry>, t: Tree, ids: seq<nat>, from: seq<nat>, lt: Tree, c: Credentials)
    requires Loads(entries, t, ids, from, lt, LOADS)
    ensures WaySearchable(entries, c, ROOT)
  {
    forall k | 0 <= k < |entries| && OnTheWay(entries[k].path, ROOT) ensures entries[k].path == ROOT {
      Facts(entries, t, ids, from, lt, k);
    }
  }

  /** Following a link is resolving its target, in the directory of the link if the
      target is relative and in the root if it is absolute. */
  lemma LinkResolves(entries: seq<Entry>, t: Tree, ids: seq<nat>, from: seq<nat>, lt: Tree, c: Credentials, start: nat,
                     i: nat, k: nat, hops: nat)
    requires Loads(entries, t, ids, from, lt, LOADS) && hops <= 32
    requires IsParent(entries, i, k) && entries[i].kind == Link
    ensures entries[k].id >= 0
    ensures !WaySearchable(entries, c, entries[i].path) ==>
            Resolved(lt, c, start, entries[i].path, true, hops) == NOT_PERMITTED
    ensures WaySearchable(entries, c, entries[i].path) ==>
            Resolved(lt, c, start, entries[i].path, true, hops) ==
            var target := entries[i].data;
            if target == [] || |target| > 4096 then NOT_FOUND
            else if target[0] == SLASH then Resolved(lt, c, t.root, target, true, hops + 1)
            else Resolved(lt, c, entries[k].id, target, true, hops + 1)
  {
    var p := entries[i].path;
    Facts(entries, t, ids, from, lt, i);
    Facts(entries, t, ids, from, lt, k);
    EntryResolves(entries, t, ids, from, lt, c, start, k, true, hops);
    BelowEntry(entries, t, ids, from, lt, c, start, i, k, true, hops);
  }

  /** A link to itself is followed until there are too many links. */
  lemma {:induction false} LinkToItself(entries: seq<Entry>, t: Tree, ids: seq<nat>, from: seq<nat>, lt: Tree,
                                        c: Credentials, start: nat, i: nat, hops: nat)
    requires Loads(entries, t, ids, from, lt, LOADS) && i < |entries| && entries[i].kind == Link
    requires entries[i].data == entries[i].path && |entries[i].path| <= 4096
    requires WaySearchable(entries, c, entries[i].path)
    ensures Resolved(lt, c, start, entries[i].path, true, hops) == TOO_MANY_LINKS
    decreases HopsLeft(hops)
  {
    if hops <= 32 {
      Facts(entries, t, ids, from, lt, i);
      var k := Above(entries, t, ids, from, lt, i);
      LinkResolves(entries, t, ids, from, lt, c, start, i, k, hops);
      LinkToItself(entries, t, ids, from, lt, c, t.root, i, hops + 1);
    }
  }

  // --- the directory above

  lemma {:induction false} FirstParentIs(names: seq<Name>, child: nat, parent: nat, i: nat, m: nat)
    requires i <= m < |names| && names[m].child == child
    requires forall l :: 0 <= l < |names| && names[l].child == child ==> names[l].parent == parent
    ensures FirstParent(names, child, i) == parent
    decreases m - i
  {
    if names[i].child != child { FirstParentIs(names, child, parent, i + 1, m); }
  }

  /** The part `..` leads from a directory to the one it lies in, and from the root to the root. */
  lemma DotDot(entries: seq<Entry>, t: Tree, ids: seq<nat>, from: seq<nat>, lt: Tree, c: Credentials, k: nat, l: nat,
               follow: bool, hops: nat)
    requires Loads(entries, t, ids, from, lt, LOADS) && hops <= 32
    requires k < |entries| && entries[k].kind == Directory && IsParent(entries, k, l)
    ensures entries[k].id >= 0 && Resolved(lt, c, entries[k].id, [DOT, DOT], follow, hops) == entries[l].id
  {
    Facts(entries, t, ids, from, lt, k);
    Facts(entries, t, ids, from, lt, l);
    OnlyPart(lt, c, [DOT, DOT], entries[k].id, follow, hops);
    if entries[k].path != ROOT { OnlyParent(entries, t, ids, from, lt, k, l); }
  }

  lemma OnlyParent(entries: seq<Entry>, t: Tree, ids: seq<nat>, from: seq<nat>, lt: Tree, k: nat, l: nat)
    requires Loads(entries, t, ids, from, lt, LOADS) && k < |entries| && entries[k].path != ROOT
    requires entries[k].kind == Directory && IsParent(entries, k, l)
    ensures entries[k].id >= 0 && FirstParent(lt.names, entries[k].id, 0) == entries[l].id
  {
    LoadsAre(entries, t, ids, from, lt, LOADS);
    CheckedAt(entries, |entries|, k);
    forall m | 0 <= m < |t.names| && t.names[m].child == entries[k].id ensures t.names[m].parent == entries[l].id {
      NamedBelow(entries, t.names[m], from[m], k, l);
    }
    assert IsListed(from, k);
    var m :| 0 <= m < |from| && from[m] == k;
    assert NamedBy(entries, t.names[m], k);
    FirstParentIs(t.names, entries[k].id, entries[l].id, 0, m);
  }

  lemma NamedBelow(entries: seq<Entry>, name: Name, i: nat, k: nat, l: nat)
    requires SingleDirectories(entries) && AllAgree(entries, |entries|) && NamedBy(entries, name, i)
    requires k < |entries| && entries[k].kind == Directory && IsParent(entries, k, l) && name.child == entries[k].id
    ensures name.parent == entries[l].id
  {
    OneDirectory(entries, k, i);
    var n: nat :| IsParent(entries, i, n) && entries[n].id == name.parent;
    SamePath(entries, n, l);
  }

  /** The path of a directory followed by `/..` is the directory it lies in. */
  lemma DirectoryAbove(entries: seq<Entry>, t: Tree, ids: seq<nat>, from: seq<nat>, lt: Tree, c: Credentials,
                       start: nat, k: nat, l: nat, follow: bool, hops: nat)
    requires Loads(entries, t, ids, from, lt, LOADS) && hops <= 32
    requires k < |entries| && entries[k].kind == Directory && IsParent(entries, k, l)
    ensures Resolved(lt, c, start, entries[k].path + [SLASH] + [DOT, DOT], follow, hops) ==
            if WaySearchable(entries, c, entries[k].path) then entries[l].id else NOT_PERMITTED
  {
    var p := entries[k].path;
    Facts(entries, t, ids, from, lt, k);
    EntryResolves(entries, t, ids, from, lt, c, start, k, true, hops);
    DotDot(entries, t, ids, from, lt, c, k, l, follow, hops);
    if p == ROOT {
      NothingAboveRoot(entries, t, ids, from, lt, c);
      FromRoot(lt, c, start, ROOT + [SLASH], [DOT, DOT], follow, hops);
    } else {
      ReachOfParent(p);
      ByPieces(lt, c, start, p, [SLASH], [DOT, DOT], follow, hops, Resolved(lt, c, start, p, true, hops));
    }
  }

  lemma {:induction false} FirstParentNames(names: seq<Name>, child: nat, i: nat, m: nat) returns (l: nat)
    requires i <= m < |names| && names[m].child == child
    ensures l < |names| && names[l].child == child && FirstParent(names, child, i) == names[l].parent
    decreases m - i
  {
    if names[i].child == child { l := i; } else { l := FirstParentNames(names, child, i + 1, m); }
  }

  /** The path of anything else but a link, followed by `/..`, is the directory of one
      of the names of the file. */
  lemma FileAbove(entries: seq<Entry>, t: Tree, ids: seq<nat>, from: seq<nat>, lt: Tree, c: Credentials, start: nat,
                  i: nat, follow: bool, hops: nat) returns (j: nat, k: nat)
    requires Loads(entries, t, ids, from, lt, LOADS) && hops <= 32 && i < |entries| && entries[i].kind == File
    requires WaySearchable(entries, c, entries[i].path)
    ensures j < |entries| && entries[j].id == entries[i].id && IsParent(entries, j, k)
    ensures Resolved(lt, c, start, entries[i].path + [SLASH] + [DOT, DOT], follow, hops) == entries[k].id
  {
    var p := entries[i].path;
    Facts(entries, t, ids, from, lt, i);
    EntryResolves(entries, t, ids, from, lt, c, start, i, true, hops);
    ReachOfParent(p);
    DotDotBelow(lt, c, start, p, [SLASH], follow, hops, entries[i].id);
    j, k := NamedSomewhere(entries, t, ids, from, lt, i);
    Facts(entries, t, ids, from, lt, k);
  }

  lemma NamedSomewhere(entries: seq<Entry>, t: Tree, ids: seq<nat>, from: seq<nat>, lt: Tree, i: nat)
    returns (j: nat, k: nat)
    requires Loads(entries, t, ids, from, lt, LOADS) && i < |entries| && entries[i].kind == File
    ensures j < |entries| && entries[j].id == entries[i].id && IsParent(entries, j, k)
    ensures entries[i].id >= 0 && ParentOf(lt, entries[i].id) == entries[k].id
  {
    Facts(entries, t, ids, from, lt, i);
    LoadsAre(entries, t, ids, from, lt, LOADS);
    assert IsListed(from, i);
    var m :| 0 <= m < |from| && from[m] == i;
    assert NamedBy(entries, t.names[m], i);
    var l := FirstParentNames(t.names, entries[i].id, 0, m);
    j := from[l];
    assert NamedBy(entries, t.names[l], j);
    k :| IsParent(entries, j, k) && entries[k].id == t.names[l].parent;
  }

  // --- paths that are not listed

  ghost predicate Listed(entries: seq<Entry>, q: seq<Byte>) {
    exists i :: 0 <= i < |entries| && entries[i].path == q
  }

  /** No link of the list lies on the way to `p`. */
  ghost predicate NoLinkOnTheWay(entries: seq<Entry>, p: seq<Byte>) {
    forall l :: 0 <= l < |entries| && entries[l].kind == Link && entries[l].path != p ==> !OnTheWay(entries[l].path, p)
  }

  lemma {:induction false} PartsOfPrefix(p: seq<Byte>, s: nat, at: nat)
    requires 0 < at <= s < |p| && p[s] == SLASH && GoodParts(p, at)
    ensures GoodParts(Span(p, 0, s), at)
    decreases s - at
  {
    var q, end := Span(p, 0, s), PartEnd(p, at);
    assert end <= s;
    forall k | at <= k < end ensures q[k] != SLASH { assert p[k] == q[k]; }
    assert end < s ==> q[end] == p[end];
    PartEndIs(q, at, end);
    assert Span(q, at, end - at) == Span(p, at, end - at);
    if end < s {
      EndsApart(p, s, end);
      PartsOfPrefix(p, s, end + 1);
    }
  }

  /** A slash right after a slash ends an empty part. */
  lemma EndsApart(p: seq<Byte>, s: nat, end: nat)
    requires end < s < |p| && GoodParts(p, end + 1) && p[s] == SLASH
    ensures end + 1 <= s
  {
  }

  /** The parent of a valid path is one. */
  lemma ParentValid(q: seq<Byte>)
    requires ValidPath(q) && q != ROOT
    ensures ValidPath(Parent(q)) && |Parent(q)| < |q|
  {
    Split(q);
    ReachOfParent(q);
    var s := LastSlash(q, |q|);
    if s > 0 {
      NoDoubleSlash(q);
      PartsOfPrefix(q, s, 1);
    }
  }

  lemma NoLinkUp(entries: seq<Entry>, t: Tree, ids: seq<nat>, from: seq<nat>, lt: Tree, q: seq<Byte>)
    requires Loads(entries, t, ids, from, lt, LOADS) && ValidPath(q) && q != ROOT && NoLinkOnTheWay(entries, q)
    ensures NoLinkOnTheWay(entries, Parent(q))
    ensures forall k :: 0 <= k < |entries| && entries[k].path == Parent(q) ==> entries[k].kind != Link
  {
    forall l | 0 <= l < |entries| && entries[l].kind == Link ensures !OnTheWay(entries[l].path, Parent(q)) {
      Facts(entries, t, ids, from, lt, l);
      OnTheWayUp(entries[l].path, q);
    }
    assert OnTheWay(Parent(q), Parent(q));
  }

  /** A valid path that is not listed, and that no link lies on, is refused. */
  lemma {:induction false} UnlistedFails(entries: seq<Entry>, t: Tree, ids: seq<nat>, from: seq<nat>, lt: Tree,
                                         c: Credentials, start: nat, q: seq<Byte>, follow: bool, hops: nat)
    requires Loads(entries, t, ids, from, lt, LOADS) && hops <= 32
    requires ValidPath(q) && !Listed(entries, q) && NoLinkOnTheWay(entries, q)
    ensures Resolved(lt, c, start, q, follow, hops) < 0
    decreases |q|
  {
    if q == ROOT { RootListed(entries, t, ids, from, lt); }
    ParentValid(q);
    NoLinkUp(entries, t, ids, from, lt, q);
    var m := Resolved(lt, c, start, Parent(q), true, hops);
    if Listed(entries, Parent(q)) {
      var k :| 0 <= k < |entries| && entries[k].path == Parent(q);
      Facts(entries, t, ids, from, lt, k);
      ByParent(lt, c, start, q, follow, hops, m);
      EntryResolves(entries, t, ids, from, lt, c, start, k, true, hops);
      if entries[k].kind == Directory { NameMissing(entries, t, ids, from, lt, c, q, k, follow, hops); }
    } else {
      RootListed(entries, t, ids, from, lt);
      UnlistedFails(entries, t, ids, from, lt, c, start, Parent(q), true, hops);
      ByParent(lt, c, start, q, follow, hops, m);
    }
  }

  lemma RootListed(entries: seq<Entry>, t: Tree, ids: seq<nat>, from: seq<nat>, lt: Tree)
    requires Loads(entries, t, ids, from, lt, LOADS)
    ensures Listed(entries, ROOT) && KindOf(lt, lt.root) == DIRECTORY
  {
    LoadsAre(entries, t, ids, from, lt, LOADS);
    var r: nat :| HasRoot(entries, r);
    Facts(entries, t, ids, from, lt, r);
  }

  /** A valid path that no link lies on resolves exactly when it is listed and the
      user may search every directory on the way. */
  lemma ResolvesExactly(entries: seq<Entry>, t: Tree, ids: seq<nat>, from: seq<nat>, c: Credentials, start: nat,
                        p: seq<Byte>)
    requires Describes(entries, t, ids, from) && ValidPath(p) && NoLinkOnTheWay(entries, p)
    ensures Resolved(LoadedTree(t), c, start, p, false, 0) >= 0 <==>
            Listed(entries, p) && WaySearchable(entries, c, p)
  {
    LoadsAre(entries, t, ids, from, LoadedTree(t), LOADS);
    if Listed(entries, p) {
      var i :| 0 <= i < |entries| && entries[i].path == p;
      Facts(entries, t, ids, from, LoadedTree(t), i);
      EntryResolves(entries, t, ids, from, LoadedTree(t), c, start, i, false, 0);
    } else {
      UnlistedFails(entries, t, ids, from, LoadedTree(t), c, start, p, false, 0);
    }
  }

  /** After loading, the kernel resolves every path of up to 4096 bytes to its file. */
  method ResolveEntry(v: Vfs, c: Credentials, start: nat, bytes: array<Byte>, path: nat, length: nat, follow: bool,
                      ghost entries: seq<Entry>, ghost t: Tree, ghost ids: seq<nat>, ghost from: seq<nat>, ghost i: nat)
    returns (r: int)
    requires v.Valid() && v.loaded && v.Contents() == LoadedTree(t) && Describes(entries, t, ids, from)
    requires i < |entries| && length <= 4096 && path + length <= bytes.Length &&
             Span(bytes[..], path, length) == entries[i].path
    requires entries[i].kind != Link || !follow
    ensures r == if WaySearchable(entries, c, entries[i].path) then entries[i].id else NOT_PERMITTED
  {
    LoadsAre(entries, t, ids, from, LoadedTree(t), LOADS);
    EntryResolves(entries, t, ids, from, LoadedTree(t), c, start, i, follow, 0);
    r := Resolve(v, c, start, bytes, path, length, follow);
  }
}
