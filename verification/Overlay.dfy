/** The write overlay of the static web root.

    Pushing a tree stores what differs from the base, and the paths that are
    gone; pulling lays the stored part over the base again.  Inode numbers and
    times are left out. */
module Overlay {
  import opened Frames

  type Path = string

  datatype Option<T> = None | Some(value: T)

  datatype Kind = Directory | Regular | Symbolic

  /** `resident` says that the bytes are at hand and need not be fetched. */
  datatype Entry = Entry(kind: Kind, mode: nat, uid: nat, gid: nat, data: seq<Byte>, resident: bool, to: string)

  type Tree = map<Path, Entry>

  datatype Meta = Meta(path: Path, kind: Kind, mode: nat, uid: nat, gid: nat, to: string, isBase: bool)

  datatype Manifest = Manifest(entries: seq<Meta>, whiteouts: seq<Path>)

  const FOLDS := 2

  type Checksum = seq<Byte> -> int

  // --- paths

  /** Does path p lie below path q? */
  predicate Below(p: Path, q: Path) {
    |p| > |q| && p[..|q|] == q && p[|q|] == '/'
  }

  predicate Covers(w: Path, p: Path) {
    p == w || Below(p, w)
  }

  lemma BelowTransitive(p: Path, q: Path, r: Path)
    requires Below(p, q) && Below(q, r)
    ensures Below(p, r)
  {
    assert p[..|r|] == p[..|q|][..|r|];
  }

  /** Where the part of a path that starts at `at` ends. */
  function PartEnd(p: Path, at: nat): (r: nat)
    requires at <= |p|
    ensures at <= r <= |p| && (at < |p| && p[at] != '/' ==> at < r)
    decreases |p| - at
  {
    if at == |p| || p[at] == '/' then at else PartEnd(p, at + 1)
  }

  /** The parts of a path from `at` on, without the empty ones. */
  function PartsFrom(p: Path, at: nat): seq<string>
    requires at <= |p|
    decreases |p| - at
  {
    if at == |p| then []
    else if p[at] == '/' then PartsFrom(p, at + 1)
    else [p[at..PartEnd(p, at)]] + PartsFrom(p, PartEnd(p, at))
  }

  type Parts = seq<string>

  function PartsOf(p: Path): Parts {
    PartsFrom(p, 0)
  }

  function Joined(parts: Parts): Path {
    if |parts| <= 1 then "/" + (if parts == [] then "" else parts[0])
       else Joined(parts[..|parts| - 1]) + "/" + parts[|parts| - 1]
  }

  /** A path as tree dumps write it: one slash before each part. */
  predicate Canonical(p: Path) {
    p == Joined(PartsOf(p))
  }

  lemma DifferentParts(p: Path, q: Path)
    requires Canonical(p) && Canonical(q) && p != q
    ensures PartsOf(p) != PartsOf(q)
  {
  }

  // --- the data store: files in nested folders

  predicate Inside(p: Parts, folder: Parts) {
    0 < |folder| < |p| && folder == p[..|folder|]
  }

  /** A file may be written here: its folders are no files, and it is no folder. */
  predicate Fits(files: map<Parts, seq<Byte>>, folders: set<Parts>, p: Parts) {
    p != [] && ".." !in p && p !in folders && forall q :: q in files ==> !Inside(p, q)
  }

  /** Nothing lies in this folder. */
  predicate Empty(files: map<Parts, seq<Byte>>, folders: set<Parts>, p: Parts) {
    (forall q :: q in files ==> !Inside(q, p)) && forall q :: q in folders ==> !Inside(q, p)
  }

  function FoldersOf(p: Parts): set<Parts> {
    set k | 0 < k < |p| :: p[..k]
  }

  lemma InItsFolders(p: Parts, q: Parts)
    ensures q in FoldersOf(p) <==> Inside(p, q)
  {
    if Inside(p, q) { assert q == p[..|q|]; }
  }

  /** The folders on the way to `p` that come before the first file in the way. */
  ghost function Opened(files: map<Parts, seq<Byte>>, p: Parts, n: nat): set<Parts>
    requires n <= |p|
  {
    set k | 0 < k < n && Clear(files, p, k + 1) :: p[..k]
  }

  /** No file stands where the first folders on the way to `p` are. */
  ghost predicate Clear(files: map<Parts, seq<Byte>>, p: Parts, n: nat)
    requires n <= |p|
  {
    forall j :: 0 < j < n ==> p[..j] !in files
  }

  lemma ClearIs(files: map<Parts, seq<Byte>>, p: Parts)
    ensures Clear(files, p, |p|) <==> forall q :: q in files ==> !Inside(p, q)
  {
    if Clear(files, p, |p|) {
      forall q | q in files ensures !Inside(p, q) { assert 0 < |q| < |p| ==> p[..|q|] !in files; }
    }
    if forall q :: q in files ==> !Inside(p, q) {
      forall j | 0 < j < |p| ensures p[..j] !in files { assert Inside(p, p[..j]); }
    }
  }

  lemma OpenedMore(files: map<Parts, seq<Byte>>, p: Parts, k: nat)
    requires 0 < k < |p| && Clear(files, p, k) && p[..k] !in files
    ensures Clear(files, p, k + 1) && Opened(files, p, k + 1) == Opened(files, p, k) + {p[..k]}
  {
    var a := Opened(files, p, k) + {p[..k]};
    assert Clear(files, p, k + 1);
    forall q ensures q in Opened(files, p, k + 1) <==> q in a {
      if q in Opened(files, p, k + 1) {
        var j :| 0 < j < k + 1 && Clear(files, p, j + 1) && q == p[..j];
      }
    }
  }

  lemma OpenedStops(files: map<Parts, seq<Byte>>, p: Parts, k: nat)
    requires 0 < k < |p| && p[..k] in files
    ensures Opened(files, p, |p|) == Opened(files, p, k) && Inside(p, p[..k])
  {
  }

  lemma OpenedAll(files: map<Parts, seq<Byte>>, p: Parts)
    requires forall q :: q in files ==> !Inside(p, q)
    ensures Opened(files, p, |p|) == FoldersOf(p)
  {
    ClearIs(files, p);
    forall q ensures q in Opened(files, p, |p|) <==> q in FoldersOf(p) {
      if q in FoldersOf(p) {
        var k :| 0 < k < |p| && q == p[..k];
        assert Clear(files, p, k + 1);
      }
    }
  }

  // --- what entries have in common

  predicate SameContent(sum: Checksum, a: Entry, b: Entry) {
    |a.data| == |b.data| && sum(a.data) == sum(b.data)
  }

  predicate SameBase(sum: Checksum, a: Entry, b: Entry) {
    && a.kind == b.kind && a.mode == b.mode && a.uid == b.uid && a.gid == b.gid
    && (a.kind == Symbolic ==> a.to == b.to) && (a.kind == Regular ==> SameContent(sum, a, b))
  }

  predicate BaseContent(sum: Checksum, a: Entry, b: Entry) {
    a.kind == Regular && b.kind == Regular && SameContent(sum, a, b)
  }

  /** The same entry for whoever reads the tree. */
  predicate Same(a: Entry, b: Entry) {
    && a.kind == b.kind && a.mode == b.mode && a.uid == b.uid && a.gid == b.gid
    && (a.kind == Symbolic ==> a.to == b.to) && (a.kind == Regular ==> a.data == b.data)
  }

  predicate Unchanged(sum: Checksum, base: Tree, p: Path, e: Entry) {
    p in base && SameBase(sum, e, base[p])
  }

  /** Files of one path with the same size and checksum are the same. */
  predicate NoCollision(sum: Checksum, base: Tree, now: Tree) {
    forall p :: p in base && p in now && base[p].kind == Regular && now[p].kind == Regular &&
                SameContent(sum, now[p], base[p])
      ==> now[p].data == base[p].data
  }

  // --- pulling, as a function

  ghost predicate Hides(whiteouts: seq<Path>, p: Path) {
    exists k :: 0 <= k < |whiteouts| && Covers(whiteouts[k], p)
  }

  ghost function Shown(base: Tree, whiteouts: seq<Path>): Tree {
    map p | p in base && !Hides(whiteouts, p) :: base[p]
  }

  function Laid(t: Tree, base: Tree, files: map<Parts, seq<Byte>>, e: Meta): Option<Tree> {
    if e.kind != Regular then Some(t[e.path := Entry(e.kind, e.mode, e.uid, e.gid, [], false, e.to)])
    else if e.isBase then
      if e.path in base && base[e.path].kind == Regular
      then Some(t[e.path := Entry(e.kind, e.mode, e.uid, e.gid, base[e.path].data, base[e.path].resident, e.to)])
      else None
    else if PartsOf(e.path) in files
    then Some(t[e.path := Entry(e.kind, e.mode, e.uid, e.gid, files[PartsOf(e.path)], true, e.to)])
    else None
  }

  function Layered(t: Tree, base: Tree, files: map<Parts, seq<Byte>>, entries: seq<Meta>, n: nat): Option<Tree>
    requires n <= |entries|
  {
    if n == 0 then Some(t)
    else
      var before := Layered(t, base, files, entries, n - 1);
      if before.None? then None else Laid(before.value, base, files, entries[n - 1])
  }

  ghost function Pulled(base: Tree, files: map<Parts, seq<Byte>>, manifest: Option<Manifest>): Option<Tree> {
    if manifest.None? then Some(base)
    else Layered(Shown(base, manifest.value.whiteouts), base, files, manifest.value.entries, |manifest.value.entries|)
  }

  // --- pushing, as a function

  function MetaOf(sum: Checksum, base: Tree, p: Path, e: Entry): Meta {
    Meta(p, e.kind, e.mode, e.uid, e.gid, e.to, p in base && BaseContent(sum, e, base[p]))
  }

  datatype Item = Item(path: Path, entry: Entry)

  ghost predicate Distinct(items: seq<Item>) {
    forall i, j :: 0 <= i < j < |items| ==> items[i].path != items[j].path
  }

  function TreeOf(items: seq<Item>): Tree {
    if items == [] then map[] else TreeOf(items[..|items| - 1])[items[|items| - 1].path := items[|items| - 1].entry]
  }

  lemma {:induction false} TreeHolds(items: seq<Item>, i: nat)
    requires Distinct(items) && i < |items|
    ensures items[i].path in TreeOf(items) && TreeOf(items)[items[i].path] == items[i].entry
  {
    if i < |items| - 1 { TreeHolds(items[..|items| - 1], i); }
  }

  lemma {:induction false} TreeComes(items: seq<Item>, p: Path) returns (i: nat)
    requires p in TreeOf(items)
    ensures i < |items| && items[i].path == p
  {
    var n := |items| - 1;
    if items[n].path == p { i := n; } else { i := TreeComes(items[..n], p); }
  }

  /** The overlay must carry the bytes of this file. */
  predicate Carried(sum: Checksum, base: Tree, item: Item) {
    item.entry.kind == Regular && !Unchanged(sum, base, item.path, item.entry) &&
        !MetaOf(sum, base, item.path, item.entry).isBase
  }

  /** The store has the bytes of this file. */
  predicate Held(files: map<Parts, seq<Byte>>, item: Item) {
    PartsOf(item.path) in files && files[PartsOf(item.path)] == item.entry.data
  }

  /** The bytes are at hand, and the store has room for a file at this path. */
  predicate Storable(files: map<Parts, seq<Byte>>, folders: set<Parts>, item: Item) {
    item.entry.resident && Fits(files, folders, PartsOf(item.path))
  }

  /** The exact condition for storing these items: each file the overlay must carry
      can be stored, and none of them lies inside another. */
  ghost predicate AllStorable(sum: Checksum, base: Tree, files: map<Parts, seq<Byte>>, folders: set<Parts>,
                              items: seq<Item>, n: nat)
    requires n <= |items|
  {
    && (forall i :: 0 <= i < n && Carried(sum, base, items[i]) ==> Storable(files, folders, items[i]))
    && (forall i, j :: 0 <= i < n && 0 <= j < n && Carried(sum, base, items[i]) && Carried(sum, base, items[j]) ==>
          !Inside(PartsOf(items[i].path), PartsOf(items[j].path)))
  }

  /** The store after the first `n` items were written. */
  ghost predicate FilesWritten(sum: Checksum, base: Tree, before: map<Parts, seq<Byte>>, files: map<Parts, seq<Byte>>,
                          items: seq<Item>, n: nat)
    requires n <= |items|
  {
    && (forall q :: q in files <==> q in before || Writes(sum, base, items, n, q))
    && (forall q :: q in before && !Writes(sum, base, items, n, q) ==> files[q] == before[q])
    && (forall i :: 0 <= i < n && Carried(sum, base, items[i]) ==> Held(files, items[i]))
  }

  ghost predicate Writes(sum: Checksum, base: Tree, items: seq<Item>, n: nat, q: Parts)
    requires n <= |items|
  {
    exists i :: 0 <= i < n && Carried(sum, base, items[i]) && PartsOf(items[i].path) == q
  }

  ghost predicate Makes(sum: Checksum, base: Tree, items: seq<Item>, n: nat, q: Parts)
    requires n <= |items|
  {
    exists i :: 0 <= i < n && Carried(sum, base, items[i]) && Inside(PartsOf(items[i].path), q)
  }

  ghost predicate FoldersMade(sum: Checksum, base: Tree, before: set<Parts>, folders: set<Parts>, items: seq<Item>,
                              n: nat)
    requires n <= |items|
  {
    forall q :: q in folders <==> q in before || Makes(sum, base, items, n, q)
  }

  /** None of the first `n` items' files lies inside `p` or has `p` inside. */
  ghost predicate NoClash(sum: Checksum, base: Tree, items: seq<Item>, n: nat, p: Parts)
    requires n <= |items|
  {
    forall i :: 0 <= i < n && Carried(sum, base, items[i]) ==>
      !Inside(p, PartsOf(items[i].path)) && !Inside(PartsOf(items[i].path), p)
  }

  /** The next file can be written exactly when it could be before and does not
      clash with the files written since. */
  lemma FitsStill(sum: Checksum, base: Tree, before: map<Parts, seq<Byte>>, files: map<Parts, seq<Byte>>,
                  made: set<Parts>, folders: set<Parts>, items: seq<Item>, n: nat, p: Parts)
    requires n <= |items| && FilesWritten(sum, base, before, files, items, n) &&
             FoldersMade(sum, base, made, folders, items, n)
    ensures Fits(files, folders, p) <==> (Fits(before, made, p) && NoClash(sum, base, items, n, p))
  {
    if Fits(files, folders, p) {
      forall i | 0 <= i < n && Carried(sum, base, items[i]) ensures !Inside(p, PartsOf(items[i].path)) &&
          !Inside(PartsOf(items[i].path), p) {
        assert Writes(sum, base, items, n, PartsOf(items[i].path));
        assert !Makes(sum, base, items, n, p);
      }
      forall q | q in before ensures !Inside(p, q) { assert q in files; }
    }
  }

  lemma StorableNext(sum: Checksum, base: Tree, before: map<Parts, seq<Byte>>, made: set<Parts>, items: seq<Item>,
                     n: nat, p: Parts)
    requires n < |items| && AllStorable(sum, base, before, made, items, n) && Carried(sum, base, items[n]) &&
             p == PartsOf(items[n].path)
    ensures AllStorable(sum, base, before, made, items, n + 1) <==>
      (items[n].entry.resident && Fits(before, made, p) && NoClash(sum, base, items, n, p))
    ensures !AllStorable(sum, base, before, made, items, n + 1) ==>
            !AllStorable(sum, base, before, made, items, |items|)
  {
    if AllStorable(sum, base, before, made, items, n + 1) {
      assert Storable(before, made, items[n]);
    }
  }

  lemma WrittenMore(sum: Checksum, base: Tree, before: map<Parts, seq<Byte>>, files: map<Parts, seq<Byte>>,
                    made: set<Parts>, folders: set<Parts>, items: seq<Item>, n: nat, p: Parts)
    requires n < |items| && FilesWritten(sum, base, before, files, items, n) &&
             FoldersMade(sum, base, made, folders, items, n)
    requires Carried(sum, base, items[n]) && p == PartsOf(items[n].path) && forall i :: 0 <= i < n ==>
             PartsOf(items[i].path) != p
    ensures FilesWritten(sum, base, before, files[p := items[n].entry.data], items, n + 1)
    ensures FoldersMade(sum, base, made, folders + FoldersOf(p), items, n + 1)
  {
    WritesMore(sum, base, before, files, items, n, p);
    MakesMore(sum, base, made, folders, items, n, p);
  }

  lemma WritesMore(sum: Checksum, base: Tree, before: map<Parts, seq<Byte>>, files: map<Parts, seq<Byte>>,
                   items: seq<Item>, n: nat, p: Parts)
    requires n < |items| && FilesWritten(sum, base, before, files, items, n)
    requires Carried(sum, base, items[n]) && p == PartsOf(items[n].path) && forall i :: 0 <= i < n ==>
             PartsOf(items[i].path) != p
    ensures FilesWritten(sum, base, before, files[p := items[n].entry.data], items, n + 1)
  {
    forall q ensures Writes(sum, base, items, n + 1, q) <==> Writes(sum, base, items, n, q) || q == p {
      if q == p { assert PartsOf(items[n].path) == q; }
    }
  }

  lemma MakesMore(sum: Checksum, base: Tree, made: set<Parts>, folders: set<Parts>, items: seq<Item>, n: nat, p: Parts)
    requires n < |items| && FoldersMade(sum, base, made, folders, items, n)
    requires Carried(sum, base, items[n]) && p == PartsOf(items[n].path)
    ensures FoldersMade(sum, base, made, folders + FoldersOf(p), items, n + 1)
  {
    forall q ensures q in folders + FoldersOf(p) <==> q in made || Makes(sum, base, items, n + 1, q) {
      InItsFolders(p, q);
      if q in FoldersOf(p) { assert Inside(PartsOf(items[n].path), q); }
    }
  }

  /** The folders that trying to store a file leaves behind. */
  ghost function Touched(files: map<Parts, seq<Byte>>, p: Parts, resident: bool): set<Parts> {
    if resident && p != [] && ".." !in p then Opened(files, p, |p|) else {}
  }

  /** A push stopped at some item. */
  ghost predicate Stopped(sum: Checksum, base: Tree, before: map<Parts, seq<Byte>>, files: map<Parts, seq<Byte>>,
                          made: set<Parts>, folders: set<Parts>, items: seq<Item>) {
    exists n: nat :: n < |items| && StoppedAt(sum, base, before, files, made, folders, items, n)
  }

  /** Where a push stops. */
  lemma StopsAt(sum: Checksum, base: Tree, before: map<Parts, seq<Byte>>, files: map<Parts, seq<Byte>>,
                made: set<Parts>, folders: set<Parts>, items: seq<Item>, n: nat)
    requires n < |items| && Writing(sum, base, before, files, made, folders, items, n, FOLDS)
    requires Carried(sum, base, items[n])
    requires !(items[n].entry.resident && Fits(files, folders, PartsOf(items[n].path)))
    ensures Stopped(sum, base, before, files, made,
                    folders + Touched(files, PartsOf(items[n].path), items[n].entry.resident), items)
    ensures !AllStorable(sum, base, before, made, items, |items|)
  {
    WritingIs(sum, base, before, files, made, folders, items, n, FOLDS);
    FitsStill(sum, base, before, files, made, folders, items, n, PartsOf(items[n].path));
    StorableNext(sum, base, before, made, items, n, PartsOf(items[n].path));
    assert StoppedAt(sum, base, before, files, made,
                     folders + Touched(files, PartsOf(items[n].path), items[n].entry.resident), items, n);
  }

  /** A push stopped at item `n`, which could not be stored, when the items before
      it were written. */
  ghost predicate StoppedAt(sum: Checksum, base: Tree, before: map<Parts, seq<Byte>>, files: map<Parts, seq<Byte>>,
                            made: set<Parts>, folders: set<Parts>, items: seq<Item>, n: nat)
    requires n < |items|
  {
    && AllStorable(sum, base, before, made, items, n) && !AllStorable(sum, base, before, made, items, n + 1)
    && FilesWritten(sum, base, before, files, items, n)
    && forall q :: q in folders <==>
         q in made || Makes(sum, base, items, n, q) ||
         q in Touched(files, PartsOf(items[n].path), items[n].entry.resident)
  }

  lemma ItemWritten(sum: Checksum, base: Tree, before: map<Parts, seq<Byte>>, files: map<Parts, seq<Byte>>,
                    made: set<Parts>, folders: set<Parts>, items: seq<Item>, n: nat, p: Parts)
    requires n < |items| && Distinct(items) && forall i :: 0 <= i < |items| ==> Canonical(items[i].path)
    requires Writing(sum, base, before, files, made, folders, items, n, FOLDS)
    requires Carried(sum, base, items[n]) && p == PartsOf(items[n].path)
    requires items[n].entry.resident && Fits(files, folders, p)
    ensures Writing(sum, base, before, files[p := items[n].entry.data], made, folders + FoldersOf(p), items, n + 1,
                    FOLDS)
  {
    WritingIs(sum, base, before, files, made, folders, items, n, FOLDS);
    FitsStill(sum, base, before, files, made, folders, items, n, p);
    StorableNext(sum, base, before, made, items, n, p);
    forall j | 0 <= j < n ensures PartsOf(items[j].path) != p { DifferentParts(items[j].path, items[n].path); }
    WrittenMore(sum, base, before, files, made, folders, items, n, p);
    WritingIs(sum, base, before, files[p := items[n].entry.data], made, folders + FoldersOf(p), items, n + 1, FOLDS);
  }

  lemma NothingWritten(sum: Checksum, base: Tree, before: map<Parts, seq<Byte>>, files: map<Parts, seq<Byte>>,
                       made: set<Parts>, folders: set<Parts>, items: seq<Item>, n: nat)
    requires n < |items| && Writing(sum, base, before, files, made, folders, items, n, FOLDS)
    requires !Carried(sum, base, items[n])
    ensures Writing(sum, base, before, files, made, folders, items, n + 1, FOLDS)
  {
    WritingIs(sum, base, before, files, made, folders, items, n, FOLDS);
    NoMoreWrites(sum, base, before, files, items, n);
    NoMoreMakes(sum, base, made, folders, items, n);
    WritingIs(sum, base, before, files, made, folders, items, n + 1, FOLDS);
  }

  lemma NoMoreWrites(sum: Checksum, base: Tree, before: map<Parts, seq<Byte>>, files: map<Parts, seq<Byte>>,
                     items: seq<Item>, n: nat)
    requires n < |items| && FilesWritten(sum, base, before, files, items, n) && !Carried(sum, base, items[n])
    ensures FilesWritten(sum, base, before, files, items, n + 1)
  {
    forall q ensures Writes(sum, base, items, n + 1, q) <==> Writes(sum, base, items, n, q) {
    }
  }

  lemma NoMoreMakes(sum: Checksum, base: Tree, made: set<Parts>, folders: set<Parts>, items: seq<Item>, n: nat)
    requires n < |items| && FoldersMade(sum, base, made, folders, items, n) && !Carried(sum, base, items[n])
    ensures FoldersMade(sum, base, made, folders, items, n + 1)
  {
    forall q ensures Makes(sum, base, items, n + 1, q) <==> Makes(sum, base, items, n, q) {
    }
  }

  /** The first `n` items were stored.  Kept folded. */
  ghost predicate Writing(sum: Checksum, base: Tree, before: map<Parts, seq<Byte>>, files: map<Parts, seq<Byte>>,
                          made: set<Parts>, folders: set<Parts>, items: seq<Item>, n: nat, folds: nat)
    requires n <= |items|
  {
    if folds > 0 then Writing(sum, base, before, files, made, folders, items, n, folds - 1)
    else
      && AllStorable(sum, base, before, made, items, n)
      && FilesWritten(sum, base, before, files, items, n) && FoldersMade(sum, base, made, folders, items, n)
  }

  lemma WritingIs(sum: Checksum, base: Tree, before: map<Parts, seq<Byte>>, files: map<Parts, seq<Byte>>,
                  made: set<Parts>, folders: set<Parts>, items: seq<Item>, n: nat, folds: nat)
    requires n <= |items|
    ensures Writing(sum, base, before, files, made, folders, items, n, folds) <==>
            AllStorable(sum, base, before, made, items, n) &&
            FilesWritten(sum, base, before, files, items, n) && FoldersMade(sum, base, made, folders, items, n)
  {
  }

  lemma WritingBegins(sum: Checksum, base: Tree, files: map<Parts, seq<Byte>>, folders: set<Parts>, items: seq<Item>,
                      folds: nat)
    ensures Writing(sum, base, files, files, folders, folders, items, 0, folds)
  {
    WritingIs(sum, base, files, files, folders, folders, items, 0, folds);
  }

  /** What the overlay says of one item, if anything. */
  function Change(sum: Checksum, base: Tree, item: Item): seq<Meta> {
    if Unchanged(sum, base, item.path, item.entry) then [] else [MetaOf(sum, base, item.path, item.entry)]
  }

  /** What the overlay says of the first `n` items. */
  function Changed(sum: Checksum, base: Tree, items: seq<Item>, n: nat): seq<Meta>
    requires n <= |items|
  {
    if n == 0 then []
    else Changed(sum, base, items, n - 1) + Change(sum, base, items[n - 1])
  }

  lemma {:induction false} CarriedIsChanged(sum: Checksum, base: Tree, items: seq<Item>, n: nat, i: nat)
    requires i < n <= |items| && !Unchanged(sum, base, items[i].path, items[i].entry)
    ensures exists j :: 0 <= j < |Changed(sum, base, items, n)| &&
                        Changed(sum, base, items, n)[j] == MetaOf(sum, base, items[i].path, items[i].entry)
  {
    var c := Changed(sum, base, items, n);
    if i < n - 1 {
      CarriedIsChanged(sum, base, items, n - 1, i);
      var d := Changed(sum, base, items, n - 1);
      var j :| 0 <= j < |d| && d[j] == MetaOf(sum, base, items[i].path, items[i].entry);
      assert c[j] == d[j];
    } else {
      assert c[|c| - 1] == MetaOf(sum, base, items[i].path, items[i].entry);
    }
  }

  lemma ShownMore(base: Tree, whiteouts: seq<Path>, k: nat)
    requires k < |whiteouts|
    ensures Shown(base, whiteouts[..k + 1]) == map p | p in Shown(base, whiteouts[..k]) && !Covers(whiteouts[k], p) ::
            Shown(base, whiteouts[..k])[p]
  {
    forall p ensures Hides(whiteouts[..k + 1], p) <==> Hides(whiteouts[..k], p) || Covers(whiteouts[k], p) {
      if Covers(whiteouts[k], p) { assert Covers(whiteouts[..k + 1][k], p); }
      if Hides(whiteouts[..k], p) {
        var j :| 0 <= j < k && Covers(whiteouts[..k][j], p);
        assert Covers(whiteouts[..k + 1][j], p);
      }
      if Hides(whiteouts[..k + 1], p) {
        var j :| 0 <= j < k + 1 && Covers(whiteouts[..k + 1][j], p);
        assert j < k ==> Covers(whiteouts[..k][j], p);
      }
    }
  }

  lemma {:induction false} Stuck(t: Tree, base: Tree, files: map<Parts, seq<Byte>>, entries: seq<Meta>, k: nat, n: nat)
    requires k <= n <= |entries| && Layered(t, base, files, entries, k).None?
    ensures Layered(t, base, files, entries, n).None?
  {
    if k < n { Stuck(t, base, files, entries, k, n - 1); }
  }

  /** The base paths that the new tree has not. */
  function Missing(base: Tree, now: Tree): set<Path> {
    set p | p in base && p != "/" && p !in now
  }

  /** Paths that cover all missing ones, none of which could be left out: each is
      missing, none covers another, and every missing path is covered. */
  ghost predicate Minimal(missing: set<Path>, whiteouts: seq<Path>) {
    && (forall k :: 0 <= k < |whiteouts| ==> whiteouts[k] in missing)
    && (forall j, k :: 0 <= j < |whiteouts| && 0 <= k < |whiteouts| && j != k ==> !Covers(whiteouts[j], whiteouts[k]))
    && (forall p :: p in missing ==> Hides(whiteouts, p))
  }

  lemma CoveredAlready(missing: set<Path>, whiteouts: seq<Path>, path: Path)
    requires Minimal(missing, whiteouts) && exists k :: 0 <= k < |whiteouts| && Below(path, whiteouts[k])
    ensures Minimal(missing + {path}, whiteouts)
  {
    var k :| 0 <= k < |whiteouts| && Below(path, whiteouts[k]);
    assert Covers(whiteouts[k], path);
  }

  lemma OneMore(missing: set<Path>, whiteouts: seq<Path>, path: Path)
    requires Minimal(missing, whiteouts) && path !in missing && forall p :: p in missing ==> |p| <= |path|
    requires forall k :: 0 <= k < |whiteouts| ==> !Below(path, whiteouts[k])
    ensures Minimal(missing + {path}, whiteouts + [path])
  {
    var out := whiteouts + [path];
    assert out[|whiteouts|] == path;
    forall p | p in missing + {path} ensures Hides(out, p) {
      if p == path {
        assert Covers(out[|whiteouts|], p);
      } else {
        var k :| 0 <= k < |whiteouts| && Covers(whiteouts[k], p);
        assert Covers(out[k], p);
      }
    }
  }

  /** What a stored manifest says of files: one entry a path, and paths are canonical
      and stay in the store. */
  ghost predicate Orderly(m: Option<Manifest>) {
    m.Some? ==>
      && DistinctMetas(m.value.entries)
      && forall k :: 0 <= k < |m.value.entries| ==> OrderlyMeta(m.value.entries[k])
  }

  ghost predicate DistinctMetas(entries: seq<Meta>) {
    forall j, k :: 0 <= j < k < |entries| ==> entries[j].path != entries[k].path
  }

  ghost predicate OrderlyMeta(e: Meta) {
    Canonical(e.path) && (e.kind == Regular && !e.isBase ==> ".." !in PartsOf(e.path))
  }

  lemma {:induction false} ChangedOrderly(sum: Checksum, base: Tree, items: seq<Item>, n: nat)
    requires n <= |items| && forall i :: 0 <= i < n ==> Canonical(items[i].path)
    requires forall i :: 0 <= i < n && Carried(sum, base, items[i]) ==> ".." !in PartsOf(items[i].path)
    ensures forall k :: 0 <= k < |Changed(sum, base, items, n)| ==> OrderlyMeta(Changed(sum, base, items, n)[k])
  {
    if n > 0 {
      ChangedOrderly(sum, base, items, n - 1);
      if !Unchanged(sum, base, items[n - 1].path, items[n - 1].entry) {
        assert OrderlyMeta(MetaOf(sum, base, items[n - 1].path, items[n - 1].entry));
      }
    }
  }

  lemma {:induction false} ChangedDistinct(sum: Checksum, base: Tree, items: seq<Item>, n: nat)
    requires n <= |items| && Distinct(items)
    ensures DistinctMetas(Changed(sum, base, items, n))
    ensures forall k :: 0 <= k < |Changed(sum, base, items, n)| ==>
              exists i :: 0 <= i < n && items[i].path == Changed(sum, base, items, n)[k].path
  {
    if n > 0 {
      ChangedDistinct(sum, base, items, n - 1);
      var was, c := Changed(sum, base, items, n - 1), Changed(sum, base, items, n);
      forall k | 0 <= k < |c| ensures exists i :: 0 <= i < n && items[i].path == c[k].path {
        if k < |was| {
          var i :| 0 <= i < n - 1 && items[i].path == was[k].path;
          assert items[i].path == c[k].path;
        } else {
          assert items[n - 1].path == c[k].path;
        }
      }
    }
  }

  // --- what a push removes

  /** The entry stands for bytes in the store. */
  predicate IsData(e: Meta) {
    e.kind == Regular && !e.isBase
  }

  /** One of the first `n` entries names the bytes at `q`. */
  ghost predicate NamesData(entries: seq<Meta>, n: nat, q: Parts)
    requires n <= |entries|
  {
    exists k :: 0 <= k < n && IsData(entries[k]) && PartsOf(entries[k].path) == q
  }

  ghost predicate OldData(overlay: Option<Manifest>, q: Parts) {
    overlay.Some? && NamesData(overlay.value.entries, |overlay.value.entries|, q)
  }

  /** The store after the first `n` entries of the old overlay were looked at: files
      that they name and the items do not carry are gone, and of the folders at most
      those that they name and that are empty. */
  ghost predicate Cleared(sum: Checksum, base: Tree, before: map<Parts, seq<Byte>>, files: map<Parts, seq<Byte>>,
                          made: set<Parts>, folders: set<Parts>, entries: seq<Meta>, n: nat, items: seq<Item>)
    requires n <= |entries|
  {
    && FilesCleared(sum, base, before, files, entries, n, items) && folders <= made
    && (forall q :: q in made && q !in folders ==> GoneFolder(files, folders, entries, n, q))
    && (forall q :: q in folders && q !in before && NamesData(entries, n, q) && q != [] && Empty(before, made, q) ==>
          Writes(sum, base, items, |items|, q))
  }

  ghost predicate GoneFolder(files: map<Parts, seq<Byte>>, folders: set<Parts>, entries: seq<Meta>, n: nat, q: Parts)
    requires n <= |entries|
  {
    NamesData(entries, n, q) && q !in files && Empty(files, folders, q)
  }

  ghost predicate FilesCleared(sum: Checksum, base: Tree, before: map<Parts, seq<Byte>>, files: map<Parts, seq<Byte>>,
                               entries: seq<Meta>, n: nat, items: seq<Item>)
    requires n <= |entries|
  {
    && (forall q :: q in files <==>
          q in before && (NamesData(entries, n, q) ==> Writes(sum, base, items, |items|, q)))
    && (forall q :: q in files && q in before ==> files[q] == before[q])
  }

  /** The entry names bytes that the new overlay does not carry. */
  predicate IsStale(e: Meta, changed: seq<Meta>) {
    IsData(e) && !(exists j :: 0 <= j < |changed| && changed[j].path == e.path && IsData(changed[j]))
  }

  /** `Cleared`, kept folded. */
  ghost predicate Clearing(sum: Checksum, base: Tree, before: map<Parts, seq<Byte>>, files: map<Parts, seq<Byte>>,
                           made: set<Parts>, folders: set<Parts>, entries: seq<Meta>, n: nat, items: seq<Item>,
                           folds: nat)
    requires n <= |entries|
  {
    if folds > 0 then Clearing(sum, base, before, files, made, folders, entries, n, items, folds - 1)
    else Cleared(sum, base, before, files, made, folders, entries, n, items)
  }

  lemma ClearingIs(sum: Checksum, base: Tree, before: map<Parts, seq<Byte>>, files: map<Parts, seq<Byte>>,
                   made: set<Parts>, folders: set<Parts>, entries: seq<Meta>, n: nat, items: seq<Item>, folds: nat)
    requires n <= |entries|
    ensures Clearing(sum, base, before, files, made, folders, entries, n, items, folds) <==>
            Cleared(sum, base, before, files, made, folders, entries, n, items)
  {
  }

  lemma NamesMore(entries: seq<Meta>, n: nat, q: Parts)
    requires n < |entries|
    ensures NamesData(entries, n + 1, q) <==>
            NamesData(entries, n, q) || (IsData(entries[n]) && PartsOf(entries[n].path) == q)
  {
    if IsData(entries[n]) && PartsOf(entries[n].path) == q { assert NamesData(entries, n + 1, q); }
  }

  lemma ClearingKeeps(sum: Checksum, base: Tree, before: map<Parts, seq<Byte>>, files: map<Parts, seq<Byte>>,
                      made: set<Parts>, folders: set<Parts>, entries: seq<Meta>, n: nat, items: seq<Item>)
    requires n < |entries| && Clearing(sum, base, before, files, made, folders, entries, n, items, FOLDS)
    requires IsData(entries[n]) ==> Writes(sum, base, items, |items|, PartsOf(entries[n].path))
    ensures Clearing(sum, base, before, files, made, folders, entries, n + 1, items, FOLDS)
  {
    ClearingIs(sum, base, before, files, made, folders, entries, n, items, FOLDS);
    forall q ensures NamesData(entries, n + 1, q) <==>
                     NamesData(entries, n, q) || (IsData(entries[n]) && PartsOf(entries[n].path) == q) {
      NamesMore(entries, n, q);
    }
    ClearingIs(sum, base, before, files, made, folders, entries, n + 1, items, FOLDS);
  }

  lemma ClearingDrops(sum: Checksum, base: Tree, before: map<Parts, seq<Byte>>, files: map<Parts, seq<Byte>>,
                      made: set<Parts>, folders: set<Parts>, entries: seq<Meta>, n: nat, items: seq<Item>, p: Parts,
                      files': map<Parts, seq<Byte>>, folders': set<Parts>)
    requires n < |entries| && Clearing(sum, base, before, files, made, folders, entries, n, items, FOLDS)
    requires IsData(entries[n]) && p == PartsOf(entries[n].path) && !Writes(sum, base, items, |items|, p)
    requires files' == files - {p}
    requires folders' == if p !in files && p != [] && Empty(files, folders, p) then folders - {p} else folders
    ensures Clearing(sum, base, before, files', made, folders', entries, n + 1, items, FOLDS)
  {
    ClearingIs(sum, base, before, files, made, folders, entries, n, items, FOLDS);
    FilesDrop(sum, base, before, files, entries, n, items, p, files');
    forall q | q in made && q !in folders' ensures GoneFolder(files', folders', entries, n + 1, q) {
      FolderGone(files, made, folders, entries, n, p, files', folders', q);
    }
    forall q | q in folders' && q !in before && NamesData(entries, n + 1, q) && q != [] && Empty(before, made, q)
      ensures Writes(sum, base, items, |items|, q)
    {
      NamesMore(entries, n, q);
      EmptyStill(before, made, files, folders, q);
    }
    ClearingIs(sum, base, before, files', made, folders', entries, n + 1, items, FOLDS);
  }

  lemma FilesDrop(sum: Checksum, base: Tree, before: map<Parts, seq<Byte>>, files: map<Parts, seq<Byte>>,
                  entries: seq<Meta>, n: nat, items: seq<Item>, p: Parts, files': map<Parts, seq<Byte>>)
    requires n < |entries| && FilesCleared(sum, base, before, files, entries, n, items)
    requires IsData(entries[n]) && p == PartsOf(entries[n].path) && !Writes(sum, base, items, |items|, p)
    requires files' == files - {p}
    ensures FilesCleared(sum, base, before, files', entries, n + 1, items)
  {
    forall q ensures NamesData(entries, n + 1, q) <==> NamesData(entries, n, q) || q == p {
      NamesMore(entries, n, q);
    }
  }

  lemma FolderGone(files: map<Parts, seq<Byte>>, made: set<Parts>, folders: set<Parts>, entries: seq<Meta>, n: nat,
                   p: Parts, files': map<Parts, seq<Byte>>, folders': set<Parts>, q: Parts)
    requires n < |entries| && IsData(entries[n]) && p == PartsOf(entries[n].path) && files' == files - {p}
    requires folders' == if p !in files && p != [] && Empty(files, folders, p) then folders - {p} else folders
    requires q in made && q !in folders' && (q !in folders ==> GoneFolder(files, folders, entries, n, q))
    ensures GoneFolder(files', folders', entries, n + 1, q)
  {
    NamesMore(entries, n, q);
    EmptyStill(files, folders, files', folders', q);
  }

  lemma EmptyStill(files: map<Parts, seq<Byte>>, folders: set<Parts>, files': map<Parts, seq<Byte>>,
                   folders': set<Parts>, p: Parts)
    requires Empty(files, folders, p) && files'.Keys <= files.Keys && folders' <= folders
    ensures Empty(files', folders', p)
  {
    forall q | q in files' ensures !Inside(q, p) { assert q in files; }
  }

  /** What a new overlay names is what its items carry. */
  lemma {:induction false} ChangedNames(sum: Checksum, base: Tree, items: seq<Item>, n: nat, q: Parts)
    requires n <= |items|
    ensures NamesData(Changed(sum, base, items, n), |Changed(sum, base, items, n)|, q) <==>
            Writes(sum, base, items, n, q)
  {
    if n > 0 {
      ChangedNames(sum, base, items, n - 1, q);
      var c, d, e := Changed(sum, base, items, n), Changed(sum, base, items, n - 1), Change(sum, base, items[n - 1]);
      assert Carried(sum, base, items[n - 1]) <==> e != [] && IsData(e[0]);
      NamesJoined(d, e, q);
    }
  }

  lemma NamesJoined(d: seq<Meta>, e: seq<Meta>, q: Parts)
    requires |e| <= 1
    ensures NamesData(d + e, |d + e|, q) <==>
            NamesData(d, |d|, q) || (e != [] && IsData(e[0]) && PartsOf(e[0].path) == q)
  {
    var c := d + e;
    forall k | 0 <= k < |d| ensures c[k] == d[k] {}
    if e != [] { assert c[|d|] == e[0]; }
    if NamesData(c, |c|, q) {
      var k :| 0 <= k < |c| && IsData(c[k]) && PartsOf(c[k].path) == q;
      if k < |d| { assert d[k] == c[k]; }
    }
    if NamesData(d, |d|, q) {
      var k :| 0 <= k < |d| && IsData(d[k]) && PartsOf(d[k].path) == q;
      assert c[k] == d[k];
    }
  }

  lemma StaleMeans(sum: Checksum, base: Tree, items: seq<Item>, changed: seq<Meta>, e: Meta)
    requires changed == Changed(sum, base, items, |items|) && IsData(e) && OrderlyMeta(e)
    requires forall i :: 0 <= i < |items| ==> Canonical(items[i].path)
    ensures IsStale(e, changed) <==> !Writes(sum, base, items, |items|, PartsOf(e.path))
  {
    var q := PartsOf(e.path);
    ChangedNames(sum, base, items, |items|, q);
    forall j | 0 <= j < |changed| ensures changed[j].path == e.path <==> PartsOf(changed[j].path) == q {
      ChangedCanonical(sum, base, items, |items|, j);
      if changed[j].path != e.path { DifferentParts(changed[j].path, e.path); }
    }
  }

  lemma {:induction false} ChangedCanonical(sum: Checksum, base: Tree, items: seq<Item>, n: nat, k: nat)
    requires n <= |items| && k < |Changed(sum, base, items, n)|
    requires forall i :: 0 <= i < |items| ==> Canonical(items[i].path)
    ensures Canonical(Changed(sum, base, items, n)[k].path)
  {
    if n > 0 && k < |Changed(sum, base, items, n - 1)| { ChangedCanonical(sum, base, items, n - 1, k); }
  }

  /** The store after a push: its files are those carried now and those stored before
      that the old overlay did not name, and they have the bytes they had.  Folders stay
      and those of the new files are made, except that an empty one goes whose name the
      old overlay gives for a file. */
  ghost predicate StoreAfter(sum: Checksum, base: Tree, before: map<Parts, seq<Byte>>, files: map<Parts, seq<Byte>>,
                             made: set<Parts>, folders: set<Parts>, overlay: Option<Manifest>, items: seq<Item>)
  {
    && FilesAfter(sum, base, before, files, overlay, items)
    && FoldersAfter(sum, base, before, files, made, folders, overlay, items)
  }

  ghost predicate FilesAfter(sum: Checksum, base: Tree, before: map<Parts, seq<Byte>>, files: map<Parts, seq<Byte>>,
                             overlay: Option<Manifest>, items: seq<Item>)
  {
    && (forall q :: q in files <==> Writes(sum, base, items, |items|, q) || (q in before && !OldData(overlay, q)))
    && (forall q :: q in files && !Writes(sum, base, items, |items|, q) ==> files[q] == before[q])
    && (forall i :: 0 <= i < |items| && Carried(sum, base, items[i]) ==> Held(files, items[i]))
  }

  ghost predicate FoldersAfter(sum: Checksum, base: Tree, before: map<Parts, seq<Byte>>, files: map<Parts, seq<Byte>>,
                               made: set<Parts>, folders: set<Parts>, overlay: Option<Manifest>, items: seq<Item>)
  {
    && (forall q :: q in folders ==> q in made || Makes(sum, base, items, |items|, q))
    && (forall q :: (q in made || Makes(sum, base, items, |items|, q)) && q !in folders ==>
          OldData(overlay, q) && q !in files && Empty(files, folders, q))
    && (forall q :: q in folders && OldData(overlay, q) ==>
          || q in before || Writes(sum, base, items, |items|, q) || q == []
          || !EmptyWritten(sum, base, before, made, items, q))
  }

  /** Nothing lies in this folder once the items are written. */
  ghost predicate EmptyWritten(sum: Checksum, base: Tree, before: map<Parts, seq<Byte>>, made: set<Parts>,
                               items: seq<Item>, p: Parts)
  {
    && (forall q :: q in before || Writes(sum, base, items, |items|, q) ==> !Inside(q, p))
    && (forall q :: q in made || Makes(sum, base, items, |items|, q) ==> !Inside(q, p))
  }

  lemma StoreSettles(sum: Checksum, base: Tree, before: map<Parts, seq<Byte>>, was: map<Parts, seq<Byte>>,
                     files: map<Parts, seq<Byte>>, made: set<Parts>, there: set<Parts>, folders: set<Parts>,
                     overlay: Option<Manifest>, items: seq<Item>)
    requires FilesWritten(sum, base, before, was, items, |items|) &&
             FoldersMade(sum, base, made, there, items, |items|)
    requires if overlay.None? then files == was && folders == there
             else Cleared(sum, base, was, files, there, folders, overlay.value.entries, |overlay.value.entries|, items)
    ensures StoreAfter(sum, base, before, files, made, folders, overlay, items)
  {
    if overlay.Some? {
      FilesSettle(sum, base, before, was, files, overlay.value, items);
      FoldersSettle(sum, base, before, was, files, made, there, folders, overlay.value, items);
    } else {
      assert FoldersAfter(sum, base, before, files, made, folders, overlay, items);
    }
  }

  lemma FilesSettle(sum: Checksum, base: Tree, before: map<Parts, seq<Byte>>, was: map<Parts, seq<Byte>>,
                    files: map<Parts, seq<Byte>>, overlay: Manifest, items: seq<Item>)
    requires FilesWritten(sum, base, before, was, items, |items|)
    requires FilesCleared(sum, base, was, files, overlay.entries, |overlay.entries|, items)
    ensures FilesAfter(sum, base, before, files, Some(overlay), items)
  {
    forall i | 0 <= i < |items| && Carried(sum, base, items[i]) ensures Held(files, items[i]) {
      assert Writes(sum, base, items, |items|, PartsOf(items[i].path)) && Held(was, items[i]);
    }
    forall q | q in files && !Writes(sum, base, items, |items|, q) ensures files[q] == before[q] {
      assert q in was;
    }
  }

  lemma FoldersSettle(sum: Checksum, base: Tree, before: map<Parts, seq<Byte>>, was: map<Parts, seq<Byte>>,
                      files: map<Parts, seq<Byte>>, made: set<Parts>, there: set<Parts>, folders: set<Parts>,
                      overlay: Manifest, items: seq<Item>)
    requires FilesWritten(sum, base, before, was, items, |items|) &&
             FoldersMade(sum, base, made, there, items, |items|)
    requires Cleared(sum, base, was, files, there, folders, overlay.entries, |overlay.entries|, items)
    ensures FoldersAfter(sum, base, before, files, made, folders, Some(overlay), items)
  {
    forall q | q in folders && OldData(Some(overlay), q) && q !in before && q != [] &&
        !Writes(sum, base, items, |items|, q)
      ensures !EmptyWritten(sum, base, before, made, items, q)
    {
      if EmptyWritten(sum, base, before, made, items, q) {
        WrittenEmpty(sum, base, before, was, made, there, items, q);
      }
    }
    forall q | q in there && q !in folders
      ensures OldData(Some(overlay), q) && q !in files && Empty(files, folders, q)
    {
      assert GoneFolder(files, folders, overlay.entries, |overlay.entries|, q);
    }
  }

  lemma WrittenEmpty(sum: Checksum, base: Tree, before: map<Parts, seq<Byte>>, was: map<Parts, seq<Byte>>,
                     made: set<Parts>, there: set<Parts>, items: seq<Item>, p: Parts)
    requires FilesWritten(sum, base, before, was, items, |items|) &&
             FoldersMade(sum, base, made, there, items, |items|)
    requires EmptyWritten(sum, base, before, made, items, p)
    ensures Empty(was, there, p)
  {
  }

  class WebTree {
    const base: Tree
    const sum: Checksum
    var files: map<Parts, seq<Byte>>
    var folders: set<Parts>
    var stored: Option<Manifest>
    var overlay: Option<Manifest>

    ghost predicate Valid()
      reads this
    {
      Orderly(stored) && Orderly(overlay)
    }

    constructor (root: Tree, checksum: Checksum)
      ensures Valid() && base == root && sum == checksum && files == map[] && folders == {} && stored == None &&
              overlay == None
    {
      base, sum, files, folders, stored, overlay := root, checksum, map[], {}, None, None;
    }

    method Whiteouts(now: Tree) returns (out: seq<Path>)
      ensures Minimal(Missing(base, now), out)
    {
      var rest := Missing(base, now);
      out := [];
      while rest != {}
        invariant rest <= Missing(base, now)
        invariant Minimal(Missing(base, now) - rest, out)
        invariant forall p, q :: p in rest && q in Missing(base, now) && q !in rest ==> |q| <= |p|
        decreases |rest|
      {
        var path := Shortest(rest);
        var covered := exists k :: 0 <= k < |out| && Below(path, out[k]);
        ghost var done := Missing(base, now) - rest;
        rest := rest - {path};
        assert Missing(base, now) - rest == done + {path};
        if covered {
          CoveredAlready(done, out, path);
        } else {
          OneMore(done, out, path);
          out := out + [path];
        }
      }
    }

    /** One of the shortest paths of a set. */
    method Shortest(paths: set<Path>) returns (path: Path)
      requires paths != {}
      ensures path in paths && forall p :: p in paths ==> |path| <= |p|
    {
      path :| path in paths;
      var rest := paths - {path};
      while rest != {}
        invariant path in paths && rest <= paths && forall p :: p in paths && p !in rest ==> |path| <= |p|
        decreases |rest|
      {
        var p :| p in rest;
        rest := rest - {p};
        if |p| < |path| { path := p; }
      }
    }

    /** Open the folders on the way to `p`, making what is not there; a file in the
        way stops this. */
    method OpenFolders(p: Parts) returns (ok: bool)
      requires p != []
      modifies `folders
      ensures folders == old(folders) + Opened(files, p, |p|)
      ensures ok <==> forall q :: q in files ==> !Inside(p, q)
    {
      var k := 1;
      while k < |p|
        invariant 1 <= k <= |p| && Clear(files, p, k)
        invariant folders == old(folders) + Opened(files, p, k)
      {
        if p[..k] in files {
          OpenedStops(files, p, k);
          return false;
        }
        OpenedMore(files, p, k);
        folders := folders + {p[..k]};
        k := k + 1;
      }
      ClearIs(files, p);
      ok := true;
    }

    /** Write a file if its bytes are at hand and it fits; otherwise only folders may be made. */
    method WriteData(p: Parts, data: seq<Byte>, resident: bool) returns (ok: bool)
      modifies `files, `folders
      ensures ok <==> resident && old(Fits(files, folders, p))
      ensures files == if ok then old(files)[p := data] else old(files)
      ensures folders == old(folders) + if ok then FoldersOf(p) else Touched(old(files), p, resident)
    {
      if !resident || p == [] || ".." in p { return false; }
      ok := OpenFolders(p);
      if ok { OpenedAll(files, p); }
      if !ok || p in folders { return false; }
      files := files[p := data];
    }

    /** Write the bytes of item `n` if the overlay must carry them. */
    method WriteItem(items: seq<Item>, n: nat, ghost before: map<Parts, seq<Byte>>, ghost made: set<Parts>)
      returns (ok: bool)
      requires n < |items| && Distinct(items) && forall i :: 0 <= i < |items| ==> Canonical(items[i].path)
      requires Writing(sum, base, before, files, made, folders, items, n, FOLDS)
      modifies `files, `folders
      ensures !ok ==> !AllStorable(sum, base, before, made, items, |items|)
      ensures !ok ==> Stopped(sum, base, before, files, made, folders, items)
      ensures ok ==> Writing(sum, base, before, files, made, folders, items, n + 1, FOLDS)
    {
      var item := items[n];
      var p := PartsOf(item.path);
      if Carried(sum, base, item) {
        ghost var was, there := files, folders;
        ok := WriteData(p, item.entry.data, item.entry.resident);
        if !ok {
          StopsAt(sum, base, before, was, made, there, items, n);
          return;
        }
        ItemWritten(sum, base, before, was, made, there, items, n, p);
      } else {
        NothingWritten(sum, base, before, files, made, folders, items, n);
      }
      ok := true;
    }

    /** Write the bytes of the items that the overlay must carry. */
    method WriteChanged(items: seq<Item>) returns (changed: seq<Meta>, ok: bool)
      requires Distinct(items) && forall i :: 0 <= i < |items| ==> Canonical(items[i].path)
      modifies `files, `folders
      ensures ok <==> AllStorable(sum, base, old(files), old(folders), items, |items|)
      ensures ok ==> changed == Changed(sum, base, items, |items|)
      ensures ok ==> FilesWritten(sum, base, old(files), files, items, |items|)
      ensures ok ==> FoldersMade(sum, base, old(folders), folders, items, |items|)
      ensures !ok ==> Stopped(sum, base, old(files), files, old(folders), folders, items)
    {
      changed := [];
      WritingBegins(sum, base, files, folders, items, FOLDS);
      var i := 0;
      while i < |items|
        invariant 0 <= i <= |items| && changed == Changed(sum, base, items, i)
        invariant Writing(sum, base, old(files), files, old(folders), folders, items, i, FOLDS)
      {
        ok := WriteItem(items, i, old(files), old(folders));
        if !ok { return; }
        changed := changed + Change(sum, base, items[i]);
        i := i + 1;
      }
      WritingIs(sum, base, old(files), files, old(folders), folders, items, i, FOLDS);
      ok := true;
    }

    /** Store what differs from the base.  It succeeds exactly when the bytes of every
        changed file are at hand and the store has room for them; otherwise the
        manifest is as it was, though bytes it names may be overwritten already. */
    method Push(items: seq<Item>) returns (ok: bool)
      requires Valid() && Distinct(items) && forall i :: 0 <= i < |items| ==> Canonical(items[i].path)
      modifies this
      ensures Valid() && (!ok ==> stored == old(stored) && overlay == old(overlay))
      ensures ok <==> AllStorable(sum, base, old(files), old(folders), items, |items|)
      ensures ok ==> stored.Some? && overlay == stored && Pushed(sum, base, files, stored.value, items)
      ensures ok ==> StoreAfter(sum, base, old(files), files, old(folders), folders, old(overlay), items)
      ensures !ok ==> Stopped(sum, base, old(files), files, old(folders), folders, items)
    {
      var now: Tree := map[];
      var i := 0;
      while i < |items|
        invariant 0 <= i <= |items| && now == TreeOf(items[..i])
      {
        assert items[..i + 1][..i] == items[..i];
        now := now[items[i].path := items[i].entry];
        i := i + 1;
      }
      assert items[..|items|] == items;
      var whiteouts := Whiteouts(now);
      var changed;
      changed, ok := WriteChanged(items);
      if !ok { return; }
      ghost var was, there := files, folders;
      DropStale(changed, items);
      StoreSettles(sum, base, old(files), was, files, old(folders), there, folders, overlay, items);
      ChangedOrderly(sum, base, items, |items|);
      ChangedDistinct(sum, base, items, |items|);
      stored := Some(Manifest(changed, whiteouts));
      overlay := stored;
    }

    /** Remove the data of files that the last overlay carried and this one does not. */
    method DropStale(changed: seq<Meta>, ghost items: seq<Item>)
      requires changed == Changed(sum, base, items, |items|) && forall i :: 0 <= i < |items| ==>
               Canonical(items[i].path)
      requires Orderly(overlay)
      modifies `files, `folders
      ensures if overlay.None? then files == old(files) && folders == old(folders)
              else Cleared(sum, base, old(files), files, old(folders), folders, overlay.value.entries,
                           |overlay.value.entries|, items)
    {
      if overlay.None? { return; }
      var entries := overlay.value.entries;
      ClearingIs(sum, base, files, files, folders, folders, entries, 0, items, FOLDS);
      var k := 0;
      while k < |entries|
        invariant 0 <= k <= |entries|
        invariant Clearing(sum, base, old(files), files, old(folders), folders, entries, k, items, FOLDS)
      {
        var e := entries[k];
        if IsData(e) { StaleMeans(sum, base, items, changed, e); }
        if IsStale(e, changed) {
          ghost var was, there := files, folders;
          RemoveData(PartsOf(e.path));
          ClearingDrops(sum, base, old(files), was, old(folders), there, entries, k, items, PartsOf(e.path), files,
                        folders);
        } else {
          ClearingKeeps(sum, base, old(files), files, old(folders), folders, entries, k, items);
        }
        k := k + 1;
      }
      ClearingIs(sum, base, old(files), files, old(folders), folders, entries, k, items, FOLDS);
    }

    /** Remove a file, or the empty folder of that name; nothing happens if there is none. */
    method RemoveData(p: Parts)
      modifies `files, `folders
      ensures files == old(files) - {p}
      ensures folders == if p !in old(files) && p != [] && Empty(old(files), old(folders), p) then old(folders) - {p}
              else old(folders)
    {
      if p in files {
        files := files - {p};
      } else if p != [] && Empty(files, folders, p) {
        folders := folders - {p};
      }
    }

    /** Lay the stored overlay over the base. */
    method Pull() returns (t: Option<Tree>)
      modifies `overlay
      ensures t == Pulled(base, files, stored) && overlay == stored
    {
      overlay := stored;
      if stored.None? { return Some(base); }
      var manifest := stored.value;
      var merged := base;
      var k := 0;
      while k < |manifest.whiteouts|
        invariant overlay == stored && 0 <= k <= |manifest.whiteouts| && merged == Shown(base, manifest.whiteouts[..k])
      {
        var path := manifest.whiteouts[k];
        merged := map p | p in merged && !Covers(path, p) :: merged[p];
        ShownMore(base, manifest.whiteouts, k);
        k := k + 1;
      }
      assert manifest.whiteouts[..k] == manifest.whiteouts;
      ghost var shown := merged;
      k := 0;
      while k < |manifest.entries|
        invariant overlay == stored && 0 <= k <= |manifest.entries| &&
                  Layered(shown, base, files, manifest.entries, k) == Some(merged)
      {
        var next := Laid(merged, base, files, manifest.entries[k]);
        if next.None? {
          Stuck(shown, base, files, manifest.entries, k + 1, |manifest.entries|);
          return None;
        }
        merged := next.value;
        k := k + 1;
      }
      t := Some(merged);
    }
  }

  // --- what is pushed is pulled

  /** The overlay stored for these items. */
  ghost predicate Pushed(sum: Checksum, base: Tree, files: map<Parts, seq<Byte>>, m: Manifest, items: seq<Item>) {
    && Distinct(items) && Minimal(Missing(base, TreeOf(items)), m.whiteouts)
    && m.entries == Changed(sum, base, items, |items|)
    && forall i :: 0 <= i < |items| && Carried(sum, base, items[i]) ==> Held(files, items[i])
  }

  /** No unchanged entry lies below a base path that is gone, and the root stays. */
  ghost predicate Restorable(sum: Checksum, base: Tree, now: Tree) {
    && ("/" in base ==> "/" in now)
    && forall p, q :: q in Missing(base, now) && p in now && Unchanged(sum, base, p, now[p]) ==> !Below(p, q)
  }

  ghost predicate Restored(t: Tree, now: Tree) {
    t.Keys == now.Keys && forall p :: p in now && p in t ==> Same(t[p], now[p])
  }

  /** What pulling gives at `p` after the first `n` items are laid. */
  ghost predicate LaidAt(sum: Checksum, base: Tree, shown: Tree, t: Tree, items: seq<Item>, n: nat, p: Path)
    requires n <= |items|
  {
    if exists i :: 0 <= i < n && items[i].path == p && !Unchanged(sum, base, p, items[i].entry)
    then p in t && forall i :: 0 <= i < n && items[i].path == p ==> Same(t[p], items[i].entry)
    else (p in t <==> p in shown) && (p in t ==> t[p] == shown[p])
  }

  lemma MetaLaid(sum: Checksum, base: Tree, files: map<Parts, seq<Byte>>, t: Tree, item: Item)
    requires !Unchanged(sum, base, item.path, item.entry)
    requires Carried(sum, base, item) ==> Held(files, item)
    requires item.path in base && item.entry.kind == Regular && base[item.path].kind == Regular &&
             SameContent(sum, item.entry, base[item.path])
      ==> item.entry.data == base[item.path].data
    ensures var r := Laid(t, base, files, MetaOf(sum, base, item.path, item.entry));
            && r.Some? && item.path in r.value && Same(r.value[item.path], item.entry)
            && r.value == t[item.path := r.value[item.path]]
  {
  }

  lemma SkippedOne(sum: Checksum, base: Tree, shown: Tree, t: Tree, items: seq<Item>, n: nat, p: Path)
    requires 0 < n <= |items| && Unchanged(sum, base, items[n - 1].path, items[n - 1].entry) && Distinct(items)
    requires LaidAt(sum, base, shown, t, items, n - 1, p)
    ensures LaidAt(sum, base, shown, t, items, n, p)
  {
  }

  lemma LaidOne(sum: Checksum, base: Tree, shown: Tree, t: Tree, u: Tree, items: seq<Item>, n: nat, p: Path)
    requires 0 < n <= |items| && !Unchanged(sum, base, items[n - 1].path, items[n - 1].entry) && Distinct(items)
    requires items[n - 1].path in u && Same(u[items[n - 1].path], items[n - 1].entry) &&
             u == t[items[n - 1].path := u[items[n - 1].path]]
    requires LaidAt(sum, base, shown, t, items, n - 1, p)
    ensures LaidAt(sum, base, shown, u, items, n, p)
  {
    if p == items[n - 1].path { assert exists i ::
                               0 <= i < n && items[i].path == p && !Unchanged(sum, base, p, items[i].entry); }
  }

  /** The tree `t` is the layers of the first `n` items, path by path. */
  ghost predicate AllLaid(sum: Checksum, base: Tree, files: map<Parts, seq<Byte>>, shown: Tree, t: Tree,
                          items: seq<Item>, n: nat)
    requires n <= |items|
  {
    && Layered(shown, base, files, Changed(sum, base, items, n), |Changed(sum, base, items, n)|) == Some(t)
    && forall p :: LaidAt(sum, base, shown, t, items, n, p)
  }

  lemma ItemSkipped(sum: Checksum, base: Tree, files: map<Parts, seq<Byte>>, shown: Tree, t: Tree, items: seq<Item>,
                    n: nat)
    requires 0 < n <= |items| && Unchanged(sum, base, items[n - 1].path, items[n - 1].entry) && Distinct(items)
    requires AllLaid(sum, base, files, shown, t, items, n - 1)
    ensures AllLaid(sum, base, files, shown, t, items, n)
  {
    assert Changed(sum, base, items, n) == Changed(sum, base, items, n - 1);
    forall p ensures LaidAt(sum, base, shown, t, items, n, p) {
      assert LaidAt(sum, base, shown, t, items, n - 1, p);
      SkippedOne(sum, base, shown, t, items, n, p);
    }
  }

  lemma ItemLaid(sum: Checksum, base: Tree, files: map<Parts, seq<Byte>>, shown: Tree, t: Tree, u: Tree,
                 items: seq<Item>, n: nat, item: Item)
    requires 0 < n <= |items| && item == items[n - 1] && !Unchanged(sum, base, item.path, item.entry) && Distinct(items)
    requires AllLaid(sum, base, files, shown, t, items, n - 1)
    requires Laid(t, base, files, MetaOf(sum, base, item.path, item.entry)) == Some(u)
    requires item.path in u && Same(u[item.path], item.entry) && u == t[item.path := u[item.path]]
    ensures AllLaid(sum, base, files, shown, u, items, n)
  {
    var c, d := Changed(sum, base, items, n), Changed(sum, base, items, n - 1);
    SameLayers(shown, base, files, d, c, |d|);
    forall p ensures LaidAt(sum, base, shown, u, items, n, p) {
      assert LaidAt(sum, base, shown, t, items, n - 1, p);
      LaidOne(sum, base, shown, t, u, items, n, p);
    }
  }

  lemma {:induction false} ItemsLaid(sum: Checksum, base: Tree, files: map<Parts, seq<Byte>>, shown: Tree,
                                     items: seq<Item>, n: nat)
    returns (t: Tree)
    requires Distinct(items) && n <= |items| && NoCollision(sum, base, TreeOf(items))
    requires forall i :: 0 <= i < |items| && Carried(sum, base, items[i]) ==> Held(files, items[i])
    ensures AllLaid(sum, base, files, shown, t, items, n)
  {
    if n == 0 {
      t := shown;
    } else {
      var item := items[n - 1];
      t := ItemsLaid(sum, base, files, shown, items, n - 1);
      if Unchanged(sum, base, item.path, item.entry) {
        ItemSkipped(sum, base, files, shown, t, items, n);
      } else {
        TreeHolds(items, n - 1);
        MetaLaid(sum, base, files, t, item);
        var u := Laid(t, base, files, MetaOf(sum, base, item.path, item.entry)).value;
        ItemLaid(sum, base, files, shown, t, u, items, n, item);
        t := u;
      }
    }
  }

  lemma {:induction false} SameLayers(t: Tree, base: Tree, files: map<Parts, seq<Byte>>, a: seq<Meta>, b: seq<Meta>,
                                      n: nat)
    requires n <= |a| && a <= b
    ensures Layered(t, base, files, a, n) == Layered(t, base, files, b, n)
  {
    if n > 0 { SameLayers(t, base, files, a, b, n - 1); }
  }

  /** After a push, pulling gives a tree; it is the pushed one exactly when no
      unchanged entry lies below a missing base path and the root is kept. */
  lemma PushThenPull(sum: Checksum, base: Tree, files: map<Parts, seq<Byte>>, m: Manifest, items: seq<Item>)
    requires Pushed(sum, base, files, m, items) && NoCollision(sum, base, TreeOf(items)) && "" !in base
    ensures Pulled(base, files, Some(m)).Some?
    ensures Restored(Pulled(base, files, Some(m)).value, TreeOf(items)) <==> Restorable(sum, base, TreeOf(items))
  {
    var now, shown, c := TreeOf(items), Shown(base, m.whiteouts), m.entries;
    var t := ItemsLaid(sum, base, files, shown, items, |items|);
    forall p ensures PulledAt(sum, base, shown, t, now, p) {
      assert LaidAt(sum, base, shown, t, items, |items|, p);
      PathPulled(sum, base, shown, t, items, p);
    }
    if Restorable(sum, base, now) { RestorableRestores(sum, base, m.whiteouts, t, now); }
    if Restored(t, now) { RestoredWasRestorable(sum, base, m.whiteouts, t, now); }
  }

  /** Pulling gives at `p` the changed entry, or what the base still shows. */
  ghost predicate PulledAt(sum: Checksum, base: Tree, shown: Tree, t: Tree, now: Tree, p: Path) {
    if p in now && !Unchanged(sum, base, p, now[p]) then p in t && Same(t[p], now[p])
    else (p in t <==> p in shown) && (p in t ==> t[p] == shown[p])
  }

  lemma PathPulled(sum: Checksum, base: Tree, shown: Tree, t: Tree, items: seq<Item>, p: Path)
    requires Distinct(items) && LaidAt(sum, base, shown, t, items, |items|, p)
    ensures PulledAt(sum, base, shown, t, TreeOf(items), p)
  {
    if p in TreeOf(items) {
      var i := TreeComes(items, p);
      TreeHolds(items, i);
    }
    forall i | 0 <= i < |items| && items[i].path == p ensures p in TreeOf(items) &&
        TreeOf(items)[p] == items[i].entry { TreeHolds(items, i); }
  }

  lemma NotHidden(sum: Checksum, base: Tree, whiteouts: seq<Path>, now: Tree, p: Path)
    requires Minimal(Missing(base, now), whiteouts) && Restorable(sum, base, now) && p in now &&
             Unchanged(sum, base, p, now[p])
    ensures !Hides(whiteouts, p)
  {
    forall k | 0 <= k < |whiteouts| ensures !Covers(whiteouts[k], p) { assert whiteouts[k] in Missing(base, now); }
  }

  lemma BelowHidden(base: Tree, whiteouts: seq<Path>, now: Tree, p: Path, q: Path)
    requires Minimal(Missing(base, now), whiteouts) && q in Missing(base, now) && Below(p, q)
    ensures Hides(whiteouts, p)
  {
    assert Hides(whiteouts, q);
    var k :| 0 <= k < |whiteouts| && Covers(whiteouts[k], q);
    if whiteouts[k] != q { BelowTransitive(p, q, whiteouts[k]); }
    assert Covers(whiteouts[k], p);
  }

  lemma RootShown(base: Tree, now: Tree, whiteouts: seq<Path>)
    requires "" !in base && Minimal(Missing(base, now), whiteouts)
    ensures !Hides(whiteouts, "/")
  {
    forall k | 0 <= k < |whiteouts| ensures !Covers(whiteouts[k], "/") { assert whiteouts[k] in Missing(base, now); }
  }

  lemma RestorableRestores(sum: Checksum, base: Tree, whiteouts: seq<Path>, t: Tree, now: Tree)
    requires Minimal(Missing(base, now), whiteouts) && Restorable(sum, base, now) && NoCollision(sum, base, now)
    requires forall p :: PulledAt(sum, base, Shown(base, whiteouts), t, now, p)
    ensures Restored(t, now)
  {
    forall p ensures (p in t <==> p in now) && (p in now && p in t ==> Same(t[p], now[p])) {
      assert PulledAt(sum, base, Shown(base, whiteouts), t, now, p);
      if p in now && Unchanged(sum, base, p, now[p]) { NotHidden(sum, base, whiteouts, now, p); }
    }
  }

  lemma RestoredWasRestorable(sum: Checksum, base: Tree, whiteouts: seq<Path>, t: Tree, now: Tree)
    requires Minimal(Missing(base, now), whiteouts) && Restored(t, now) && "" !in base
    requires forall p :: PulledAt(sum, base, Shown(base, whiteouts), t, now, p)
    ensures Restorable(sum, base, now)
  {
    assert PulledAt(sum, base, Shown(base, whiteouts), t, now, "/");
    RootShown(base, now, whiteouts);
    forall p, q | q in Missing(base, now) && p in now && Unchanged(sum, base, p, now[p]) ensures !Below(p, q) {
      assert PulledAt(sum, base, Shown(base, whiteouts), t, now, p);
      if Below(p, q) { BelowHidden(base, whiteouts, now, p, q); }
    }
  }

  // --- what a failed push leaves of the stored tree

  /** The manifest names the data of a file at this path. */
  ghost predicate Names(m: Manifest, p: Path) {
    exists k :: 0 <= k < |m.entries| && NamesAt(m, k, p)
  }

  ghost predicate NamesAt(m: Manifest, k: nat, p: Path)
    requires k < |m.entries|
  {
    m.entries[k].path == p && m.entries[k].kind == Regular && !m.entries[k].isBase
  }

  /** Each of the first `n` items whose path the manifest names has the bytes that
      are stored there. */
  ghost predicate Spared(sum: Checksum, base: Tree, before: map<Parts, seq<Byte>>, m: Option<Manifest>,
                         items: seq<Item>, n: nat)
    requires n <= |items|
  {
    m.Some? ==>
      forall i :: 0 <= i < n && Carried(sum, base, items[i]) && Names(m.value, items[i].path) ==>
        Held(before, items[i])
  }

  /** Whether an entry can be laid depends on the entry and the store alone. */
  predicate Laying(base: Tree, files: map<Parts, seq<Byte>>, e: Meta) {
    Laid(map[], base, files, e).Some?
  }

  lemma {:induction false} LayersLay(t: Tree, base: Tree, files: map<Parts, seq<Byte>>, entries: seq<Meta>, n: nat)
    requires n <= |entries|
    ensures Layered(t, base, files, entries, n).Some? <==>
            forall k :: 0 <= k < n ==> Laying(base, files, entries[k])
  {
    if n > 0 { LayersLay(t, base, files, entries, n - 1); }
  }

  lemma {:induction false} LayersStay(t: Tree, base: Tree, files: map<Parts, seq<Byte>>, entries: seq<Meta>, n: nat,
                                      k: nat)
    requires k < n <= |entries| && DistinctMetas(entries) && Layered(t, base, files, entries, n).Some?
    ensures Layered(t, base, files, entries, k).Some?
    ensures var e := entries[k];
      var one := Laid(Layered(t, base, files, entries, k).value, base, files, e);
      && one.Some? && e.path in one.value && e.path in Layered(t, base, files, entries, n).value
      && Layered(t, base, files, entries, n).value[e.path] == one.value[e.path]
  {
    if k < n - 1 { LayersStay(t, base, files, entries, n - 1, k); }
  }

  lemma {:induction false} LayersAgree(t: Tree, base: Tree, before: map<Parts, seq<Byte>>,
                                       files: map<Parts, seq<Byte>>, entries: seq<Meta>, n: nat)
    requires n <= |entries| && Layered(t, base, before, entries, n).Some?
    requires forall k {:trigger entries[k]} :: 0 <= k < n && entries[k].kind == Regular && !entries[k].isBase ==>
               var p := PartsOf(entries[k].path);
               p in before ==> p in files && files[p] == before[p]
    ensures Layered(t, base, files, entries, n) == Layered(t, base, before, entries, n)
  {
    if n > 0 { LayersAgree(t, base, before, files, entries, n - 1); }
  }

  /** What the manifest names is still in the store. */
  lemma StillPulled(sum: Checksum, base: Tree, before: map<Parts, seq<Byte>>, files: map<Parts, seq<Byte>>,
                    m: Manifest, items: seq<Item>, n: nat)
    requires n <= |items| && FilesWritten(sum, base, before, files, items, n)
    requires Pulled(base, before, Some(m)).Some?
    ensures Pulled(base, files, Some(m)).Some?
  {
    var shown := Shown(base, m.whiteouts);
    LayersLay(shown, base, before, m.entries, |m.entries|);
    LayersLay(shown, base, files, m.entries, |m.entries|);
    forall k | 0 <= k < |m.entries| ensures Laying(base, files, m.entries[k]) {
      assert Laying(base, before, m.entries[k]);
    }
  }

  lemma SparedKeeps(sum: Checksum, base: Tree, before: map<Parts, seq<Byte>>, files: map<Parts, seq<Byte>>,
                    m: Manifest, items: seq<Item>, n: nat)
    requires n <= |items| && Orderly(Some(m)) && forall i :: 0 <= i < |items| ==> Canonical(items[i].path)
    requires FilesWritten(sum, base, before, files, items, n) && Spared(sum, base, before, Some(m), items, n)
    requires Pulled(base, before, Some(m)).Some?
    ensures Pulled(base, files, Some(m)) == Pulled(base, before, Some(m))
  {
    forall k {:trigger m.entries[k]} | 0 <= k < |m.entries| && m.entries[k].kind == Regular && !m.entries[k].isBase
      ensures var p := PartsOf(m.entries[k].path);
        p in before ==> p in files && files[p] == before[p]
    {
      var e := m.entries[k];
      if Writes(sum, base, items, n, PartsOf(e.path)) {
        var i :| 0 <= i < n && Carried(sum, base, items[i]) && PartsOf(items[i].path) == PartsOf(e.path);
        assert OrderlyMeta(e);
        if items[i].path != e.path { DifferentParts(items[i].path, e.path); }
        assert NamesAt(m, k, items[i].path) && Held(before, items[i]) && Held(files, items[i]);
      }
    }
    LayersAgree(Shown(base, m.whiteouts), base, before, files, m.entries, |m.entries|);
  }

  lemma KeptWasSpared(sum: Checksum, base: Tree, before: map<Parts, seq<Byte>>, files: map<Parts, seq<Byte>>,
                      m: Manifest, items: seq<Item>, n: nat)
    requires n <= |items| && Orderly(Some(m)) && FilesWritten(sum, base, before, files, items, n)
    requires Pulled(base, before, Some(m)).Some? && Pulled(base, files, Some(m)) == Pulled(base, before, Some(m))
    ensures Spared(sum, base, before, Some(m), items, n)
  {
    var shown, c := Shown(base, m.whiteouts), |m.entries|;
    forall i | 0 <= i < n && Carried(sum, base, items[i]) && Names(m, items[i].path) ensures Held(before, items[i]) {
      var k :| 0 <= k < c && NamesAt(m, k, items[i].path);
      LayersStay(shown, base, before, m.entries, c, k);
      LayersStay(shown, base, files, m.entries, c, k);
      assert Held(files, items[i]);
    }
  }

  /** A push that stops has overwritten the bytes of the items before.  The stored
      tree is pulled as before exactly when each of those that the manifest names had
      these bytes already. */
  lemma FailedPushKeeps(sum: Checksum, base: Tree, before: map<Parts, seq<Byte>>, files: map<Parts, seq<Byte>>,
                        m: Option<Manifest>, items: seq<Item>, n: nat)
    requires n <= |items| && Orderly(m) && forall i :: 0 <= i < |items| ==> Canonical(items[i].path)
    requires FilesWritten(sum, base, before, files, items, n) && Pulled(base, before, m).Some?
    ensures Pulled(base, files, m).Some?
    ensures Pulled(base, files, m) == Pulled(base, before, m) <==> Spared(sum, base, before, m, items, n)
  {
    if m.Some? {
      StillPulled(sum, base, before, files, m.value, items, n);
      if Spared(sum, base, before, m, items, n) { SparedKeeps(sum, base, before, files, m.value, items, n); }
      if Pulled(base, files, m) == Pulled(base, before, m) {
        KeptWasSpared(sum, base, before, files, m.value, items, n);
      }
    }
  }

  /** Push and pull.  After a push that stopped, the tree pulled is the one stored
      before exactly when what was overwritten stayed the same. */
  method PushAndPull(w: WebTree, items: seq<Item>) returns (ok: bool, t: Option<Tree>)
    requires w.Valid() && Distinct(items) && forall i :: 0 <= i < |items| ==> Canonical(items[i].path)
    requires Pulled(w.base, w.files, w.stored).Some?
    modifies w
    ensures w.Valid() && (!ok ==> w.stored == old(w.stored) && t.Some?)
    ensures !ok ==>
      exists n: nat :: n < |items| &&
        StoppedAt(w.sum, w.base, old(w.files), w.files, old(w.folders), w.folders, items, n) &&
        (t == old(Pulled(w.base, w.files, w.stored)) <==>
         Spared(w.sum, w.base, old(w.files), old(w.stored), items, n))
  {
    ok := w.Push(items);
    if !ok {
      ghost var n: nat :| n < |items| &&
        StoppedAt(w.sum, w.base, old(w.files), w.files, old(w.folders), w.folders, items, n);
      FailedPushKeeps(w.sum, w.base, old(w.files), w.files, w.stored, items, n);
    }
    t := w.Pull();
  }

  // --- pushes and pulls in a row

  /** The root and every folder on the way to an entry are in the tree. */
  ghost predicate ParentClosed(now: Tree) {
    "/" in now && forall p, q :: p in now && q != "" && Below(p, q) ==> q in now
  }

  lemma ParentClosedRestorable(sum: Checksum, base: Tree, now: Tree)
    requires ParentClosed(now) && "" !in base
    ensures Restorable(sum, base, now)
  {
  }

  /** A tree as it is pushed: one item a path, paths canonical, every folder there. */
  ghost predicate Pushable(sum: Checksum, base: Tree, items: seq<Item>) {
    && Distinct(items) && (forall i :: 0 <= i < |items| ==> Canonical(items[i].path))
    && ParentClosed(TreeOf(items)) && NoCollision(sum, base, TreeOf(items))
  }

  method PushAll(w: WebTree, pushes: seq<seq<Item>>) returns (ok: bool)
    requires w.Valid() && |pushes| > 0 && forall k :: 0 <= k < |pushes| ==> Pushable(w.sum, w.base, pushes[k])
    modifies w
    ensures w.Valid()
    ensures ok ==> w.stored.Some? && Pushed(w.sum, w.base, w.files, w.stored.value, pushes[|pushes| - 1])
  {
    var k := 0;
    while k < |pushes|
      invariant 0 <= k <= |pushes| && w.Valid()
      invariant k > 0 ==> w.stored.Some? && Pushed(w.sum, w.base, w.files, w.stored.value, pushes[k - 1])
    {
      assert Pushable(w.sum, w.base, pushes[k]);
      ok := w.Push(pushes[k]);
      if !ok { return; }
      k := k + 1;
    }
    ok := true;
  }

  /** After any sequence of successful pushes, pulling gives the last pushed tree. */
  method PushesThenPull(w: WebTree, pushes: seq<seq<Item>>) returns (ok: bool, t: Option<Tree>)
    requires w.Valid() && "" !in w.base && |pushes| > 0
    requires forall k :: 0 <= k < |pushes| ==> Pushable(w.sum, w.base, pushes[k])
    modifies w
    ensures w.Valid()
    ensures ok ==> t.Some? && Restored(t.value, TreeOf(pushes[|pushes| - 1]))
  {
    t := None;
    ok := PushAll(w, pushes);
    if ok {
      LastRestored(w.sum, w.base, w.files, w.stored.value, pushes[|pushes| - 1]);
      t := w.Pull();
    }
  }

  lemma LastRestored(sum: Checksum, base: Tree, files: map<Parts, seq<Byte>>, m: Manifest, items: seq<Item>)
    requires Pushed(sum, base, files, m, items) && Pushable(sum, base, items) && "" !in base
    ensures Pulled(base, files, Some(m)).Some? && Restored(Pulled(base, files, Some(m)).value, TreeOf(items))
  {
    PushThenPull(sum, base, files, m, items);
    ParentClosedRestorable(sum, base, TreeOf(items));
  }

  lemma OnePart(p: Path)
    requires |p| == 2 && p[0] == '/' && p[1] != '/'
    ensures PartsOf(p) == [p[1..]] && Canonical(p)
  {
    assert PartEnd(p, 2) == 2 && PartEnd(p, 1) == 2 && PartsFrom(p, 2) == [] && p[1..2] == p[1..];
    assert PartsFrom(p, 1) == [p[1..]] + [];
    assert Joined([p[1..]]) == "/" + p[1..] == p;
  }

  /** The manifest names `/a`; a push writes other bytes to `/a` and then stops at
      `/b`, whose bytes are not at hand.  Pulling gives another tree than before. */
  lemma OverwrittenByFailedPush(sum: Checksum, was: seq<Byte>, now: seq<Byte>, mode: nat)
    requires was != now
    ensures var before, after := map[["a"] := was], map[["a"] := now];
      var m := Some(Manifest([Meta("/a", Regular, mode, 0, 0, "", false)], []));
      var items := [Item("/a", Entry(Regular, mode, 0, 0, now, true, "")),
                    Item("/b", Entry(Regular, mode, 0, 0, now, false, ""))];
      && StoppedAt(sum, map[], before, after, {}, {}, items, 1)
      && Pulled(map[], before, m).Some? && Pulled(map[], after, m).Some?
      && Pulled(map[], before, m) != Pulled(map[], after, m)
  {
    var before, after := map[["a"] := was], map[["a"] := now];
    var entries := [Meta("/a", Regular, mode, 0, 0, "", false)];
    var m := Manifest(entries, []);
    var a, b := Item("/a", Entry(Regular, mode, 0, 0, now, true, "")),
                Item("/b", Entry(Regular, mode, 0, 0, now, false, ""));
    var items := [a, b];
    OnePart("/a");
    OnePart("/b");
    assert "/a"[1..] == "a" && "/b"[1..] == "b" && "b" != "a" && |["a"]| == 1;
    assert items[0] == a && items[1] == b && Carried(sum, map[], a) && Carried(sum, map[], b);
    assert Writes(sum, map[], items, 1, ["a"]);
    assert AllStorable(sum, map[], before, {}, items, 1);
    assert !Storable(before, {}, items[1]);
    assert StoppedAt(sum, map[], before, after, {}, {}, items, 1);
    assert Layered(Shown(map[], []), map[], before, entries, 0).Some?;
    assert Layered(Shown(map[], []), map[], after, entries, 0).Some?;
    LayersStay(Shown(map[], []), map[], before, entries, 1, 0);
    LayersStay(Shown(map[], []), map[], after, entries, 1, 0);
  }

  /** An unchanged entry below a deleted directory is hidden: a tree that has the
      one without the other does not come back. */
  lemma UnclosedLost(sum: Checksum, mode: nat)
    ensures var d := Entry(Directory, mode, 0, 0, [], false, "");
      !Restorable(sum, map["/" := d, "/d" := d, "/d/x" := d], map["/" := d, "/d/x" := d])
  {
    var d := Entry(Directory, mode, 0, 0, [], false, "");
    var base, now := map["/" := d, "/d" := d, "/d/x" := d], map["/" := d, "/d/x" := d];
    assert "/d" != "/" && |"/d/x"| == 4 && |"/d"| == 2 && |"/"| == 1;
    assert "/d" in Missing(base, now);
    assert "/d/x"[..2] == "/d" && Below("/d/x", "/d");
    assert Unchanged(sum, base, "/d/x", now["/d/x"]);
  }

  lemma TwoParts()
    ensures PartsOf("/x/y") == ["x", "y"] && Canonical("/x/y")
  {
    var p := "/x/y";
    assert PartEnd(p, 4) == 4 && PartEnd(p, 3) == 4 && PartEnd(p, 2) == 2 && PartEnd(p, 1) == 2;
    assert p[3..4] == "y" && p[1..2] == "x" && ["y"] + [] == ["y"] && ["x"] + ["y"] == ["x", "y"];
    assert PartsFrom(p, 4) == [] && PartsFrom(p, 3) == ["y"] && PartsFrom(p, 2) == ["y"];
    assert PartsFrom(p, 1) == ["x", "y"] && PartsOf(p) == ["x", "y"];
    assert ["x", "y"][..1] == ["x"] && Joined(["x"]) == "/x" && Joined(["x", "y"]) == "/x" + "/" + "y" == p;
  }

  /** Replacing a stored file by a folder cannot be pushed: the new file's folder
      would have to be made where the old file's bytes still are. */
  lemma FileBecomesFolder(sum: Checksum, was: seq<Byte>, data: seq<Byte>, mode: nat)
    ensures !AllStorable(sum, map[], map[["x"] := was], {}, [Item("/x/y", Entry(Regular, mode, 0, 0, data, true, ""))],
                         1)
  {
    var item := Item("/x/y", Entry(Regular, mode, 0, 0, data, true, ""));
    TwoParts();
    assert Inside(PartsOf(item.path), ["x"]);
    assert Carried(sum, map[], item) && [item][0] == item;
  }

  /** Replacing stored files below a folder by a file cannot be pushed either: the
      folder stays even when its files are gone. */
  lemma FolderBecomesFile(sum: Checksum, files: map<Parts, seq<Byte>>, data: seq<Byte>, mode: nat)
    ensures !AllStorable(sum, map[], files, {["x"]}, [Item("/x", Entry(Regular, mode, 0, 0, data, true, ""))], 1)
  {
    var item := Item("/x", Entry(Regular, mode, 0, 0, data, true, ""));
    var p := item.path;
    assert p[1..2] == "x" && ["x"] + [] == ["x"];
    assert PartEnd(p, 2) == 2 && PartEnd(p, 1) == 2 && PartsFrom(p, 2) == [] && PartsFrom(p, 1) == ["x"] &&
           PartsOf(p) == ["x"];
    assert Carried(sum, map[], item) && [item][0] == item;
  }
}
