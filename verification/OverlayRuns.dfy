/** The store of the web overlay over several pushes: which files and folders are
    left, and what blocks a later push. */
module OverlayRuns {
  import opened Frames
  import opened Overlay

  /** No file is a folder or the root, and what the manifest names is stored. */
  ghost predicate Steady(files: map<Parts, seq<Byte>>, folders: set<Parts>, overlay: Option<Manifest>) {
    (forall q :: q in files ==> q !in folders) && forall q :: OldData(overlay, q) ==> q in files
  }

  /** The manifest names every file of the store. */
  ghost predicate Tracked(files: map<Parts, seq<Byte>>, overlay: Option<Manifest>) {
    forall q :: q in files ==> OldData(overlay, q)
  }

  lemma NewData(sum: Checksum, base: Tree, items: seq<Item>, m: Manifest, q: Parts)
    requires m.entries == Changed(sum, base, items, |items|)
    ensures OldData(Some(m), q) <==> Writes(sum, base, items, |items|, q)
  {
    ChangedNames(sum, base, items, |items|, q);
  }

  lemma WrittenNoFolder(sum: Checksum, base: Tree, before: map<Parts, seq<Byte>>, made: set<Parts>, items: seq<Item>,
                        n: nat, q: Parts)
    requires n <= |items| && AllStorable(sum, base, before, made, items, n)
    requires Writes(sum, base, items, n, q) || (q in before && q !in made)
    ensures q !in made && !Makes(sum, base, items, n, q)
  {
    if Writes(sum, base, items, n, q) {
      var i :| 0 <= i < n && Carried(sum, base, items[i]) && PartsOf(items[i].path) == q;
      assert Storable(before, made, items[i]);
    }
    if q in before {
      forall i | 0 <= i < n && Carried(sum, base, items[i]) ensures !Inside(PartsOf(items[i].path), q) {
        assert Storable(before, made, items[i]);
      }
    }
  }

  /** A push keeps the store steady and removes no folder.  If the manifest named every
      file before, the files of the store are now exactly those just carried: no other
      file can be in the way of a later push. */
  lemma AfterPush(sum: Checksum, base: Tree, before: map<Parts, seq<Byte>>, files: map<Parts, seq<Byte>>,
                  made: set<Parts>, folders: set<Parts>, overlay: Option<Manifest>, m: Manifest, items: seq<Item>)
    requires Steady(before, made, overlay) && AllStorable(sum, base, before, made, items, |items|)
    requires StoreAfter(sum, base, before, files, made, folders, overlay, items)
    requires m.entries == Changed(sum, base, items, |items|)
    ensures Steady(files, folders, Some(m))
    ensures forall q :: q in folders <==> q in made || Makes(sum, base, items, |items|, q)
    ensures Tracked(before, overlay) ==>
              Tracked(files, Some(m)) && forall q :: q in files <==> Writes(sum, base, items, |items|, q)
  {
    forall q ensures OldData(Some(m), q) <==> Writes(sum, base, items, |items|, q) {
      NewData(sum, base, items, m, q);
    }
    forall q | q in files ensures q !in folders { WrittenNoFolder(sum, base, before, made, items, |items|, q); }
    forall q | OldData(overlay, q) ensures q !in made && !Makes(sum, base, items, |items|, q) {
      WrittenNoFolder(sum, base, before, made, items, |items|, q);
    }
  }

  /** A push that stops keeps the store steady and removes nothing. */
  lemma AfterStop(sum: Checksum, base: Tree, before: map<Parts, seq<Byte>>, files: map<Parts, seq<Byte>>,
                  made: set<Parts>, folders: set<Parts>, overlay: Option<Manifest>, items: seq<Item>)
    requires Steady(before, made, overlay) && Stopped(sum, base, before, files, made, folders, items)
    ensures Steady(files, folders, overlay) && made <= folders && before.Keys <= files.Keys
  {
    var n: nat :| n < |items| && StoppedAt(sum, base, before, files, made, folders, items, n);
    StoppedSteady(sum, base, before, files, made, folders, items, n);
    forall q | OldData(overlay, q) ensures q in files { assert q in before; }
  }

  lemma StoppedSteady(sum: Checksum, base: Tree, before: map<Parts, seq<Byte>>, files: map<Parts, seq<Byte>>,
                      made: set<Parts>, folders: set<Parts>, items: seq<Item>, n: nat)
    requires n < |items| && StoppedAt(sum, base, before, files, made, folders, items, n)
    requires forall q :: q in before ==> q !in made
    ensures (forall q :: q in files ==> q !in folders) && made <= folders && before.Keys <= files.Keys
  {
    forall q | q in files ensures q !in folders {
      assert Writes(sum, base, items, n, q) || (q in before && q !in made);
      WrittenNoFolder(sum, base, before, made, items, n, q);
      NotOpened(files, PartsOf(items[n].path), q);
    }
    forall q | q in before ensures q in files {}
  }

  lemma NotOpened(files: map<Parts, seq<Byte>>, p: Parts, q: Parts)
    requires q in files
    ensures q !in Opened(files, p, |p|)
  {
  }

  /** The store has exactly the files that these items carry, and the manifest names them. */
  ghost predicate LastOnly(sum: Checksum, base: Tree, files: map<Parts, seq<Byte>>, overlay: Option<Manifest>,
                           items: seq<Item>)
  {
    Tracked(files, overlay) && forall q :: q in files <==> Writes(sum, base, items, |items|, q)
  }

  ghost predicate WellPathed(items: seq<Item>) {
    Distinct(items) && forall i :: 0 <= i < |items| ==> Canonical(items[i].path)
  }

  method PushOnce(w: WebTree, items: seq<Item>) returns (ok: bool)
    requires w.Valid() && Steady(w.files, w.folders, w.overlay) && WellPathed(items)
    modifies w
    ensures w.Valid() && Steady(w.files, w.folders, w.overlay) && old(w.folders) <= w.folders
    ensures ok <==> AllStorable(w.sum, w.base, old(w.files), old(w.folders), items, |items|)
    ensures ok && old(Tracked(w.files, w.overlay)) ==> LastOnly(w.sum, w.base, w.files, w.overlay, items)
    ensures ok ==> forall q :: q in w.folders <==>
              q in old(w.folders) || Makes(w.sum, w.base, items, |items|, q)
  {
    ghost var before, made, overlay := w.files, w.folders, w.overlay;
    ok := w.Push(items);
    if ok {
      AfterPush(w.sum, w.base, before, w.files, made, w.folders, overlay, w.stored.value, items);
    } else {
      AfterStop(w.sum, w.base, before, w.files, made, w.folders, overlay, items);
    }
  }

  /** Pushes in a row.  No push ever removes a folder; and as long as none has stopped,
      the files of the store are those that the last push carried. */
  method PushEach(w: WebTree, pushes: seq<seq<Item>>) returns (oks: seq<bool>)
    requires w.Valid() && Steady(w.files, w.folders, w.overlay)
    requires forall k :: 0 <= k < |pushes| ==> WellPathed(pushes[k])
    modifies w
    ensures w.Valid() && Steady(w.files, w.folders, w.overlay) && |oks| == |pushes| && old(w.folders) <= w.folders
    ensures old(Tracked(w.files, w.overlay)) && pushes != [] && (forall k :: 0 <= k < |oks| ==> oks[k]) ==>
              LastOnly(w.sum, w.base, w.files, w.overlay, pushes[|pushes| - 1])
  {
    oks := [];
    var k := 0;
    while k < |pushes|
      invariant 0 <= k <= |pushes| && |oks| == k && w.Valid() && Steady(w.files, w.folders, w.overlay)
      invariant old(w.folders) <= w.folders
      invariant old(Tracked(w.files, w.overlay)) && k == 0 ==> Tracked(w.files, w.overlay)
      invariant old(Tracked(w.files, w.overlay)) && k > 0 && (forall j :: 0 <= j < k ==> oks[j]) ==>
                  LastOnly(w.sum, w.base, w.files, w.overlay, pushes[k - 1])
    {
      ghost var good := forall j :: 0 <= j < k ==> oks[j];
      var ok := PushOnce(w, pushes[k]);
      assert (forall j :: 0 <= j < k + 1 ==> (oks + [ok])[j]) ==> good && ok by {
        assert (oks + [ok])[k] == ok;
        assert forall j :: 0 <= j < k ==> (oks + [ok])[j] == oks[j];
      }
      oks := oks + [ok];
      k := k + 1;
    }
  }

  // --- files and folders of one name

  function Root(mode: nat): Entry {
    Entry(Directory, mode, 0, 0, [], false, "")
  }

  function FileOf(mode: nat, data: seq<Byte>): Entry {
    Entry(Regular, mode, 0, 0, data, true, "")
  }

  lemma RootParts()
    ensures PartsOf("/") == [] && Canonical("/")
  {
    assert PartsFrom("/", 1) == [];
  }

  /** Only item `n` must be carried. */
  ghost predicate OnlyCarried(sum: Checksum, base: Tree, items: seq<Item>, n: nat) {
    n < |items| && Carried(sum, base, items[n]) &&
        forall i :: 0 <= i < |items| && i != n ==> !Carried(sum, base, items[i])
  }

  lemma OneCarried(sum: Checksum, base: Tree, before: map<Parts, seq<Byte>>, made: set<Parts>, items: seq<Item>, n: nat)
    requires OnlyCarried(sum, base, items, n)
    ensures AllStorable(sum, base, before, made, items, |items|) <==> Storable(before, made, items[n])
    ensures forall q :: Writes(sum, base, items, |items|, q) <==> q == PartsOf(items[n].path)
    ensures forall q :: Makes(sum, base, items, |items|, q) <==> Inside(PartsOf(items[n].path), q)
  {
  }

  lemma NoneCarried(sum: Checksum, base: Tree, before: map<Parts, seq<Byte>>, made: set<Parts>, items: seq<Item>)
    requires forall i :: 0 <= i < |items| ==> !Carried(sum, base, items[i])
    ensures AllStorable(sum, base, before, made, items, |items|)
    ensures forall q :: !Writes(sum, base, items, |items|, q) && !Makes(sum, base, items, |items|, q)
  {
  }

  /** The tree with only the root; with a file `/x`; with a folder `/x` that has a file `y`. */
  function Bare(mode: nat): seq<Item> {
    [Item("/", Root(mode))]
  }

  function WithFile(mode: nat, data: seq<Byte>): seq<Item> {
    [Item("/", Root(mode)), Item("/x", FileOf(mode, data))]
  }

  function WithFolder(mode: nat, data: seq<Byte>): seq<Item> {
    [Item("/", Root(mode)), Item("/x", Root(mode)), Item("/x/y", FileOf(mode, data))]
  }

  lemma TreesGiven(sum: Checksum, mode: nat, data: seq<Byte>)
    ensures var base := map["/" := Root(mode)];
            && WellPathed(Bare(mode)) && !Carried(sum, base, Bare(mode)[0])
            && WellPathed(WithFile(mode, data)) && OnlyCarried(sum, base, WithFile(mode, data), 1)
            && WellPathed(WithFolder(mode, data)) && OnlyCarried(sum, base, WithFolder(mode, data), 2)
            && PartsOf("/x") == ["x"] && PartsOf("/x/y") == ["x", "y"]
  {
    RootParts();
    OnePart("/x");
    TwoParts();
    assert "/x"[1..] == "x" && |"/"| == 1 && |"/x"| == 2 && |"/x/y"| == 4;
  }

  /** A file that one push deletes does not block a folder of its name in the next. */
  method FileThenFolder(w: WebTree, mode: nat, data: seq<Byte>, later: seq<Byte>) returns (a: bool, b: bool, c: bool)
    requires w.Valid() && w.base == map["/" := Root(mode)] && w.files == map[] && w.folders == {} && w.overlay == None
    modifies w
    ensures a && b && c
  {
    TreesGiven(w.sum, mode, data);
    TreesGiven(w.sum, mode, later);
    OneCarried(w.sum, w.base, w.files, w.folders, WithFile(mode, data), 1);
    a := PushOnce(w, WithFile(mode, data));
    NoneCarried(w.sum, w.base, w.files, w.folders, Bare(mode));
    b := PushOnce(w, Bare(mode));
    OneCarried(w.sum, w.base, w.files, w.folders, WithFolder(mode, later), 2);
    c := PushOnce(w, WithFolder(mode, later));
  }

  /** A folder that one push empties stays, and blocks a file of its name for good. */
  method FolderThenFile(w: WebTree, mode: nat, data: seq<Byte>, later: seq<Byte>) returns (a: bool, b: bool, c: bool)
    requires w.Valid() && w.base == map["/" := Root(mode)] && w.files == map[] && w.folders == {} && w.overlay == None
    modifies w
    ensures a && b && !c
  {
    TreesGiven(w.sum, mode, data);
    TreesGiven(w.sum, mode, later);
    OneCarried(w.sum, w.base, w.files, w.folders, WithFolder(mode, data), 2);
    a := PushOnce(w, WithFolder(mode, data));
    assert Inside(["x", "y"], ["x"]);
    NoneCarried(w.sum, w.base, w.files, w.folders, Bare(mode));
    b := PushOnce(w, Bare(mode));
    OneCarried(w.sum, w.base, w.files, w.folders, WithFile(mode, later), 1);
    c := PushOnce(w, WithFile(mode, later));
  }

  /** A stored file that the manifest does not name stays, whatever is pushed, until a
      push that does not stop carries it. */
  method PushBeside(w: WebTree, items: seq<Item>, ghost q: Parts) returns (ok: bool)
    requires w.Valid() && Steady(w.files, w.folders, w.overlay) && WellPathed(items)
    requires q in w.files && !OldData(w.overlay, q)
    modifies w
    ensures w.Valid() && Steady(w.files, w.folders, w.overlay)
    ensures ok <==> AllStorable(w.sum, w.base, old(w.files), old(w.folders), items, |items|)
    ensures q in w.files && (OldData(w.overlay, q) <==> ok && Writes(w.sum, w.base, items, |items|, q))
  {
    ghost var before, made, overlay := w.files, w.folders, w.overlay;
    ok := w.Push(items);
    if ok {
      NewData(w.sum, w.base, items, w.stored.value, q);
      AfterPush(w.sum, w.base, before, w.files, made, w.folders, overlay, w.stored.value, items);
    } else {
      AfterStop(w.sum, w.base, before, w.files, made, w.folders, overlay, items);
    }
  }

  /** The root, a file `/x`, and a file `/z` whose bytes are not at hand. */
  function Halfway(mode: nat, data: seq<Byte>): seq<Item> {
    [Item("/", Root(mode)), Item("/x", FileOf(mode, data)), Item("/z", FileOf(mode, data).(resident := false))]
  }

  lemma HalfwayGiven(sum: Checksum, mode: nat, data: seq<Byte>)
    ensures var base, items := map["/" := Root(mode)], Halfway(mode, data);
            && WellPathed(items) && PartsOf("/x") == ["x"] && PartsOf("/z") == ["z"]
            && !Carried(sum, base, items[0]) && Carried(sum, base, items[1]) && Carried(sum, base, items[2])
  {
    RootParts();
    OnePart("/x");
    OnePart("/z");
    assert "/x"[1..] == "x" && "/z"[1..] == "z" && |"/"| == 1 && "/x"[1] != "/z"[1];
  }

  lemma HalfwayFails(sum: Checksum, mode: nat, data: seq<Byte>)
    ensures var base, items := map["/" := Root(mode)], Halfway(mode, data);
            AllStorable(sum, base, map[], {}, items, 2) && !AllStorable(sum, base, map[], {}, items, 3)
  {
    HalfwayGiven(sum, mode, data);
    assert !Storable(map[], {}, Halfway(mode, data)[2]);
  }

  lemma HalfwayLeaves(sum: Checksum, mode: nat, data: seq<Byte>, files: map<Parts, seq<Byte>>, folders: set<Parts>)
    requires Stopped(sum, map["/" := Root(mode)], map[], files, {}, folders, Halfway(mode, data))
    ensures ["x"] in files
  {
    var base, items := map["/" := Root(mode)], Halfway(mode, data);
    var n: nat :| n < |items| && StoppedAt(sum, base, map[], files, {}, folders, items, n);
    HalfwayGiven(sum, mode, data);
    HalfwayFails(sum, mode, data);
    StoppedBehind(sum, base, map[], files, {}, folders, items, n, 2);
    assert PartsOf(items[1].path) == ["x"];
    assert Writes(sum, base, items, n, ["x"]);
  }

  /** A push stops behind all items that can be stored. */
  lemma StoppedBehind(sum: Checksum, base: Tree, before: map<Parts, seq<Byte>>, files: map<Parts, seq<Byte>>,
                      made: set<Parts>, folders: set<Parts>, items: seq<Item>, n: nat, k: nat)
    requires n < |items| && StoppedAt(sum, base, before, files, made, folders, items, n)
    requires k <= |items| && AllStorable(sum, base, before, made, items, k)
    ensures k <= n && FilesWritten(sum, base, before, files, items, n)
  {
  }

  method PushHalfway(w: WebTree, mode: nat, data: seq<Byte>) returns (ok: bool)
    requires w.Valid() && w.base == map["/" := Root(mode)] && w.files == map[] && w.folders == {} && w.overlay == None
    modifies w
    ensures !ok && w.Valid() && Steady(w.files, w.folders, w.overlay) && ["x"] in w.files && w.overlay == None
  {
    HalfwayGiven(w.sum, mode, data);
    HalfwayFails(w.sum, mode, data);
    ok := w.Push(Halfway(mode, data));
    HalfwayLeaves(w.sum, mode, data, w.files, w.folders);
    AfterStop(w.sum, w.base, map[], w.files, {}, w.folders, None, Halfway(mode, data));
  }

  /** So a file written by a push that stopped blocks a folder of its name. */
  method StoppedThenFolder(w: WebTree, mode: nat, data: seq<Byte>, later: seq<Byte>)
    returns (a: bool, b: bool, c: bool)
    requires w.Valid() && w.base == map["/" := Root(mode)] && w.files == map[] && w.folders == {} && w.overlay == None
    modifies w
    ensures !a && b && !c
  {
    a := PushHalfway(w, mode, data);
    TreesGiven(w.sum, mode, later);
    NoneCarried(w.sum, w.base, w.files, w.folders, Bare(mode));
    b := PushBeside(w, Bare(mode), ["x"]);
    assert Inside(["x", "y"], ["x"]);
    OneCarried(w.sum, w.base, w.files, w.folders, WithFolder(mode, later), 2);
    c := PushBeside(w, WithFolder(mode, later), ["x"]);
  }
}
