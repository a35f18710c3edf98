/** An accepted list of entries, serialised and loaded, is the tree it describes. */
module VfsRoundTrip {
  import opened Frames
  import opened GuestMemory
  import opened VfsImages
  import opened VfsPaths
  import opened VfsLayout
  import opened VfsSerializing
  import opened VfsHost
  import opened VfsLoading

  /** The list is accepted and this is its tree, small enough for an image. */
  ghost predicate Describes(entries: seq<Entry>, t: Tree, ids: seq<nat>, from: seq<nat>) {
    Acceptable(entries) && TreeFor(entries, t, ids, from) && Fits(t, ids)
  }

  /** What the kernel holds after loading the tree: modes keep 12 bits. */
  ghost function LoadedTree(t: Tree): Tree {
    Tree(MaskedNodes(t.nodes), t.names, t.root)
  }

  // --- the tree is one an image can hold

  /** An id names at most one directory entry of the list. */
  lemma OneDirectory(entries: seq<Entry>, j: nat, k: nat)
    requires SingleDirectories(entries) && j < |entries| && k < |entries|
    requires entries[j].kind == Directory && entries[j].id == entries[k].id
    ensures j == k
  {
    if j < k { CountTwo(entries, entries[j].id, j, k, |entries|); }
    if k < j { CountTwo(entries, entries[j].id, k, j, |entries|); }
  }

  lemma SamePath(entries: seq<Entry>, i: nat, j: nat)
    requires AllAgree(entries, |entries|) && i < |entries| && j < |entries| && entries[i].path == entries[j].path
    ensures i == j
  {
    if i < j { Pairwise(entries, |entries|, i, j); }
    if j < i { Pairwise(entries, |entries|, j, i); }
  }

  /** Names of one directory with one text come from one entry. */
  lemma SameEntry(entries: seq<Entry>, m: Name, n: Name, i: nat, j: nat)
    requires Acceptable(entries) && NamedBy(entries, m, i) && NamedBy(entries, n, j) && m.parent == n.parent &&
             m.text == n.text
    ensures i == j
  {
    var k: nat :| IsParent(entries, i, k) && entries[k].id == m.parent;
    var l: nat :| IsParent(entries, j, l) && entries[l].id == n.parent;
    OneDirectory(entries, k, l);
    CheckedAt(entries, |entries|, i);
    CheckedAt(entries, |entries|, j);
    SameSplit(entries[i].path, entries[j].path);
    SamePath(entries, i, j);
  }

  lemma DirectoryNode(entries: seq<Entry>, nodes: map<nat, Node>, k: nat)
    requires Collected(entries, |entries|, nodes) && k < |entries| && entries[k].kind == Directory
    ensures entries[k].id in nodes && nodes[entries[k].id].kind == DIRECTORY
  {
    assert nodes[entries[k].id] == NodeFor(entries[k], Count(entries, entries[k].id, |entries|));
  }

  lemma BaseValid(path: seq<Byte>)
    requires ValidPath(path) && path != ROOT && |Base(path)| <= 255
    ensures ValidName(Base(path))
  {
    Split(path);
  }

  lemma NameProper(entries: seq<Entry>, nodes: map<nat, Node>, name: Name, i: nat)
    requires i < |entries| && Checked(entries[i]) && Placed(entries, i) && Collected(entries, |entries|, nodes) &&
             NamedBy(entries, name, i)
    ensures IsDirectory(nodes, name.parent) && name.child in nodes && ValidName(name.text)
  {
    var k: nat :| IsParent(entries, i, k) && entries[k].id == name.parent;
    DirectoryNode(entries, nodes, k);
    assert entries[i].id in nodes;
    BaseValid(entries[i].path);
  }

  lemma NodeProper(entries: seq<Entry>, nodes: map<nat, Node>, id: nat)
    requires AllChecked(entries, |entries|) && Collected(entries, |entries|, nodes) && id in nodes
    ensures 0 < id < INODE_CAPACITY && FILE <= nodes[id].kind <= LINK && nodes[id].links > 0
  {
    var i := NodesChecked(entries, nodes, id);
  }

  lemma TreeProper(entries: seq<Entry>, t: Tree, ids: seq<nat>, from: seq<nat>)
    requires Acceptable(entries) && TreeFor(entries, t, ids, from)
    ensures ProperTree(t.nodes, t.names) && IsDirectory(t.nodes, t.root)
  {
    forall id | id in t.nodes ensures 0 < id < INODE_CAPACITY && FILE <= t.nodes[id].kind <= LINK &&
        t.nodes[id].links > 0 {
      NodeProper(entries, t.nodes, id);
    }
    forall m | 0 <= m < |t.names|
      ensures IsDirectory(t.nodes, t.names[m].parent) && t.names[m].child in t.nodes && ValidName(t.names[m].text)
    {
      CheckedAt(entries, |entries|, from[m]);
      PlacedAt(entries, |entries|, from[m]);
      NameProper(entries, t.nodes, t.names[m], from[m]);
    }
    forall m, n | 0 <= m < n < |t.names| ensures t.names[m].parent != t.names[n].parent ||
        t.names[m].text != t.names[n].text {
      if t.names[m].parent == t.names[n].parent && t.names[m].text == t.names[n].text {
        SameEntry(entries, t.names[m], t.names[n], from[m], from[n]);
      }
    }
    RootDirectory(entries, t.nodes, t.root);
  }

  lemma RootDirectory(entries: seq<Entry>, nodes: map<nat, Node>, root: nat)
    requires Collected(entries, |entries|, nodes) && exists r: nat :: HasRoot(entries, r) && entries[r].id == root
    ensures IsDirectory(nodes, root)
  {
    var r: nat :| HasRoot(entries, r) && entries[r].id == root;
    DirectoryNode(entries, nodes, r);
  }

  /** The root has no name, so there are fewer names than entries. */
  lemma NamesFewerStill(entries: seq<Entry>, names: seq<Name>, from: seq<nat>, r: nat)
    requires NamesFrom(entries, names, from, |entries|) && HasRoot(entries, r)
    ensures |names| <= |entries| - 1
  {
    forall m | 0 <= m < |from| ensures from[m] != r && from[m] < |entries| {
      assert NamedBy(entries, names[m], from[m]);
    }
    var squeezed := seq(|from|, m requires 0 <= m < |from| => if from[m] > r then from[m] - 1 else from[m]);
    NamesFewer(squeezed, |entries| - 1);
  }

  lemma TreeCounts(entries: seq<Entry>, t: Tree, ids: seq<nat>, from: seq<nat>)
    requires Acceptable(entries) && TreeFor(entries, t, ids, from) && IsDirectory(t.nodes, t.root)
    ensures CountsFit(|ids|, |t.names|, t.root)
  {
    NodesBounded(entries, t.nodes);
    IdsFewer(ids);
    var r: nat :| HasRoot(entries, r) && entries[r].id == t.root;
    NamesFewerStill(entries, t.names, from, r);
    assert t.root in ids;
  }

  /** The tree of an accepted list that fits can be loaded. */
  lemma TreeLoadable(entries: seq<Entry>, t: Tree, ids: seq<nat>, from: seq<nat>, capacity: nat)
    requires Describes(entries, t, ids, from) && capacity >= DATA_CAPACITY
    ensures Loadable(t, ids, capacity)
  {
    TreeProper(entries, t, ids, from);
    TreeCounts(entries, t, ids, from);
    forall i | 0 <= i < |ids| ensures NodeInRange(ids[i], t.nodes[ids[i]]) {
      NodeFieldsBounded(entries, t.nodes, ids, i);
    }
  }

  // --- an image may lie anywhere

  /** The bytes `o` lie in `b` at `image`. */
  ghost predicate LiesAt(o: seq<Byte>, b: seq<Byte>, image: nat) {
    image + |o| <= |b| && forall k {:trigger o[k]} :: 0 <= k < |o| ==> b[image + k] == o[k]
  }

  lemma WordMoved(o: seq<Byte>, b: seq<Byte>, image: nat, at: nat)
    requires LiesAt(o, b, image) && at + 4 <= |o|
    ensures Word(b, image + at) == Word(o, at)
  {
    assert b[image + at] == o[at] && b[image + (at + 1)] == o[at + 1] && b[image + (at + 2)] == o[at + 2] &&
           b[image + (at + 3)] == o[at + 3];
  }

  lemma BytesMoved(o: seq<Byte>, b: seq<Byte>, image: nat, at: nat, text: seq<Byte>)
    requires LiesAt(o, b, image) && BytesAre(o, at, text)
    ensures BytesAre(b, image + at, text)
  {
    forall k | 0 <= k < |text| ensures b[image + at + k] == text[k] {
      assert o[at + k] == text[k];
    }
  }

  lemma NodeMoved(o: seq<Byte>, b: seq<Byte>, image: nat, at: nat, id: nat, n: Node)
    requires LiesAt(o, b, image) && NodeAt(o, at, id, n)
    ensures NodeAt(b, image + at, id, n)
  {
    WordMoved(o, b, image, at);
    WordMoved(o, b, image, at + 4);
    WordMoved(o, b, image, at + 8);
    WordMoved(o, b, image, at + 12);
    WordMoved(o, b, image, at + 16);
    WordMoved(o, b, image, at + 20);
    WordMoved(o, b, image, at + 24);
    WordMoved(o, b, image, at + 32);
    WordMoved(o, b, image, at + 36);
    WordMoved(o, b, image, at + 40);
    WordMoved(o, b, image, at + 44);
    WordMoved(o, b, image, at + 48);
    WordMoved(o, b, image, at + 52);
    BytesMoved(o, b, image, at + NODE_RECORD, n.data);
  }

  lemma NameMoved(o: seq<Byte>, b: seq<Byte>, image: nat, at: nat, n: Name)
    requires LiesAt(o, b, image) && NameAt(o, at, n)
    ensures NameAt(b, image + at, n)
  {
    WordMoved(o, b, image, at);
    WordMoved(o, b, image, at + 4);
    WordMoved(o, b, image, at + 8);
    BytesMoved(o, b, image, at + NAME_RECORD, n.text);
  }

  lemma {:induction false} NodesMoved(o: seq<Byte>, b: seq<Byte>, image: nat, at: nat, nodes: map<nat, Node>,
                                      ids: seq<nat>, n: nat)
    requires n <= |ids| && (forall i :: 0 <= i < |ids| ==> ids[i] in nodes)
    requires LiesAt(o, b, image) && NodesLaid(o, at, nodes, ids, n)
    ensures NodesLaid(b, image + at, nodes, ids, n)
  {
    if n > 0 {
      NodesMoved(o, b, image, at, nodes, ids, n - 1);
      NodeMoved(o, b, image, at + NodesSize(nodes, ids, n - 1), ids[n - 1], nodes[ids[n - 1]]);
    }
  }

  lemma {:induction false} NamesMoved(o: seq<Byte>, b: seq<Byte>, image: nat, at: nat, names: seq<Name>, n: nat)
    requires n <= |names| && LiesAt(o, b, image) && NamesLaid(o, at, names, n)
    ensures NamesLaid(b, image + at, names, n)
  {
    if n > 0 {
      NamesMoved(o, b, image, at, names, n - 1);
      NameMoved(o, b, image, at + NamesSize(names, n - 1), names[n - 1]);
    }
  }

  lemma {:induction false} FnvMoved(o: seq<Byte>, b: seq<Byte>, image: nat, at: nat, n: nat)
    requires LiesAt(o, b, image) && at + n <= |o|
    ensures Fnv(b, image + at, n) == Fnv(o, at, n)
  {
    if n > 0 {
      FnvMoved(o, b, image, at, n - 1);
      assert b[image + (at + n - 1)] == o[at + n - 1];
    }
  }

  lemma HeaderMoved(o: seq<Byte>, b: seq<Byte>, image: nat, inodes: nat, dentries: nat, root: nat)
    requires LiesAt(o, b, image) && HeaderLaid(o, 0, |o|, inodes, dentries, root)
    ensures HeaderLaid(b, image, |o|, inodes, dentries, root)
  {
    WordMoved(o, b, image, 0);
    WordMoved(o, b, image, 4);
    WordMoved(o, b, image, 8);
    WordMoved(o, b, image, 12);
    WordMoved(o, b, image, 16);
    WordMoved(o, b, image, 20);
    WordMoved(o, b, image, 24);
    FnvMoved(o, b, image, HEADER, |o| - HEADER);
  }

  lemma ImageMoved(o: seq<Byte>, b: seq<Byte>, image: nat, t: Tree, ids: seq<nat>)
    requires LiesAt(o, b, image) && ImageLaid(o, 0, |o|, t, ids)
    ensures ImageLaid(b, image, |o|, t, ids)
  {
    HeaderMoved(o, b, image, |ids|, |t.names|, t.root);
    RecordsMoved(o, b, image, HEADER, |o|, t.nodes, t.names, ids);
  }

  lemma RecordsMoved(o: seq<Byte>, b: seq<Byte>, image: nat, first: nat, end: nat, nodes: map<nat, Node>,
                     names: seq<Name>, ids: seq<nat>)
    requires LiesAt(o, b, image) && RecordsLaid(o, first, end, nodes, names, ids)
    ensures RecordsLaid(b, image + first, image + end, nodes, names, ids)
  {
    var start := first + NodesSize(nodes, ids, |ids|);
    assert NamesLaid(b, image + start, names, |names|) by { NamesMoved(o, b, image, start, names, |names|); }
    assert NodesLaid(b, image + first, nodes, ids, |ids|) by { NodesMoved(o, b, image, first, nodes, ids, |ids|); }
    assert image + start == image + first + NodesSize(nodes, ids, |ids|);
  }

  // --- the round trip

  /** What the host writes, the kernel decodes, wherever the image lies. */
  lemma SerializedDecodes(entries: seq<Entry>, t: Tree, ids: seq<nat>, from: seq<nat>, o: seq<Byte>, b: seq<Byte>,
                          image: nat, capacity: nat)
    requires Describes(entries, t, ids, from) && ImageLaid(o, 0, |o|, t, ids) && LiesAt(o, b, image) &&
             capacity >= DATA_CAPACITY
    ensures Decode(b, image, |o|, capacity) == Done(LoadedTree(t))
  {
    TreeLoadable(entries, t, ids, from, capacity);
    ImageMoved(o, b, image, t, ids);
    LaidDecodes(b, image, |o|, capacity, t, ids);
  }

  /** Loading a serialised list from the live reservation succeeds and gives its tree. */
  method LoadSerialized(v: Vfs, arena: Arena, image: nat, length: nat,
                        ghost entries: seq<Entry>, ghost t: Tree, ghost ids: seq<nat>, ghost from: seq<nat>,
                            ghost o: seq<Byte>)
    returns (code: nat)
    requires v.Valid() && arena.Valid() && arena.bytes != v.data && v.data.Length >= DATA_CAPACITY
    requires Describes(entries, t, ids, from) && ImageLaid(o, 0, |o|, t, ids)
    requires length == |o| && LiesAt(o, arena.contents.bytes, image) && arena.ImageContains(image, length)
    modifies v, v.inodes, v.dentries, v.data
    ensures v.Valid() && code == OK && v.loaded && v.Contents() == LoadedTree(t)
  {
    SerializedDecodes(entries, t, ids, from, o, arena.contents.bytes, image, v.data.Length);
    code := v.Load(arena, image, length, Done(LoadedTree(t)));
  }
}
