/** Serialising a root tree: which entry lists the host accepts, and what tree
    and image it makes of them. */
module VfsHost {
  import opened Frames
  import opened Sorting
  import opened VfsImages
  import opened VfsPaths
  import opened VfsLayout
  import opened VfsWriting
  import opened VfsSerializing

  ghost predicate HasRoot(entries: seq<Entry>, r: nat) {
    r < |entries| && entries[r].path == ROOT && entries[r].kind == Directory
  }

  /** Entry `k` is the directory that entry `i` lies in. */
  ghost predicate IsParent(entries: seq<Entry>, i: nat, k: nat) {
    i < |entries| && k < |entries| && entries[k].path == Parent(entries[i].path) && entries[k].kind == Directory
  }

  ghost predicate Placed(entries: seq<Entry>, i: nat) {
    && i < |entries|
    && (entries[i].path == ROOT || ((exists k: nat :: IsParent(entries, i, k)) && |Base(entries[i].path)| <= 255))
  }

  /** The first `n` entries are placed. */
  ghost predicate AllPlaced(entries: seq<Entry>, n: nat)
    requires n <= |entries|
  {
    n == 0 || (AllPlaced(entries, n - 1) && Placed(entries, n - 1))
  }

  lemma {:induction false} PlacedAt(entries: seq<Entry>, n: nat, i: nat)
    requires i < n <= |entries| && AllPlaced(entries, n)
    ensures Placed(entries, i)
  {
    if i < n - 1 { PlacedAt(entries, n - 1, i); }
  }

  lemma {:induction false} NotPlaced(entries: seq<Entry>, n: nat, i: nat)
    requires i < n <= |entries| && !Placed(entries, i)
    ensures !AllPlaced(entries, n)
  {
    if i < n - 1 { NotPlaced(entries, n - 1, i); }
  }

  ghost predicate SingleDirectories(entries: seq<Entry>) {
    forall i :: 0 <= i < |entries| && entries[i].kind == Directory ==> Count(entries, entries[i].id, |entries|) == 1
  }

  /** The lists the host accepts, sizes aside. */
  ghost predicate Acceptable(entries: seq<Entry>) {
    && AllChecked(entries, |entries|) && AllAgree(entries, |entries|)
    && (exists r: nat :: HasRoot(entries, r)) && |entries| <= DENTRY_CAPACITY + 1
    && SingleDirectories(entries)
    && AllPlaced(entries, |entries|)
  }

  /** A directory entry for entry `i`. */
  ghost predicate NamedBy(entries: seq<Entry>, name: Name, i: nat) {
    && i < |entries| && entries[i].path != ROOT && name.child == entries[i].id && name.text == Base(entries[i].path)
    && exists k: nat :: IsParent(entries, i, k) && entries[k].id == name.parent
  }

  /** One name for each of the first `n` entries but the root, in order. */
  ghost predicate NamesFrom(entries: seq<Entry>, names: seq<Name>, from: seq<nat>, n: nat)
    requires n <= |entries|
  {
    && |from| == |names|
    && (forall m :: 0 <= m < |names| ==> from[m] < n && NamedBy(entries, names[m], from[m]))
    && (forall m, l :: 0 <= m < l < |names| ==> from[m] < from[l])
    && forall i {:trigger IsListed(from, i)} :: 0 <= i < n && entries[i].path != ROOT ==> IsListed(from, i)
  }

  const NAME_FOLDS := 3

  /** `NamesFrom`, kept folded for the loop that makes the names. */
  ghost predicate NamesGiven(entries: seq<Entry>, names: seq<Name>, from: seq<nat>, n: nat, folds: nat)
    requires n <= |entries|
  {
    if folds == 0 then NamesFrom(entries, names, from, n) else NamesGiven(entries, names, from, n, folds - 1)
  }

  lemma NamesGivenAre(entries: seq<Entry>, names: seq<Name>, from: seq<nat>, n: nat, folds: nat)
    requires n <= |entries|
    ensures NamesGiven(entries, names, from, n, folds) <==> NamesFrom(entries, names, from, n)
  {
  }

  ghost predicate IsListed(from: seq<nat>, i: nat) {
    i in from
  }

  ghost predicate Ascending(ids: seq<nat>, nodes: map<nat, Node>) {
    && (forall i :: 0 <= i < |ids| ==> ids[i] in nodes)
    && (forall i, j :: 0 <= i < j < |ids| ==> ids[i] < ids[j])
    && forall id :: id in nodes ==> id in ids
  }

  /** The tree the list describes, and its nodes in ascending order. */
  ghost predicate TreeFor(entries: seq<Entry>, t: Tree, ids: seq<nat>, from: seq<nat>) {
    && Collected(entries, |entries|, t.nodes) && Ascending(ids, t.nodes)
    && NamesFrom(entries, t.names, from, |entries|)
    && exists r: nat :: HasRoot(entries, r) && entries[r].id == t.root
  }

  ghost predicate Sized(nodes: map<nat, Node>, names: seq<Name>, ids: seq<nat>)
    requires forall i :: 0 <= i < |ids| ==> ids[i] in nodes
  {
    && NodesUsed(nodes, ids, |ids|) + NamesUsed(names, |names|) <= DATA_CAPACITY
    && HEADER + NodesSize(nodes, ids, |ids|) + NamesSize(names, |names|) < 0x1_0000_0000
  }

  // --- the host's steps

  /** The nodes in ascending order. */
  method ListNodes(nodes: map<nat, Node>) returns (ids: seq<nat>)
    requires forall id :: id in nodes ==> id < INODE_CAPACITY
    ensures Ascending(ids, nodes)
  {
    ids := [];
    var id := 0;
    while id < INODE_CAPACITY
      invariant 0 <= id <= INODE_CAPACITY
      invariant forall i :: 0 <= i < |ids| ==> ids[i] in nodes && ids[i] < id
      invariant forall i, j :: 0 <= i < j < |ids| ==> ids[i] < ids[j]
      invariant forall x :: x in nodes && x < id ==> x in ids
    {
      if id in nodes { ids := ids + [id]; }
      id := id + 1;
    }
  }

  /** Directories have one name each; and how much room the nodes take. */
  method MeasureNodes(nodes: map<nat, Node>, ids: seq<nat>) returns (single: bool, size: nat, used: nat)
    requires forall i :: 0 <= i < |ids| ==> ids[i] in nodes
    ensures single <==> OneLinkEach(nodes, ids)
    ensures single ==> size == NodesSize(nodes, ids, |ids|) && used == NodesUsed(nodes, ids, |ids|)
  {
    size, used := 0, 0;
    var n := 0;
    while n < |ids|
      invariant 0 <= n <= |ids| && size == NodesSize(nodes, ids, n) && used == NodesUsed(nodes, ids, n)
      invariant forall i :: 0 <= i < n && nodes[ids[i]].kind == DIRECTORY ==> nodes[ids[i]].links == 1
    {
      var node := nodes[ids[n]];
      if node.kind == DIRECTORY && node.links != 1 { return false, 0, 0; }
      size := size + Align4(NODE_RECORD + |node.data|);
      used := used + Align4(|node.data|);
      n := n + 1;
    }
    single := true;
  }

  lemma {:induction false} SameSizes(names: seq<Name>, more: seq<Name>, n: nat)
    requires n <= |names| && names <= more
    ensures NamesSize(more, n) == NamesSize(names, n) && NamesUsed(more, n) == NamesUsed(names, n)
  {
    if n > 0 { SameSizes(names, more, n - 1); }
  }

  lemma NameAppended(names: seq<Name>, name: Name, more: seq<Name>)
    requires more == names + [name]
    ensures NamesSize(more, |more|) == NamesSize(names, |names|) + Align4(NAME_RECORD + |name.text|)
    ensures NamesUsed(more, |more|) == NamesUsed(names, |names|) + Align4(|name.text|)
  {
    SameSizes(names, more, |names|);
  }

  lemma NamesMore(entries: seq<Entry>, names: seq<Name>, from: seq<nat>, n: nat, name: Name)
    requires n < |entries| && NamesFrom(entries, names, from, n) && NamedBy(entries, name, n)
    ensures NamesFrom(entries, names + [name], from + [n], n + 1)
  {
    forall i {:trigger IsListed(from + [n], i)} | 0 <= i < n + 1 &&
        entries[i].path != ROOT ensures IsListed(from + [n], i) {
      if i == n { assert (from + [n])[|from|] == n; } else { assert IsListed(from, i); }
    }
  }

  lemma RootPassed(entries: seq<Entry>, names: seq<Name>, from: seq<nat>, n: nat)
    requires n < |entries| && NamesGiven(entries, names, from, n, NAME_FOLDS) && AllPlaced(entries, n) &&
             entries[n].path == ROOT
    ensures NamesGiven(entries, names, from, n + 1, NAME_FOLDS) && AllPlaced(entries, n + 1)
  {
    NamesGivenAre(entries, names, from, n, NAME_FOLDS);
    NamesGivenAre(entries, names, from, n + 1, NAME_FOLDS);
  }

  method MakeNames(entries: seq<Entry>, paths: map<seq<Byte>, nat>)
    returns (names: seq<Name>, size: nat, used: nat, ok: bool, ghost from: seq<nat>)
    requires AllChecked(entries, |entries|) && Indexed(entries, |entries|, paths)
    ensures ok <==> AllPlaced(entries, |entries|)
    ensures ok ==> NamesFrom(entries, names, from, |entries|)
    ensures ok ==> size == NamesSize(names, |names|) && used == NamesUsed(names, |names|)
  {
    names, from, size, used := [], [], 0, 0;
    NamesGivenAre(entries, names, from, 0, NAME_FOLDS);
    var n := 0;
    while n < |entries|
      invariant 0 <= n <= |entries| && NamesGiven(entries, names, from, n, NAME_FOLDS)
      invariant size == NamesSize(names, |names|) && used == NamesUsed(names, |names|)
      invariant AllPlaced(entries, n)
    {
      if entries[n].path != ROOT {
        var name;
        name, ok := NameEntry(entries, paths, names, from, n);
        if !ok { return; }
        NameAppended(names, name, names + [name]);
        names, from := names + [name], from + [n];
        size := size + Align4(NAME_RECORD + |name.text|);
        used := used + Align4(|name.text|);
      } else {
        RootPassed(entries, names, from, n);
      }
      n := n + 1;
    }
    NamesGivenAre(entries, names, from, n, NAME_FOLDS);
    ok := true;
  }

  /** The directory entry for one path, if its directory is there and its name fits. */
  method NameEntry(entries: seq<Entry>, paths: map<seq<Byte>, nat>, ghost names: seq<Name>, ghost from: seq<nat>,
                   n: nat)
    returns (name: Name, ok: bool)
    requires AllChecked(entries, |entries|) && Indexed(entries, |entries|, paths)
    requires n < |entries| && entries[n].path != ROOT && NamesGiven(entries, names, from, n, NAME_FOLDS) &&
             AllPlaced(entries, n)
    ensures if ok then AllPlaced(entries, n + 1) else !AllPlaced(entries, |entries|)
    ensures ok ==> NamesGiven(entries, names + [name], from + [n], n + 1, NAME_FOLDS)
  {
    var e := entries[n];
    name := Name(0, 0, []);
    if Parent(e.path) !in paths || entries[paths[Parent(e.path)]].kind != Directory {
      NotPlaced(entries, |entries|, n);
      return name, false;
    }
    var k := paths[Parent(e.path)];
    CheckedAt(entries, |entries|, k);
    CheckedAt(entries, |entries|, n);
    assert IsParent(entries, n, k);
    var text := Base(e.path);
    if |text| > 255 {
      NotPlaced(entries, |entries|, n);
      return name, false;
    }
    name, ok := Name(entries[k].id, e.id, text), true;
    NamesGivenAre(entries, names, from, n, NAME_FOLDS);
    NamesMore(entries, names, from, n, name);
    NamesGivenAre(entries, names + [name], from + [n], n + 1, NAME_FOLDS);
  }

  // --- the whole serialiser

  /** The tree takes no more room than an image and the kernel's data arena have. */
  ghost predicate Fits(t: Tree, ids: seq<nat>) {
    (forall i :: 0 <= i < |ids| ==> ids[i] in t.nodes) && Sized(t.nodes, t.names, ids)
  }

  lemma NodesChecked(entries: seq<Entry>, nodes: map<nat, Node>, id: nat) returns (i: nat)
    requires AllChecked(entries, |entries|) && Collected(entries, |entries|, nodes) && id in nodes
    ensures i < |entries| && Checked(entries[i]) && entries[i].id == id
    ensures nodes[id] == NodeFor(entries[i], Count(entries, id, |entries|)) && 1 <= nodes[id].links <= |entries|
  {
    i := Earlier(entries, |entries|, nodes, id);
    CheckedAt(entries, |entries|, i);
    CountSome(entries, id, i, |entries|);
    CountSmall(entries, id, |entries|);
  }

  lemma NodesBounded(entries: seq<Entry>, nodes: map<nat, Node>)
    requires AllChecked(entries, |entries|) && Collected(entries, |entries|, nodes)
    ensures forall id :: id in nodes ==> 0 < id < INODE_CAPACITY
  {
    forall id | id in nodes ensures 0 < id < INODE_CAPACITY {
      var i := NodesChecked(entries, nodes, id);
    }
  }

  ghost predicate OneLinkEach(nodes: map<nat, Node>, ids: seq<nat>)
    requires forall i :: 0 <= i < |ids| ==> ids[i] in nodes
  {
    forall i :: 0 <= i < |ids| && nodes[ids[i]].kind == DIRECTORY ==> nodes[ids[i]].links == 1
  }

  /** Directories have one name each exactly when their nodes have one link. */
  lemma SingleLinks(entries: seq<Entry>, nodes: map<nat, Node>, ids: seq<nat>)
    requires AllChecked(entries, |entries|) && Collected(entries, |entries|, nodes) && Ascending(ids, nodes)
    ensures SingleDirectories(entries) <==> OneLinkEach(nodes, ids)
  {
    if SingleDirectories(entries) {
      forall i | 0 <= i < |ids| && nodes[ids[i]].kind == DIRECTORY ensures nodes[ids[i]].links == 1 {
        var j := NodesChecked(entries, nodes, ids[i]);
      }
    } else {
      var j :| 0 <= j < |entries| && entries[j].kind == Directory && Count(entries, entries[j].id, |entries|) != 1;
      DirectoryLinks(entries, nodes, ids, j);
    }
  }

  lemma DirectoryLinks(entries: seq<Entry>, nodes: map<nat, Node>, ids: seq<nat>, j: nat)
    requires Collected(entries, |entries|, nodes) && Ascending(ids, nodes)
    requires j < |entries| && entries[j].kind == Directory && Count(entries, entries[j].id, |entries|) != 1
    ensures !OneLinkEach(nodes, ids)
  {
    assert nodes[entries[j].id] == NodeFor(entries[j], Count(entries, entries[j].id, |entries|));
    var i :| 0 <= i < |ids| && ids[i] == entries[j].id;
  }

  /** Every field of the tree fits the width it is written with. */
  lemma TreeStorable(entries: seq<Entry>, t: Tree, ids: seq<nat>, from: seq<nat>)
    requires AllChecked(entries, |entries|) && |entries| <= DENTRY_CAPACITY + 1 && AllPlaced(entries, |entries|)
    requires TreeFor(entries, t, ids, from) && Fits(t, ids)
    ensures Storable(t, ids)
  {
    NodesBounded(entries, t.nodes);
    forall i | 0 <= i < |ids| ensures NodeStorable(t.nodes[ids[i]]) {
      NodeFieldsBounded(entries, t.nodes, ids, i);
    }
    forall m | 0 <= m < |t.names| ensures NameStorable(t.names[m]) {
      NameBounded(entries, t.names[m], from[m]);
    }
    NamesFewer(from, |entries|);
    IdsFewer(ids);
    RootBounded(entries, t.root);
  }

  lemma RootBounded(entries: seq<Entry>, root: nat)
    requires AllChecked(entries, |entries|) && exists r: nat :: HasRoot(entries, r) && entries[r].id == root
    ensures 0 < root < INODE_CAPACITY
  {
    var r: nat :| HasRoot(entries, r) && entries[r].id == root;
    CheckedAt(entries, |entries|, r);
  }

  lemma NodeFieldsBounded(entries: seq<Entry>, nodes: map<nat, Node>, ids: seq<nat>, i: nat)
    requires AllChecked(entries, |entries|) && |entries| <= DENTRY_CAPACITY + 1 && Collected(entries, |entries|, nodes)
    requires i < |ids| && (forall j :: 0 <= j < |ids| ==> ids[j] in nodes) &&
             NodesUsed(nodes, ids, |ids|) <= DATA_CAPACITY
    ensures NodeStorable(nodes[ids[i]]) && NodeInRange(ids[i], nodes[ids[i]])
  {
    var j := NodesChecked(entries, nodes, ids[i]);
    DataBounded(nodes, ids, i, |ids|);
  }

  lemma NameBounded(entries: seq<Entry>, name: Name, i: nat)
    requires AllChecked(entries, |entries|) && AllPlaced(entries, |entries|) && NamedBy(entries, name, i)
    ensures NameStorable(name)
  {
    CheckedAt(entries, |entries|, i);
    PlacedAt(entries, |entries|, i);
    var k: nat :| IsParent(entries, i, k) && entries[k].id == name.parent;
    CheckedAt(entries, |entries|, k);
  }

  lemma {:induction false} DataBounded(nodes: map<nat, Node>, ids: seq<nat>, i: nat, n: nat)
    requires i < n <= |ids| && forall j :: 0 <= j < |ids| ==> ids[j] in nodes
    ensures |nodes[ids[i]].data| <= NodesUsed(nodes, ids, n)
  {
    if i < n - 1 { DataBounded(nodes, ids, i, n - 1); }
  }

  lemma {:induction false} NamesFewer(from: seq<nat>, n: nat)
    requires (forall m :: 0 <= m < |from| ==> from[m] < n) && forall m, l :: 0 <= m < l < |from| ==> from[m] < from[l]
    ensures |from| <= n
  {
    if |from| > 0 {
      var last := from[|from| - 1];
      NamesFewer(from[..|from| - 1], last);
    }
  }

  lemma IdsFewer(ids: seq<nat>)
    requires (forall i :: 0 <= i < |ids| ==> 0 < ids[i] < INODE_CAPACITY) && forall i, j :: 0 <= i < j < |ids| ==>
             ids[i] < ids[j]
    ensures |ids| < INODE_CAPACITY
  {
    var from := seq(|ids|, i requires 0 <= i < |ids| => ids[i] - 1);
    NamesFewer(from, INODE_CAPACITY - 1);
  }

  /** The tree's parts and how much room they take in the image and in the data arena. */
  ghost predicate Measured(nodes: map<nat, Node>, names: seq<Name>, ids: seq<nat>, size: nat, used: nat) {
    && (forall i :: 0 <= i < |ids| ==> ids[i] in nodes)
    && size == NodesSize(nodes, ids, |ids|) + NamesSize(names, |names|)
    && used == NodesUsed(nodes, ids, |ids|) + NamesUsed(names, |names|)
  }

  /** The tree of a list whose entries were collected and whose root is there. */
  method Arrange(entries: seq<Entry>, nodes: map<nat, Node>, paths: map<seq<Byte>, nat>)
    returns (names: seq<Name>, ids: seq<nat>, size: nat, used: nat, ok: bool, ghost from: seq<nat>)
    requires AllChecked(entries, |entries|) && Collected(entries, |entries|, nodes) &&
             Indexed(entries, |entries|, paths)
    ensures ok <==> SingleDirectories(entries) && AllPlaced(entries, |entries|)
    ensures ok ==> Ascending(ids, nodes) && NamesFrom(entries, names, from, |entries|) &&
                   Measured(nodes, names, ids, size, used)
  {
    NodesBounded(entries, nodes);
    ids := ListNodes(nodes);
    SingleLinks(entries, nodes, ids);
    var namesSize, namesUsed;
    names, from := [], [];
    ok, size, used := MeasureNodes(nodes, ids);
    if ok {
      names, namesSize, namesUsed, ok, from := MakeNames(entries, paths);
      size, used := size + namesSize, used + namesUsed;
    }
  }

  lemma Composed(entries: seq<Entry>, t: Tree, ids: seq<nat>, from: seq<nat>, r: nat)
    requires Collected(entries, |entries|, t.nodes) && Ascending(ids, t.nodes) &&
             NamesFrom(entries, t.names, from, |entries|)
    requires HasRoot(entries, r) && entries[r].id == t.root
    ensures TreeFor(entries, t, ids, from)
  {
  }

  /** The directory `/` is there and the list is not too long. */
  predicate Rooted(entries: seq<Entry>, paths: map<seq<Byte>, nat>)
    requires ROOT in paths ==> paths[ROOT] < |entries|
  {
    ROOT in paths && entries[paths[ROOT]].kind == Directory && |entries| - 1 <= DENTRY_CAPACITY
  }

  lemma RootedExactly(entries: seq<Entry>, paths: map<seq<Byte>, nat>)
    requires Indexed(entries, |entries|, paths)
    ensures Rooted(entries, paths) ==> HasRoot(entries, paths[ROOT])
    ensures Rooted(entries, paths) <==> (exists r: nat :: HasRoot(entries, r)) && |entries| <= DENTRY_CAPACITY + 1
  {
    if Rooted(entries, paths) {
      assert HasRoot(entries, paths[ROOT]);
    } else if exists r: nat :: HasRoot(entries, r) {
      var r: nat :| HasRoot(entries, r);
      assert entries[r].path in paths && paths[entries[r].path] == r;
    }
  }

  /** The tree of an acceptable list. */
  method MakeTree(entries: seq<Entry>)
    returns (nodes: map<nat, Node>, names: seq<Name>, root: nat, ids: seq<nat>, size: nat, used: nat, ok: bool,
             ghost from: seq<nat>)
    ensures ok <==> Acceptable(entries)
    ensures ok ==> TreeFor(entries, Tree(nodes, names, root), ids, from) && Measured(nodes, names, ids, size, used)
  {
    names, root, ids, size, used, from := [], 0, [], 0, 0, [];
    var paths;
    nodes, paths, ok := Collect(entries);
    if ok {
      RootedExactly(entries, paths);
      ok := Rooted(entries, paths);
      if ok {
        var r := paths[ROOT];
        CheckedAt(entries, |entries|, r);
        root := entries[r].id;
        names, ids, size, used, ok, from := Arrange(entries, nodes, paths);
        if ok { Composed(entries, Tree(nodes, names, root), ids, from, r); }
      }
    }
  }

  /** Entries go by their paths; `order` ranks the paths as the host compares them. */
  function ByPath(order: seq<Byte> -> int): Entry -> int {
    (e: Entry) => order(e.path)
  }

  /** Serialise a list of entries, sorted by their paths. */
  method Serialize(source: seq<Entry>, order: seq<Byte> -> int)
    returns (output: array<Byte>, ok: bool, ghost t: Tree, ghost ids: seq<nat>, ghost from: seq<nat>)
    ensures var entries := StableSort(source, ByPath(order));
      && (Acceptable(entries) ==> TreeFor(entries, t, ids, from))
      && (ok <==> Acceptable(entries) && Fits(t, ids))
    ensures ok ==> ImageLaid(output[..], 0, output.Length, t, ids)
  {
    var entries := StableSort(source, ByPath(order));
    output := new Byte[0];
    var nodes, names, root, list, size, used;
    nodes, names, root, list, size, used, ok, from := MakeTree(entries);
    t, ids := Tree(nodes, names, root), list;
    if !ok { return; }
    if used > DATA_CAPACITY || HEADER + size > 0xffff_ffff { return output, false, t, ids, from; }
    TreeStorable(entries, t, ids, from);
    output := WriteImage(nodes, names, root, list, HEADER + size);
  }
}
