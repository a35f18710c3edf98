/** The root file system image: what a tree is, and what an image decodes to. */
module VfsImages {
  import opened Frames
  import opened Words

  const IMAGE_MAGIC := 0x31534656
  const IMAGE_VERSION := 1
  const INODE_CAPACITY := 4096
  const DENTRY_CAPACITY := 8192
  const DATA_CAPACITY := 16777216
  const HEADER := 32
  const NODE_RECORD := 56
  const NAME_RECORD := 16

  const FILE := 1
  const DIRECTORY := 2
  const LINK := 3

  const OK := 0
  const RANGE := 1
  const FORMAT := 2
  const CHECKSUM := 3
  const CAPACITY := 4
  const DUPLICATE := 5

  const SLASH: Byte := 47
  const DOT: Byte := 46

  /** A file, directory or symbolic link; the data of a link is its target. */
  datatype Node = Node(kind: nat, mode: nat, uid: nat, gid: nat, links: nat, at: nat, mt: nat, ct: nat, data: seq<Byte>)

  /** One directory entry. */
  datatype Name = Name(parent: nat, child: nat, text: seq<Byte>)

  datatype Tree = Tree(nodes: map<nat, Node>, names: seq<Name>, root: nat)

  function Align4(n: nat): (r: nat)
    ensures r % 4 == 0 && n <= r < n + 4
  {
    (n + 3) / 4 * 4
  }

  /** The little-endian words at `at`. */
  ghost function Word(b: seq<Byte>, at: nat): U32
    requires at + 4 <= |b|
  {
    b[at] as int + 0x100 * b[at + 1] as int + 0x10000 * b[at + 2] as int + 0x1000000 * b[at + 3] as int
  }

  ghost function Word64(b: seq<Byte>, at: nat): U64
    requires at + 8 <= |b|
  {
    Word(b, at) + 0x1_0000_0000 * Word(b, at + 4)
  }

  /** Exclusive or, bit by bit. */
  function Xor(x: nat, y: nat): nat
    decreases x + y
  {
    if x == 0 && y == 0 then 0 else (x + y) % 2 + 2 * Xor(x / 2, y / 2)
  }

  /** The 32-bit FNV-1a hash of the `n` bytes at `at`. */
  function Fnv(b: seq<Byte>, at: nat, n: nat): U32
    requires at + n <= |b|
  {
    if n == 0 then 0x811c9dc5 else Xor(Fnv(b, at, n - 1), b[at + n - 1]) * 0x01000193 % 0x1_0000_0000
  }

  lemma {:induction false} SameFnv(b: seq<Byte>, c: seq<Byte>, from: nat, at: nat, n: nat)
    requires from + n <= |b| && at + n <= |c|
    requires forall k {:trigger b[k]} :: from <= k < from + n ==> b[k] == c[k - from + at]
    ensures Fnv(b, from, n) == Fnv(c, at, n)
  {
    if n > 0 { SameFnv(b, c, from, at, n - 1); }
  }

  ghost predicate ValidName(text: seq<Byte>) {
    && 0 < |text| <= 255
    && (forall k :: 0 <= k < |text| ==> text[k] != 0 && text[k] != SLASH)
    && text != [DOT] && text != [DOT, DOT]
  }

  function Span(b: seq<Byte>, at: nat, length: nat): (r: seq<Byte>)
    requires at + length <= |b|
    ensures |r| == length && forall k :: 0 <= k < length ==> r[k] == b[at + k]
  {
    seq(length, k requires 0 <= k < length => b[at + k])
  }

  ghost predicate IsDirectory(nodes: map<nat, Node>, id: nat) {
    id in nodes && nodes[id].kind == DIRECTORY
  }

  ghost predicate Taken(names: seq<Name>, parent: nat, text: seq<Byte>) {
    exists i :: 0 <= i < |names| && names[i].parent == parent && names[i].text == text
  }

  // --- decoding

  /** Where decoding stands: it failed, or it read some records up to `cursor`
      and filled `used` bytes of the data arena. */
  datatype Progress = Stopped(code: nat) | Going(nodes: map<nat, Node>, names: seq<Name>, cursor: nat, used: nat)

  ghost function NodeOf(b: seq<Byte>, at: nat): Node
    requires at + NODE_RECORD <= |b| && at + NODE_RECORD + Word(b, at + 24) <= |b|
  {
    Node(Word(b, at + 4), Word(b, at + 8) % 4096, Word(b, at + 12), Word(b, at + 16), Word(b, at + 20),
         Word64(b, at + 32), Word64(b, at + 40), Word64(b, at + 48), Span(b, at + NODE_RECORD, Word(b, at + 24)))
  }

  /** A node record lies between `at` and `end`, and its fields are in range. */
  ghost predicate NodeFits(b: seq<Byte>, at: nat, end: nat) {
    && at + NODE_RECORD <= end <= |b|
    && 0 < Word(b, at) < INODE_CAPACITY && FILE <= Word(b, at + 4) <= LINK
    && Word(b, at + 20) != 0 && Word(b, at + 24) <= DATA_CAPACITY
    && (Word(b, at + 4) == DIRECTORY ==> Word(b, at + 24) == 0)
    && at + NODE_RECORD + Word(b, at + 24) <= end
  }

  ghost function NodeRead(b: seq<Byte>, end: nat, capacity: nat, p: Progress): Progress {
    if p.Stopped? then p
    else if !NodeFits(b, p.cursor, end) then Stopped(FORMAT)
    else if Word(b, p.cursor) in p.nodes then Stopped(DUPLICATE)
    else if p.used + Align4(Word(b, p.cursor + 24)) > capacity then Stopped(CAPACITY)
    else if p.cursor + Align4(NODE_RECORD + Word(b, p.cursor + 24)) > end then Stopped(FORMAT)
    else Going(p.nodes[Word(b, p.cursor) := NodeOf(b, p.cursor)], p.names,
               p.cursor + Align4(NODE_RECORD + Word(b, p.cursor + 24)), p.used + Align4(Word(b, p.cursor + 24)))
  }

  const STEP_FOLDS := 3

  /** `NodeRead` and `NameRead`, kept folded so that a loop over records reasons
      from their names alone; `StepsAre` unfolds them. */
  ghost function NodeStep(b: seq<Byte>, end: nat, capacity: nat, p: Progress, folds: nat): Progress {
    if folds == 0 then NodeRead(b, end, capacity, p) else NodeStep(b, end, capacity, p, folds - 1)
  }

  ghost function NameStep(b: seq<Byte>, end: nat, capacity: nat, p: Progress, folds: nat): Progress {
    if folds == 0 then NameRead(b, end, capacity, p) else NameStep(b, end, capacity, p, folds - 1)
  }

  lemma StepsAre(b: seq<Byte>, end: nat, capacity: nat, p: Progress, folds: nat)
    ensures NodeStep(b, end, capacity, p, folds) == NodeRead(b, end, capacity, p)
    ensures NameStep(b, end, capacity, p, folds) == NameRead(b, end, capacity, p)
  {
  }

  ghost function Begun(image: nat): Progress {
    Going(map[], [], image + HEADER, 0)
  }

  /** The progress after `n` node records. */
  ghost function NodesAfter(b: seq<Byte>, end: nat, capacity: nat, p: Progress, n: nat): Progress {
    if n == 0 then p else NodeStep(b, end, capacity, NodesAfter(b, end, capacity, p, n - 1), STEP_FOLDS)
  }

  ghost predicate NameFits(b: seq<Byte>, at: nat, end: nat, nodes: map<nat, Node>) {
    && at + NAME_RECORD <= end <= |b|
    && IsDirectory(nodes, Word(b, at)) && Word(b, at + 4) in nodes
    && at + NAME_RECORD + Word(b, at + 8) <= end
    && ValidName(Span(b, at + NAME_RECORD, Word(b, at + 8)))
  }

  ghost function NameOf(b: seq<Byte>, at: nat): Name
    requires at + NAME_RECORD <= |b| && at + NAME_RECORD + Word(b, at + 8) <= |b|
  {
    Name(Word(b, at), Word(b, at + 4), Span(b, at + NAME_RECORD, Word(b, at + 8)))
  }

  ghost function NameRead(b: seq<Byte>, end: nat, capacity: nat, p: Progress): Progress {
    if p.Stopped? then p
    else if !NameFits(b, p.cursor, end, p.nodes) then Stopped(FORMAT)
    else
      var name := NameOf(b, p.cursor);
      if Taken(p.names, name.parent, name.text) then Stopped(DUPLICATE)
      else if p.used + Align4(|name.text|) > capacity then Stopped(CAPACITY)
      else if p.cursor + Align4(NAME_RECORD + |name.text|) > end then Stopped(FORMAT)
      else Going(p.nodes, p.names + [name], p.cursor + Align4(NAME_RECORD + |name.text|), p.used + Align4(|name.text|))
  }

  /** The progress after `n` name records that follow the nodes. */
  ghost function NamesAfter(b: seq<Byte>, end: nat, capacity: nat, p: Progress, n: nat): Progress {
    if n == 0 then p else NameStep(b, end, capacity, NamesAfter(b, end, capacity, p, n - 1), STEP_FOLDS)
  }

  datatype Decoded = Failed(code: nat) | Done(tree: Tree)

  ghost predicate HeaderFits(b: seq<Byte>, image: nat, length: nat) {
    && HEADER <= length && image + length <= |b|
    && Word(b, image) == IMAGE_MAGIC && Word(b, image + 4) == IMAGE_VERSION && Word(b, image + 20) == length
  }

  ghost function Closed(p: Progress, root: nat, end: nat): Decoded {
    if p.Stopped? then Failed(p.code)
    else if p.cursor != end then Failed(FORMAT)
    else Done(Tree(p.nodes, p.names, root))
  }

  /** The nodes must hold the root before the names are read. */
  ghost function Rooted(p: Progress, root: nat): Progress {
    if p.Going? && !IsDirectory(p.nodes, root) then Stopped(FORMAT) else p
  }

  ghost predicate CountsFit(inodes: nat, dentries: nat, root: nat) {
    0 < inodes < INODE_CAPACITY && dentries <= DENTRY_CAPACITY && 0 < root < INODE_CAPACITY
  }

  ghost predicate HeaderAdmits(b: seq<Byte>, image: nat, length: nat) {
    && HeaderFits(b, image, length)
    && CountsFit(Word(b, image + 8), Word(b, image + 12), Word(b, image + 16))
    && Fnv(b, image + HEADER, length - HEADER) == Word(b, image + 24)
  }

  /** What the bytes at `image` decode to when the data arena holds `capacity` bytes. */
  ghost function Decode(b: seq<Byte>, image: nat, length: nat, capacity: nat): Decoded {
    if !HeaderFits(b, image, length) then Failed(RANGE)
    else if !CountsFit(Word(b, image + 8), Word(b, image + 12), Word(b, image + 16)) then Failed(CAPACITY)
    else if !HeaderAdmits(b, image, length) then Failed(CHECKSUM)
    else
      var p := Rooted(NodesAfter(b, image + length, capacity, Begun(image), Word(b, image + 8)), Word(b, image + 16));
      Closed(NamesAfter(b, image + length, capacity, p, Word(b, image + 12)), Word(b, image + 16), image + length)
  }

  // --- every decoded tree is well formed

  /** Names stand in directories, name nodes, and differ within a directory. */
  ghost predicate ProperTree(nodes: map<nat, Node>, names: seq<Name>) {
    && (forall id :: id in nodes ==> 0 < id < INODE_CAPACITY && FILE <= nodes[id].kind <= LINK && nodes[id].links > 0)
    && (forall i :: 0 <= i < |names| ==>
          IsDirectory(nodes, names[i].parent) && names[i].child in nodes && ValidName(names[i].text))
    && (forall i, j :: 0 <= i < j < |names| ==> names[i].parent != names[j].parent || names[i].text != names[j].text)
  }

  lemma {:induction false} NodesProper(b: seq<Byte>, end: nat, capacity: nat, p: Progress, n: nat)
    requires p.Going? ==> p.names == [] && ProperTree(p.nodes, [])
    ensures var q := NodesAfter(b, end, capacity, p, n);
            q.Going? ==> q.names == [] && ProperTree(q.nodes, [])
  {
    if n > 0 {
      NodesProper(b, end, capacity, p, n - 1);
      StepsAre(b, end, capacity, NodesAfter(b, end, capacity, p, n - 1), STEP_FOLDS);
    }
  }

  lemma {:induction false} NamesProper(b: seq<Byte>, end: nat, capacity: nat, p: Progress, n: nat)
    requires p.Going? ==> ProperTree(p.nodes, p.names)
    ensures var q := NamesAfter(b, end, capacity, p, n);
            q.Going? ==> p.Going? && q.nodes == p.nodes && ProperTree(q.nodes, q.names)
  {
    if n > 0 {
      NamesProper(b, end, capacity, p, n - 1);
      StepsAre(b, end, capacity, NamesAfter(b, end, capacity, p, n - 1), STEP_FOLDS);
    }
  }

  lemma DecodedProper(b: seq<Byte>, image: nat, length: nat, capacity: nat)
    ensures var d := Decode(b, image, length, capacity);
            d.Done? ==> ProperTree(d.tree.nodes, d.tree.names) && IsDirectory(d.tree.nodes, d.tree.root)
  {
    if HeaderFits(b, image, length) {
      var end, inodes, dentries := image + length, Word(b, image + 8), Word(b, image + 12);
      NodesProper(b, end, capacity, Begun(image), inodes);
      var p := Rooted(NodesAfter(b, end, capacity, Begun(image), inodes), Word(b, image + 16));
      NamesProper(b, end, capacity, p, dentries);
    }
  }

  // --- what a decoded image was sealed with

  lemma {:induction false} NodesCounted(b: seq<Byte>, end: nat, capacity: nat, p: Progress, n: nat)
    requires p.Going?
    ensures var q := NodesAfter(b, end, capacity, p, n);
            q.Going? ==> |q.nodes| == |p.nodes| + n && q.names == p.names
  {
    if n > 0 {
      NodesCounted(b, end, capacity, p, n - 1);
      StepsAre(b, end, capacity, NodesAfter(b, end, capacity, p, n - 1), STEP_FOLDS);
    }
  }

  lemma {:induction false} NamesCounted(b: seq<Byte>, end: nat, capacity: nat, p: Progress, n: nat)
    ensures var q := NamesAfter(b, end, capacity, p, n);
            q.Going? ==> p.Going? && q.nodes == p.nodes && |q.names| == |p.names| + n
  {
    if n > 0 {
      NamesCounted(b, end, capacity, p, n - 1);
      StepsAre(b, end, capacity, NamesAfter(b, end, capacity, p, n - 1), STEP_FOLDS);
    }
  }

  /** Whatever is decoded carries the magic number, version 1, its own length and the
      checksum of all bytes behind the header, and as many nodes and names and the root
      that the header says. */
  lemma DecodedSealed(b: seq<Byte>, image: nat, length: nat, capacity: nat)
    requires Decode(b, image, length, capacity).Done?
    ensures 32 <= length && image + length <= |b|
    ensures Word(b, image) == 0x31534656 && Word(b, image + 4) == 1 && Word(b, image + 20) == length
    ensures Word(b, image + 24) == Fnv(b, image + 32, length - 32)
    ensures var t := Decode(b, image, length, capacity).tree;
            |t.nodes| == Word(b, image + 8) && |t.names| == Word(b, image + 12) && t.root == Word(b, image + 16)
  {
    var end, inodes, dentries := image + length, Word(b, image + 8), Word(b, image + 12);
    NodesCounted(b, end, capacity, Begun(image), inodes);
    NamesCounted(b, end, capacity,
                 Rooted(NodesAfter(b, end, capacity, Begun(image), inodes), Word(b, image + 16)), dentries);
  }
}
