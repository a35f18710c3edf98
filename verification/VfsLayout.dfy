/** Where the records of a tree lie in an image, and that an image decodes to the
    tree it was laid out from. */
module VfsLayout {
  import opened Frames
  import opened VfsImages

  // --- sizes

  /** Bytes the first `n` node records take in the image. */
  ghost function NodesSize(nodes: map<nat, Node>, ids: seq<nat>, n: nat): nat
    requires n <= |ids| && forall i :: 0 <= i < |ids| ==> ids[i] in nodes
  {
    if n == 0 then 0 else NodesSize(nodes, ids, n - 1) + Align4(NODE_RECORD + |nodes[ids[n - 1]].data|)
  }

  /** Bytes the data of the first `n` nodes take in the data arena. */
  ghost function NodesUsed(nodes: map<nat, Node>, ids: seq<nat>, n: nat): nat
    requires n <= |ids| && forall i :: 0 <= i < |ids| ==> ids[i] in nodes
  {
    if n == 0 then 0 else NodesUsed(nodes, ids, n - 1) + Align4(|nodes[ids[n - 1]].data|)
  }

  ghost function NamesSize(names: seq<Name>, n: nat): nat
    requires n <= |names|
  {
    if n == 0 then 0 else NamesSize(names, n - 1) + Align4(NAME_RECORD + |names[n - 1].text|)
  }

  ghost function NamesUsed(names: seq<Name>, n: nat): nat
    requires n <= |names|
  {
    if n == 0 then 0 else NamesUsed(names, n - 1) + Align4(|names[n - 1].text|)
  }

  // --- records

  ghost predicate BytesAre(b: seq<Byte>, at: nat, text: seq<Byte>) {
    at + |text| <= |b| && forall k :: 0 <= k < |text| ==> b[at + k] == text[k]
  }

  ghost predicate NodeAt(b: seq<Byte>, at: nat, id: nat, n: Node) {
    && at + NODE_RECORD <= |b|
    && Word(b, at) == id && Word(b, at + 4) == n.kind && Word(b, at + 8) == n.mode
    && Word(b, at + 12) == n.uid && Word(b, at + 16) == n.gid && Word(b, at + 20) == n.links
    && Word(b, at + 24) == |n.data|
    && Word64(b, at + 32) == n.at && Word64(b, at + 40) == n.mt && Word64(b, at + 48) == n.ct
    && BytesAre(b, at + NODE_RECORD, n.data)
  }

  ghost predicate NameAt(b: seq<Byte>, at: nat, n: Name) {
    && at + NAME_RECORD <= |b|
    && Word(b, at) == n.parent && Word(b, at + 4) == n.child && Word(b, at + 8) == |n.text|
    && BytesAre(b, at + NAME_RECORD, n.text)
  }

  ghost predicate NodesLaid(b: seq<Byte>, start: nat, nodes: map<nat, Node>, ids: seq<nat>, n: nat)
    requires n <= |ids| && forall i :: 0 <= i < |ids| ==> ids[i] in nodes
  {
    n == 0 || (NodesLaid(b, start, nodes, ids, n - 1) &&
               NodeAt(b, start + NodesSize(nodes, ids, n - 1), ids[n - 1], nodes[ids[n - 1]]))
  }

  ghost predicate NamesLaid(b: seq<Byte>, start: nat, names: seq<Name>, n: nat)
    requires n <= |names|
  {
    n == 0 || (NamesLaid(b, start, names, n - 1) && NameAt(b, start + NamesSize(names, n - 1), names[n - 1]))
  }

  ghost predicate HeaderLaid(b: seq<Byte>, image: nat, length: nat, inodes: nat, dentries: nat, root: nat) {
    && HeaderFits(b, image, length)
    && Word(b, image + 8) == inodes && Word(b, image + 12) == dentries && Word(b, image + 16) == root
    && Word(b, image + 24) == Fnv(b, image + HEADER, length - HEADER)
  }

  /** The nodes in the order of `ids`, then the names, fill the bytes from `first` to `end`. */
  ghost predicate RecordsLaid(b: seq<Byte>, first: nat, end: nat, nodes: map<nat, Node>, names: seq<Name>,
                              ids: seq<nat>) {
    && (forall i :: 0 <= i < |ids| ==> ids[i] in nodes)
    && end == first + NodesSize(nodes, ids, |ids|) + NamesSize(names, |names|)
    && NodesLaid(b, first, nodes, ids, |ids|)
    && NamesLaid(b, first + NodesSize(nodes, ids, |ids|), names, |names|)
  }

  ghost predicate ImageLaid(b: seq<Byte>, image: nat, length: nat, t: Tree, ids: seq<nat>) {
    && HeaderLaid(b, image, length, |ids|, |t.names|, t.root)
    && RecordsLaid(b, image + HEADER, image + length, t.nodes, t.names, ids)
  }

  // --- trees an image can hold

  ghost predicate NodeInRange(id: nat, n: Node) {
    && 0 < id < INODE_CAPACITY && FILE <= n.kind <= LINK && n.links > 0
    && |n.data| <= DATA_CAPACITY && (n.kind == DIRECTORY ==> n.data == [])
  }

  /** `ids` lists the nodes, each once, and everything fits. */
  ghost predicate Loadable(t: Tree, ids: seq<nat>, capacity: nat) {
    && (forall i :: 0 <= i < |ids| ==> ids[i] in t.nodes && NodeInRange(ids[i], t.nodes[ids[i]]))
    && (forall id :: id in t.nodes ==> id in ids)
    && (forall i, j :: 0 <= i < j < |ids| ==> ids[i] != ids[j])
    && ProperTree(t.nodes, t.names) && IsDirectory(t.nodes, t.root)
    && CountsFit(|ids|, |t.names|, t.root)
    && NodesUsed(t.nodes, ids, |ids|) + NamesUsed(t.names, |t.names|) <= capacity
  }

  /** The loader keeps the low 12 bits of a mode. */
  ghost function Masked(n: Node): Node {
    n.(mode := n.mode % 4096)
  }

  ghost function MaskedNodes(nodes: map<nat, Node>): map<nat, Node> {
    map id | id in nodes :: Masked(nodes[id])
  }

  /** The first `n` of the listed nodes. */
  ghost function Listed(nodes: map<nat, Node>, ids: seq<nat>, n: nat): map<nat, Node>
    requires n <= |ids| && forall i :: 0 <= i < |ids| ==> ids[i] in nodes
  {
    if n == 0 then map[] else Listed(nodes, ids, n - 1)[ids[n - 1] := Masked(nodes[ids[n - 1]])]
  }

  lemma {:induction false} ListedHas(nodes: map<nat, Node>, ids: seq<nat>, n: nat, id: nat)
    requires n <= |ids| && forall i :: 0 <= i < |ids| ==> ids[i] in nodes
    ensures id in Listed(nodes, ids, n) <==> exists i :: 0 <= i < n && ids[i] == id
    ensures id in Listed(nodes, ids, n) ==> id in nodes && Listed(nodes, ids, n)[id] == Masked(nodes[id])
  {
    if n > 0 { ListedHas(nodes, ids, n - 1, id); }
  }

  lemma AllListed(nodes: map<nat, Node>, ids: seq<nat>)
    requires (forall i :: 0 <= i < |ids| ==> ids[i] in nodes) && (forall id :: id in nodes ==> id in ids)
    ensures Listed(nodes, ids, |ids|) == MaskedNodes(nodes)
  {
    forall id: nat ensures id in Listed(nodes, ids, |ids|) <==> id in nodes {
      ListedHas(nodes, ids, |ids|, id);
    }
    forall id | id in nodes ensures Listed(nodes, ids, |ids|)[id] == Masked(nodes[id]) {
      ListedHas(nodes, ids, |ids|, id);
    }
  }

  // --- decoding what was laid out

  lemma {:induction false} SizesGrow(nodes: map<nat, Node>, ids: seq<nat>, m: nat, n: nat)
    requires m <= n <= |ids| && forall i :: 0 <= i < |ids| ==> ids[i] in nodes
    ensures NodesSize(nodes, ids, m) <= NodesSize(nodes, ids, n) && NodesUsed(nodes, ids, m) <= NodesUsed(nodes, ids, n)
  {
    if m < n { SizesGrow(nodes, ids, m, n - 1); }
  }

  lemma {:induction false} NameSizesGrow(names: seq<Name>, m: nat, n: nat)
    requires m <= n <= |names|
    ensures NamesSize(names, m) <= NamesSize(names, n) && NamesUsed(names, m) <= NamesUsed(names, n)
  {
    if m < n { NameSizesGrow(names, m, n - 1); }
  }

  lemma NodeComes(b: seq<Byte>, end: nat, capacity: nat, p: Progress, id: nat, n: Node)
    requires p.Going? && NodeAt(b, p.cursor, id, n) && NodeInRange(id, n) && id !in p.nodes
    requires p.used + Align4(|n.data|) <= capacity && p.cursor + Align4(NODE_RECORD + |n.data|) <= end <= |b|
    ensures NodeStep(b, end, capacity, p, STEP_FOLDS) ==
      Going(p.nodes[id := Masked(n)], p.names, p.cursor + Align4(NODE_RECORD + |n.data|), p.used + Align4(|n.data|))
  {
    StepsAre(b, end, capacity, p, STEP_FOLDS);
    assert Span(b, p.cursor + NODE_RECORD, |n.data|) == n.data;
  }

  /** Where decoding stands after the first `n` listed nodes. */
  ghost function NodesRead(image: nat, nodes: map<nat, Node>, ids: seq<nat>, n: nat): Progress
    requires n <= |ids| && forall i :: 0 <= i < |ids| ==> ids[i] in nodes
  {
    Going(Listed(nodes, ids, n), [], image + HEADER + NodesSize(nodes, ids, n), NodesUsed(nodes, ids, n))
  }

  lemma NextNode(b: seq<Byte>, image: nat, end: nat, capacity: nat, nodes: map<nat, Node>, ids: seq<nat>, n: nat)
    requires 0 < n <= |ids| && (forall i :: 0 <= i < |ids| ==> ids[i] in nodes)
    requires NodeInRange(ids[n - 1], nodes[ids[n - 1]]) && forall i :: 0 <= i < n - 1 ==> ids[i] != ids[n - 1]
    requires NodeAt(b, image + HEADER + NodesSize(nodes, ids, n - 1), ids[n - 1], nodes[ids[n - 1]])
    requires NodesUsed(nodes, ids, n) <= capacity && image + HEADER + NodesSize(nodes, ids, n) <= end <= |b|
    ensures NodeStep(b, end, capacity, NodesRead(image, nodes, ids, n - 1), STEP_FOLDS) == NodesRead(image, nodes, ids,
        n)
  {
    ListedHas(nodes, ids, n - 1, ids[n - 1]);
    NodeComes(b, end, capacity, NodesRead(image, nodes, ids, n - 1), ids[n - 1], nodes[ids[n - 1]]);
  }

  lemma {:induction false} NodesCome(b: seq<Byte>, image: nat, end: nat, capacity: nat, nodes: map<nat, Node>,
                                     ids: seq<nat>, n: nat)
    requires n <= |ids| && (forall i :: 0 <= i < |ids| ==> ids[i] in nodes && NodeInRange(ids[i], nodes[ids[i]]))
    requires forall i, j :: 0 <= i < j < |ids| ==> ids[i] != ids[j]
    requires NodesLaid(b, image + HEADER, nodes, ids, n)
    requires NodesUsed(nodes, ids, |ids|) <= capacity && image + HEADER + NodesSize(nodes, ids, |ids|) <= end <= |b|
    ensures NodesAfter(b, end, capacity, Begun(image), n) == NodesRead(image, nodes, ids, n)
  {
    if n > 0 {
      NodesCome(b, image, end, capacity, nodes, ids, n - 1);
      SizesGrow(nodes, ids, n, |ids|);
      NextNode(b, image, end, capacity, nodes, ids, n);
    }
  }

  lemma NameComes(b: seq<Byte>, end: nat, capacity: nat, p: Progress, n: Name)
    requires p.Going? && NameAt(b, p.cursor, n) && IsDirectory(p.nodes, n.parent) && n.child in p.nodes &&
             ValidName(n.text)
    requires !Taken(p.names, n.parent, n.text)
    requires p.used + Align4(|n.text|) <= capacity && p.cursor + Align4(NAME_RECORD + |n.text|) <= end <= |b|
    ensures NameStep(b, end, capacity, p, STEP_FOLDS) ==
      Going(p.nodes, p.names + [n], p.cursor + Align4(NAME_RECORD + |n.text|), p.used + Align4(|n.text|))
  {
    StepsAre(b, end, capacity, p, STEP_FOLDS);
    assert Span(b, p.cursor + NAME_RECORD, |n.text|) == n.text;
  }

  /** Where decoding stands after the first `n` names. */
  ghost predicate NamesRead(p: Progress, q: Progress, names: seq<Name>, n: nat)
    requires n <= |names| && p.Going?
  {
    && q.Going? && q.nodes == p.nodes && q.cursor == p.cursor + NamesSize(names, n)
    && q.used == p.used + NamesUsed(names, n)
    && |q.names| == n && forall i :: 0 <= i < n ==> q.names[i] == names[i]
  }

  lemma NextName(b: seq<Byte>, end: nat, capacity: nat, p: Progress, q: Progress, names: seq<Name>, n: nat)
    requires 0 < n <= |names| && p.Going? && NamesRead(p, q, names, n - 1) && ProperTree(p.nodes, names)
    requires NameAt(b, p.cursor + NamesSize(names, n - 1), names[n - 1])
    requires p.used + NamesUsed(names, n) <= capacity && p.cursor + NamesSize(names, n) <= end <= |b|
    ensures NamesRead(p, NameStep(b, end, capacity, q, STEP_FOLDS), names, n)
  {
    NameComes(b, end, capacity, q, names[n - 1]);
  }

  lemma {:induction false} NamesCome(b: seq<Byte>, end: nat, capacity: nat, p: Progress, names: seq<Name>, n: nat)
    requires p.Going? && p.names == [] && n <= |names| && NamesLaid(b, p.cursor, names, n) && ProperTree(p.nodes, names)
    requires p.used + NamesUsed(names, |names|) <= capacity && p.cursor + NamesSize(names, |names|) <= end <= |b|
    ensures NamesRead(p, NamesAfter(b, end, capacity, p, n), names, n)
  {
    if n > 0 {
      NamesCome(b, end, capacity, p, names, n - 1);
      NameSizesGrow(names, n, |names|);
      NextName(b, end, capacity, p, NamesAfter(b, end, capacity, p, n - 1), names, n);
    }
  }

  lemma NodesDecode(b: seq<Byte>, image: nat, length: nat, capacity: nat, t: Tree, ids: seq<nat>)
    requires ImageLaid(b, image, length, t, ids) && Loadable(t, ids, capacity)
    ensures NodesAfter(b, image + length, capacity, Begun(image), |ids|) == NodesRead(image, t.nodes, ids, |ids|)
    ensures Listed(t.nodes, ids, |ids|) == MaskedNodes(t.nodes) && ProperTree(MaskedNodes(t.nodes), t.names)
  {
    NodesCome(b, image, image + length, capacity, t.nodes, ids, |ids|);
    AllListed(t.nodes, ids);
    ProperMasked(t.nodes, t.names);
  }

  lemma NamesDecode(b: seq<Byte>, image: nat, length: nat, capacity: nat, t: Tree, ids: seq<nat>, p: Progress)
    requires ImageLaid(b, image, length, t, ids) && p == NodesRead(image, t.nodes, ids, |ids|)
    requires ProperTree(p.nodes, t.names) && NodesUsed(t.nodes, ids, |ids|) + NamesUsed(t.names, |t.names|) <= capacity
    ensures var q := NamesAfter(b, image + length, capacity, p, |t.names|);
            NamesRead(p, q, t.names, |t.names|) && q.cursor == image + length
  {
    NamesCome(b, image + length, capacity, p, t.names, |t.names|);
  }

  /** An image decodes to the tree it was laid out from, modes masked. */
  lemma LaidDecodes(b: seq<Byte>, image: nat, length: nat, capacity: nat, t: Tree, ids: seq<nat>)
    requires ImageLaid(b, image, length, t, ids) && Loadable(t, ids, capacity)
    ensures Decode(b, image, length, capacity) == Done(Tree(MaskedNodes(t.nodes), t.names, t.root))
  {
    var p := NodesRead(image, t.nodes, ids, |ids|);
    NodesDecode(b, image, length, capacity, t, ids);
    NamesDecode(b, image, length, capacity, t, ids, p);
    Finished(b, image, length, capacity, t, p, NamesAfter(b, image + length, capacity, p, |t.names|));
  }

  lemma Finished(b: seq<Byte>, image: nat, length: nat, capacity: nat, t: Tree, p: Progress, q: Progress)
    requires HeaderAdmits(b, image, length) && |t.names| == Word(b, image + 12) && t.root == Word(b, image + 16)
    requires p.Going? && p == NodesAfter(b, image + length, capacity, Begun(image), Word(b, image + 8)) &&
             IsDirectory(p.nodes, t.root)
    requires q == NamesAfter(b, image + length, capacity, p, |t.names|) && NamesRead(p, q, t.names, |t.names|)
    requires q.cursor == image + length
    ensures Decode(b, image, length, capacity) == Done(Tree(p.nodes, t.names, t.root))
  {
    assert q.names == t.names;
  }

  lemma ProperMasked(nodes: map<nat, Node>, names: seq<Name>)
    requires ProperTree(nodes, names)
    ensures ProperTree(MaskedNodes(nodes), names)
  {
  }
}
