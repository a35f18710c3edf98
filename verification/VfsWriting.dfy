/** Writing a tree into an image, record by record. */
module VfsWriting {
  import opened Frames
  import opened VfsImages
  import opened VfsLayout

  /** Every field fits the width it is written with. */
  ghost predicate NodeStorable(n: Node) {
    && n.kind < 0x1_0000_0000 && n.mode < 0x1_0000_0000 && n.uid < 0x1_0000_0000 && n.gid < 0x1_0000_0000
    && n.links < 0x1_0000_0000 && |n.data| < 0x1_0000_0000
    && n.at < 0x1_0000_0000_0000_0000 && n.mt < 0x1_0000_0000_0000_0000 && n.ct < 0x1_0000_0000_0000_0000
  }

  ghost predicate NameStorable(n: Name) {
    n.parent < 0x1_0000_0000 && n.child < 0x1_0000_0000 && |n.text| < 0x1_0000_0000
  }

  ghost predicate Outside(b: seq<Byte>, c: seq<Byte>, low: nat, high: nat) {
    |c| == |b| && forall k {:trigger c[k]} :: 0 <= k < |b| && !(low <= k < high) ==> c[k] == b[k]
  }

  lemma OutsideOn(b: seq<Byte>, c: seq<Byte>, d: seq<Byte>, low: nat, mid: nat, high: nat)
    requires low <= mid <= high && Outside(b, c, low, mid) && Outside(c, d, mid, high)
    ensures Outside(b, d, low, high)
  {
  }

  method PutWord(output: array<Byte>, at: nat, n: nat)
    requires at + 4 <= output.Length && n < 0x1_0000_0000
    modifies output
    ensures Word(output[..], at) == n && Outside(old(output[..]), output[..], at, at + 4)
  {
    output[at], output[at + 1], output[at + 2], output[at + 3] := n % 256, n / 256 % 256, n / 256 / 256 % 256,
        n / 256 / 256 / 256 % 256;
  }

  method PutText(output: array<Byte>, at: nat, text: seq<Byte>)
    requires at + |text| <= output.Length
    modifies output
    ensures BytesAre(output[..], at, text) && Outside(old(output[..]), output[..], at, at + |text|)
  {
    forall k | 0 <= k < |text| { output[at + k] := text[k]; }
  }

  lemma WordStill(b: seq<Byte>, c: seq<Byte>, at: nat)
    requires |b| == |c| && at + 4 <= |b| && forall k {:trigger c[k]} :: at <= k < at + 4 ==> c[k] == b[k]
    ensures Word(c, at) == Word(b, at)
  {
  }

  /** Consecutive words. */
  ghost predicate WordsAre(b: seq<Byte>, at: nat, words: seq<nat>) {
    at + 4 * |words| <= |b| && forall i {:trigger words[i]} :: 0 <= i < |words| ==> Word(b, at + 4 * i) == words[i]
  }

  /** Write consecutive words. */
  method PutWords(output: array<Byte>, at: nat, words: seq<nat>)
    requires at + 4 * |words| <= output.Length && forall i :: 0 <= i < |words| ==> words[i] < 0x1_0000_0000
    modifies output
    ensures WordsAre(output[..], at, words) && Outside(old(output[..]), output[..], at, at + 4 * |words|)
  {
    var i := 0;
    while i < |words|
      invariant 0 <= i <= |words| && Outside(old(output[..]), output[..], at, at + 4 * i)
      invariant forall j {:trigger words[j]} :: 0 <= j < i ==> Word(output[..], at + 4 * j) == words[j]
    {
      ghost var was := output[..];
      PutWord(output, at + 4 * i, words[i]);
      forall j {:trigger words[j]} | 0 <= j < i ensures Word(output[..], at + 4 * j) == words[j] {
        WordStill(was, output[..], at + 4 * j);
      }
      i := i + 1;
    }
  }

  function Low(n: nat): nat {
    n % 0x1_0000_0000
  }

  function High(n: nat): nat {
    n / 0x1_0000_0000
  }

  function NodeWords(id: nat, n: Node): seq<nat> {
    [id, n.kind, n.mode, n.uid, n.gid, n.links, |n.data|]
  }

  function TimeWords(n: Node): seq<nat> {
    [Low(n.at), High(n.at), Low(n.mt), High(n.mt), Low(n.ct), High(n.ct)]
  }

  lemma WordsGiveNode(b: seq<Byte>, at: nat, id: nat, n: Node)
    requires WordsAre(b, at, NodeWords(id, n)) && WordsAre(b, at + 32, TimeWords(n)) &&
             BytesAre(b, at + NODE_RECORD, n.data)
    ensures NodeAt(b, at, id, n)
  {
    var w, t := NodeWords(id, n), TimeWords(n);
    assert w[0] == id && w[1] == n.kind && w[2] == n.mode && w[3] == n.uid && w[4] == n.gid && w[5] == n.links &&
           w[6] == |n.data|;
    assert t[0] == Low(n.at) && t[1] == High(n.at) && t[2] == Low(n.mt) && t[3] == High(n.mt) && t[4] == Low(n.ct) &&
           t[5] == High(n.ct);
  }

  lemma WordsStill(b: seq<Byte>, c: seq<Byte>, at: nat, words: seq<nat>, low: nat, high: nat)
    requires WordsAre(b, at, words) && Outside(b, c, low, high) && (high <= at || at + 4 * |words| <= low)
    ensures WordsAre(c, at, words)
  {
    forall i {:trigger words[i]} | 0 <= i < |words| ensures Word(c, at + 4 * i) == words[i] {
      WordStill(b, c, at + 4 * i);
    }
  }

  method WriteNode(output: array<Byte>, at: nat, id: nat, n: Node)
    requires at + NODE_RECORD + |n.data| <= output.Length && id < 0x1_0000_0000 && NodeStorable(n)
    modifies output
    ensures NodeAt(output[..], at, id, n) && Outside(old(output[..]), output[..], at, at + NODE_RECORD + |n.data|)
  {
    PutWords(output, at, NodeWords(id, n));
    ghost var first := output[..];
    PutWords(output, at + 32, TimeWords(n));
    WordsStill(first, output[..], at, NodeWords(id, n), at + 32, at + 56);
    ghost var second := output[..];
    PutText(output, at + NODE_RECORD, n.data);
    WordsStill(second, output[..], at, NodeWords(id, n), at + 56, at + 56 + |n.data|);
    WordsStill(second, output[..], at + 32, TimeWords(n), at + 56, at + 56 + |n.data|);
    WordsGiveNode(output[..], at, id, n);
  }

  function NameWords(n: Name): seq<nat> {
    [n.parent, n.child, |n.text|]
  }

  method WriteName(output: array<Byte>, at: nat, n: Name)
    requires at + NAME_RECORD + |n.text| <= output.Length && NameStorable(n)
    modifies output
    ensures NameAt(output[..], at, n) && Outside(old(output[..]), output[..], at, at + NAME_RECORD + |n.text|)
  {
    PutWords(output, at, NameWords(n));
    ghost var first := output[..];
    PutText(output, at + NAME_RECORD, n.text);
    WordsStill(first, output[..], at, NameWords(n), at + 16, at + 16 + |n.text|);
    ghost var w := NameWords(n);
    assert w[0] == n.parent && w[1] == n.child && w[2] == |n.text|;
  }

  // --- later writes leave earlier records alone

  ghost predicate SameTo(b: seq<Byte>, c: seq<Byte>, low: nat, high: nat) {
    |b| == |c| && forall k {:trigger c[k]} :: low <= k < high && k < |b| ==> c[k] == b[k]
  }

  lemma BytesStill(b: seq<Byte>, c: seq<Byte>, at: nat, text: seq<Byte>)
    requires BytesAre(b, at, text) && SameTo(b, c, at, at + |text|)
    ensures BytesAre(c, at, text)
  {
    forall k | 0 <= k < |text| ensures c[at + k] == text[k] {
      assert b[at + k] == text[k];
    }
  }

  lemma {:induction false} FnvStill(b: seq<Byte>, c: seq<Byte>, at: nat, n: nat)
    requires at + n <= |b| && SameTo(b, c, at, at + n)
    ensures Fnv(b, at, n) == Fnv(c, at, n)
  {
    if n > 0 { FnvStill(b, c, at, n - 1); }
  }

  lemma NodeStill(b: seq<Byte>, c: seq<Byte>, at: nat, id: nat, n: Node)
    requires NodeAt(b, at, id, n) && SameTo(b, c, at, at + NODE_RECORD + |n.data|)
    ensures NodeAt(c, at, id, n)
  {
    BytesStill(b, c, at + NODE_RECORD, n.data);
  }

  lemma {:induction false} NodesStill(b: seq<Byte>, c: seq<Byte>, start: nat, nodes: map<nat, Node>, ids: seq<nat>,
                                      n: nat)
    requires n <= |ids| && forall i :: 0 <= i < |ids| ==> ids[i] in nodes
    requires NodesLaid(b, start, nodes, ids, n) && SameTo(b, c, start, start + NodesSize(nodes, ids, n))
    ensures NodesLaid(c, start, nodes, ids, n)
  {
    if n > 0 {
      NodesStill(b, c, start, nodes, ids, n - 1);
      NodeStill(b, c, start + NodesSize(nodes, ids, n - 1), ids[n - 1], nodes[ids[n - 1]]);
    }
  }

  lemma {:induction false} NamesStill(b: seq<Byte>, c: seq<Byte>, start: nat, names: seq<Name>, n: nat)
    requires n <= |names| && NamesLaid(b, start, names, n) && SameTo(b, c, start, start + NamesSize(names, n))
    ensures NamesLaid(c, start, names, n)
  {
    if n > 0 {
      NamesStill(b, c, start, names, n - 1);
      var at, name := start + NamesSize(names, n - 1), names[n - 1];
      BytesStill(b, c, at + NAME_RECORD, name.text);
    }
  }

  /** Write the node record that follows the first `i`. */
  method WriteNextNode(output: array<Byte>, start: nat, nodes: map<nat, Node>, ids: seq<nat>, i: nat, at: nat,
                       ghost size: nat)
    requires forall j :: 0 <= j < |ids| ==> ids[j] in nodes
    requires i < |ids| && ids[i] < 0x1_0000_0000 && NodeStorable(nodes[ids[i]])
    requires at == start + NodesSize(nodes, ids, i) && size == Align4(NODE_RECORD + |nodes[ids[i]].data|) &&
             at + size <= output.Length
    requires NodesLaid(output[..], start, nodes, ids, i)
    modifies output
    ensures NodesLaid(output[..], start, nodes, ids, i + 1) &&
            NodesSize(nodes, ids, i + 1) == NodesSize(nodes, ids, i) + size
    ensures Outside(old(output[..]), output[..], at, at + size)
  {
    ghost var was := output[..];
    WriteNode(output, at, ids[i], nodes[ids[i]]);
    NodesStill(was, output[..], start, nodes, ids, i);
  }

  method WriteNodes(output: array<Byte>, start: nat, nodes: map<nat, Node>, ids: seq<nat>) returns (at: nat)
    requires forall i :: 0 <= i < |ids| ==> ids[i] in nodes && ids[i] < 0x1_0000_0000 && NodeStorable(nodes[ids[i]])
    requires start + NodesSize(nodes, ids, |ids|) <= output.Length
    modifies output
    ensures at == start + NodesSize(nodes, ids, |ids|) && NodesLaid(output[..], start, nodes, ids, |ids|)
    ensures Outside(old(output[..]), output[..], start, at)
  {
    at := start;
    var i := 0;
    while i < |ids|
      invariant 0 <= i <= |ids| && at == start + NodesSize(nodes, ids, i) && NodesLaid(output[..], start, nodes, ids, i)
      invariant Outside(old(output[..]), output[..], start, at)
    {
      SizesGrow(nodes, ids, i + 1, |ids|);
      var size := Align4(NODE_RECORD + |nodes[ids[i]].data|);
      ghost var was := output[..];
      WriteNextNode(output, start, nodes, ids, i, at, size);
      OutsideOn(old(output[..]), was, output[..], start, at, at + size);
      at := at + size;
      i := i + 1;
    }
  }

  method WriteNames(output: array<Byte>, start: nat, names: seq<Name>) returns (at: nat)
    requires forall i :: 0 <= i < |names| ==> NameStorable(names[i])
    requires start + NamesSize(names, |names|) <= output.Length
    modifies output
    ensures at == start + NamesSize(names, |names|) && NamesLaid(output[..], start, names, |names|)
    ensures Outside(old(output[..]), output[..], start, at)
  {
    at := start;
    var i := 0;
    while i < |names|
      invariant 0 <= i <= |names| && at == start + NamesSize(names, i) && NamesLaid(output[..], start, names, i)
      invariant Outside(old(output[..]), output[..], start, at)
    {
      NameSizesGrow(names, i + 1, |names|);
      ghost var was := output[..];
      WriteName(output, at, names[i]);
      NamesStill(was, output[..], start, names, i);
      at := at + Align4(NAME_RECORD + |names[i].text|);
      i := i + 1;
    }
  }

  /** Everything in the tree can be written. */
  ghost predicate Storable(t: Tree, ids: seq<nat>) {
    && (forall i :: 0 <= i < |ids| ==> ids[i] in t.nodes && ids[i] < 0x1_0000_0000 && NodeStorable(t.nodes[ids[i]]))
    && (forall i :: 0 <= i < |t.names| ==> NameStorable(t.names[i]))
    && |ids| < 0x1_0000_0000 && |t.names| < 0x1_0000_0000 && t.root < 0x1_0000_0000
  }

  /** Write the records after the header. */
  method WriteRecords(output: array<Byte>, first: nat, nodes: map<nat, Node>, names: seq<Name>, ids: seq<nat>,
                      ghost words: seq<nat>)
    requires forall i :: 0 <= i < |ids| ==> ids[i] in nodes && ids[i] < 0x1_0000_0000 && NodeStorable(nodes[ids[i]])
    requires forall i :: 0 <= i < |names| ==> NameStorable(names[i])
    requires output.Length == first + NodesSize(nodes, ids, |ids|) + NamesSize(names, |names|)
    requires 4 * |words| <= first && WordsAre(output[..], 0, words)
    modifies output
    ensures RecordsLaid(output[..], first, output.Length, nodes, names, ids) && WordsAre(output[..], 0, words)
  {
    ghost var before := output[..];
    var start := WriteNodes(output, first, nodes, ids);
    ghost var middle := output[..];
    var at := WriteNames(output, start, names);
    NamesAfterNodes(before, middle, output[..], nodes, ids, words, first, start, at);
  }

  /** Write the checksum, which completes the header. */
  method Seal(output: array<Byte>, ghost inodes: nat, ghost dentries: nat, ghost root: nat, ghost words: seq<nat>)
    requires HEADER <= output.Length && WordsAre(output[..], 0, words)
    requires words == [IMAGE_MAGIC, IMAGE_VERSION, inodes, dentries, root, output.Length]
    modifies output
    ensures HeaderLaid(output[..], 0, output.Length, inodes, dentries, root)
    ensures Outside(old(output[..]), output[..], 24, 28)
  {
    var sum := Fnv(output[..], HEADER, output.Length - HEADER);
    ghost var was := output[..];
    PutWord(output, 24, sum);
    SealedHeader(was, output[..], inodes, dentries, root, words);
  }

  /** Write the whole image, the checksum last. */
  method WriteImage(nodes: map<nat, Node>, names: seq<Name>, root: nat, ids: seq<nat>, size: nat)
    returns (output: array<Byte>)
    requires Storable(Tree(nodes, names, root), ids) && size < 0x1_0000_0000
    requires size == HEADER + NodesSize(nodes, ids, |ids|) + NamesSize(names, |names|)
    ensures fresh(output) && output.Length == size && ImageLaid(output[..], 0, size, Tree(nodes, names, root), ids)
  {
    output := new Byte[size](_ => 0);
    var words := [IMAGE_MAGIC, IMAGE_VERSION, |ids|, |names|, root, size];
    PutWords(output, 0, words);
    WriteRecords(output, HEADER, nodes, names, ids, words);
    ghost var was := output[..];
    Seal(output, |ids|, |names|, root, words);
    RecordsStill(was, output[..], nodes, names, ids, HEADER, size);
  }

  /** Writing the names leaves the header and the nodes. */
  lemma NamesAfterNodes(first: seq<Byte>, second: seq<Byte>, third: seq<Byte>, nodes: map<nat, Node>, ids: seq<nat>,
                        words: seq<nat>,
                        low: nat, start: nat, end: nat)
    requires forall i :: 0 <= i < |ids| ==> ids[i] in nodes
    requires WordsAre(first, 0, words) && 4 * |words| <= low && start == low + NodesSize(nodes, ids, |ids|)
    requires Outside(first, second, low, start) && NodesLaid(second, low, nodes, ids, |ids|) &&
             Outside(second, third, start, end)
    ensures WordsAre(third, 0, words) && NodesLaid(third, low, nodes, ids, |ids|)
  {
    WordsStill(first, second, 0, words, low, start);
    WordsStill(second, third, 0, words, start, end);
    NodesStill(second, third, low, nodes, ids, |ids|);
  }

  /** Writing the checksum completes the header and leaves the records. */
  lemma RecordsStill(b: seq<Byte>, c: seq<Byte>, nodes: map<nat, Node>, names: seq<Name>, ids: seq<nat>, first: nat,
                     end: nat)
    requires first >= 28 && Outside(b, c, 24, 28) && RecordsLaid(b, first, end, nodes, names, ids)
    ensures RecordsLaid(c, first, end, nodes, names, ids)
  {
    NodesStill(b, c, first, nodes, ids, |ids|);
    NamesStill(b, c, first + NodesSize(nodes, ids, |ids|), names, |names|);
  }

  lemma SealedHeader(b: seq<Byte>, c: seq<Byte>, inodes: nat, dentries: nat, root: nat, words: seq<nat>)
    requires words == [IMAGE_MAGIC, IMAGE_VERSION, inodes, dentries, root, |b|] && WordsAre(b, 0, words) &&
             |b| >= HEADER
    requires Outside(b, c, 24, 28) && Word(c, 24) == Fnv(b, HEADER, |b| - HEADER)
    ensures HeaderLaid(c, 0, |c|, inodes, dentries, root)
  {
    WordsStill(b, c, 0, words, 24, 28);
    FnvStill(b, c, HEADER, |b| - HEADER);
    HeaderWords(c, IMAGE_MAGIC, IMAGE_VERSION, inodes, dentries, root, |b|);
  }

  lemma HeaderWords(b: seq<Byte>, u: nat, v: nat, w: nat, x: nat, y: nat, z: nat)
    requires WordsAre(b, 0, [u, v, w, x, y, z])
    ensures |b| >= 24 && Word(b, 0) == u && Word(b, 4) == v && Word(b, 8) == w && Word(b, 12) == x &&
            Word(b, 16) == y && Word(b, 20) == z
  {
    var words := [u, v, w, x, y, z];
    assert words[0] == u && words[1] == v && words[2] == w && words[3] == x && words[4] == y && words[5] == z;
  }
}
