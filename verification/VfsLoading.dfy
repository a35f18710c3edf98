/** Loading a root image into the kernel's inode, dentry and data tables. */
module VfsLoading {
  import opened Frames
  import opened Words
  import opened GuestMemory
  import Ownership
  import opened Startups
  import opened VfsImages

  /** An inode record; `data` is an offset in the data arena.  Kind 0 marks an
      empty record. */
  datatype Inode = Inode(kind: nat, mode: nat, uid: nat, gid: nat, links: nat, size: nat, data: nat, capacity: nat,
                         at: nat, mt: nat, ct: nat)

  datatype Dentry = Dentry(parent: nat, inode: nat, name: nat, nameLength: nat, nameHash: U32)

  const NO_INODE := Inode(0, 0, 0, 0, 0, 0, 0, 0, 0, 0, 0)
  const NO_DENTRY := Dentry(0, 0, 0, 0, 0)

  /** The bytes `text` lie in the data arena at `at`, below `next`. */
  ghost predicate Kept(data: seq<Byte>, next: nat, at: nat, text: seq<Byte>) {
    && (text == [] || at + |text| <= next) && next <= |data|
    && forall k :: 0 <= k < |text| ==> data[at + k] == text[k]
  }

  ghost predicate NodeShown(r: Inode, n: Node) {
    && r.kind == n.kind && r.mode == n.mode && r.uid == n.uid && r.gid == n.gid && r.links == n.links
    && r.size == r.capacity == |n.data| && r.at == n.at && r.mt == n.mt && r.ct == n.ct
  }

  /** The inode table holds exactly these nodes. */
  ghost predicate NodesShown(inodes: seq<Inode>, data: seq<Byte>, next: nat, nodes: map<nat, Node>) {
    && |inodes| == INODE_CAPACITY && next <= |data|
    && (forall id :: id in nodes ==> 0 < id < INODE_CAPACITY && nodes[id].kind > 0)
    && forall id :: 0 <= id < INODE_CAPACITY ==>
         if id in nodes then NodeShown(inodes[id], nodes[id]) && Kept(data, next, inodes[id].data, nodes[id].data)
         else inodes[id].kind == 0
  }

  /** The dentry table begins with these names. */
  ghost predicate NamesShown(dentries: seq<Dentry>, data: seq<Byte>, next: nat, names: seq<Name>) {
    && |names| <= |dentries| == DENTRY_CAPACITY && next <= |data|
    && forall i :: 0 <= i < |names| ==>
         && dentries[i].parent == names[i].parent && dentries[i].inode == names[i].child
         && dentries[i].nameLength == |names[i].text| && dentries[i].nameHash == Fnv(names[i].text, 0, |names[i].text|)
         && Kept(data, next, dentries[i].name, names[i].text)
  }

  const FOLDS := 3

  /** Both tables, kept folded so that the loader's loops reason from contracts
      alone; `Unfold` and `Fold` go back and forth. */
  ghost predicate Shown(inodes: seq<Inode>, dentries: seq<Dentry>, data: seq<Byte>, next: nat,
                        nodes: map<nat, Node>, names: seq<Name>, folds: nat) {
    if folds == 0 then NodesShown(inodes, data, next, nodes) && NamesShown(dentries, data, next, names)
    else Shown(inodes, dentries, data, next, nodes, names, folds - 1)
  }

  lemma Unfold(inodes: seq<Inode>, dentries: seq<Dentry>, data: seq<Byte>, next: nat,
               nodes: map<nat, Node>, names: seq<Name>, folds: nat)
    requires Shown(inodes, dentries, data, next, nodes, names, folds)
    ensures NodesShown(inodes, data, next, nodes) && NamesShown(dentries, data, next, names)
  {
  }

  lemma Fold(inodes: seq<Inode>, dentries: seq<Dentry>, data: seq<Byte>, next: nat,
             nodes: map<nat, Node>, names: seq<Name>, folds: nat)
    requires NodesShown(inodes, data, next, nodes) && NamesShown(dentries, data, next, names)
    ensures Shown(inodes, dentries, data, next, nodes, names, folds)
  {
  }

  ghost predicate SameBelow(data: seq<Byte>, data': seq<Byte>, next: nat) {
    next <= |data| == |data'| && forall k {:trigger data'[k]} :: 0 <= k < next ==> data'[k] == data[k]
  }

  /** New data above what is in use disturbs nothing. */
  lemma StillShown(inodes: seq<Inode>, dentries: seq<Dentry>, data: seq<Byte>, data': seq<Byte>, next: nat, next': nat,
                   nodes: map<nat, Node>, names: seq<Name>)
    requires NodesShown(inodes, data, next, nodes) && NamesShown(dentries, data, next, names)
    requires SameBelow(data, data', next) && next <= next' <= |data|
    ensures NodesShown(inodes, data', next', nodes) && NamesShown(dentries, data', next', names)
  {
    forall id | 0 <= id < INODE_CAPACITY && id in nodes ensures Kept(data', next', inodes[id].data, nodes[id].data) {
      StillKept(data, data', next, next', inodes[id].data, nodes[id].data);
    }
    forall i | 0 <= i < |names| ensures Kept(data', next', dentries[i].name, names[i].text) {
      StillKept(data, data', next, next', dentries[i].name, names[i].text);
    }
  }

  lemma StillKept(data: seq<Byte>, data': seq<Byte>, next: nat, next': nat, at: nat, text: seq<Byte>)
    requires Kept(data, next, at, text) && SameBelow(data, data', next) && next <= next' <= |data|
    ensures Kept(data', next', at, text)
  {
    forall k | 0 <= k < |text| ensures data'[at + k] == text[k] {
      assert data[at + k] == text[k];
    }
  }

  lemma NodeAdded(inodes: seq<Inode>, data: seq<Byte>, next: nat, nodes: map<nat, Node>, id: nat, r: Inode, n: Node)
    requires NodesShown(inodes, data, next, nodes) && 0 < id < INODE_CAPACITY && n.kind > 0
    requires NodeShown(r, n) && Kept(data, next, r.data, n.data)
    ensures NodesShown(inodes[id := r], data, next, nodes[id := n])
  {
  }

  lemma NameAdded(dentries: seq<Dentry>, data: seq<Byte>, next: nat, names: seq<Name>, d: Dentry, n: Name)
    requires NamesShown(dentries, data, next, names) && |names| < DENTRY_CAPACITY
    requires d.parent == n.parent && d.inode == n.child && d.nameLength == |n.text| &&
             d.nameHash == Fnv(n.text, 0, |n.text|)
    requires Kept(data, next, d.name, n.text)
    ensures NamesShown(dentries[|names| := d], data, next, names + [n])
  {
  }

  function LoadU64(arena: Arena, at: nat): nat
    requires at + 8 <= arena.bytes.Length
    reads arena, arena.bytes
  {
    LoadU32(arena, at) + 0x1_0000_0000 * LoadU32(arena, at + 4)
  }

  lemma Loads(arena: Arena, at: nat)
    requires arena.Valid() && at + 4 <= |arena.contents.bytes|
    ensures LoadU32(arena, at) == Word(arena.contents.bytes, at)
  {
  }

  lemma LoadsWide(arena: Arena, at: nat)
    requires arena.Valid() && at + 8 <= |arena.contents.bytes|
    ensures LoadU64(arena, at) == Word64(arena.contents.bytes, at)
  {
  }

  lemma {:induction false} NodesStayStopped(b: seq<Byte>, end: nat, capacity: nat, p: Progress, m: nat, n: nat)
    requires m <= n && NodesAfter(b, end, capacity, p, m).Stopped?
    ensures NodesAfter(b, end, capacity, p, n) == NodesAfter(b, end, capacity, p, m)
  {
    if m < n {
      NodesStayStopped(b, end, capacity, p, m, n - 1);
      StepsAre(b, end, capacity, NodesAfter(b, end, capacity, p, n - 1), STEP_FOLDS);
    }
  }

  lemma {:induction false} NamesStayStopped(b: seq<Byte>, end: nat, capacity: nat, p: Progress, m: nat, n: nat)
    requires m <= n && NamesAfter(b, end, capacity, p, m).Stopped?
    ensures NamesAfter(b, end, capacity, p, n) == NamesAfter(b, end, capacity, p, m)
  {
    if m < n {
      NamesStayStopped(b, end, capacity, p, m, n - 1);
      StepsAre(b, end, capacity, NamesAfter(b, end, capacity, p, n - 1), STEP_FOLDS);
    }
  }

  class Vfs {
    const inodes: array<Inode>
    const dentries: array<Dentry>
    const data: array<Byte>
    var next: nat
    var loaded: bool
    var inodeCount: nat
    var dentryCount: nat
    var root: nat
    var generation: nat
    ghost var nodes: map<nat, Node>
    ghost var names: seq<Name>

    ghost predicate Valid()
      reads this, inodes, dentries, data
    {
      && inodes.Length == INODE_CAPACITY && dentries.Length == DENTRY_CAPACITY && next <= data.Length
      && Shown(inodes[..], dentries[..], data[..], next, nodes, names, FOLDS)
      && (loaded ==> dentryCount == |names| && ProperTree(nodes, names) && IsDirectory(nodes, root))
    }

    /** The tree a loaded image gave. */
    ghost function Contents(): Tree
      reads this
    {
      Tree(nodes, names, root)
    }

    constructor (capacity: nat)
      ensures Valid() && !loaded && data.Length == capacity && fresh(inodes) && fresh(dentries) && fresh(data)
    {
      inodes := new Inode[INODE_CAPACITY](_ => NO_INODE);
      dentries := new Dentry[DENTRY_CAPACITY](_ => NO_DENTRY);
      data := new Byte[capacity](_ => 0);
      next, loaded, inodeCount, dentryCount, root, generation := 0, false, 0, 0, 0, 0;
      nodes, names := map[], [];
      new;
      Fold(inodes[..], dentries[..], data[..], next, nodes, names, FOLDS);
    }

    method Reset()
      requires Valid()
      modifies this`next, this`loaded, this`nodes, this`names, inodes, dentries, data
      ensures Valid() && !loaded && nodes == map[] && names == [] && next == 0
    {
      forall i | 0 <= i < inodes.Length { inodes[i] := NO_INODE; }
      forall i | 0 <= i < dentries.Length { dentries[i] := NO_DENTRY; }
      forall k | 0 <= k < next { data[k] := 0; }
      next, loaded := 0, false;
      nodes, names := map[], [];
      Fold(inodes[..], dentries[..], data[..], next, nodes, names, FOLDS);
    }

    method AllocateData(size: nat) returns (at: nat, ok: bool)
      requires Valid()
      modifies `next
      ensures Valid()
      ensures ok <==> old(next) + Align4(size) <= data.Length
      ensures next == if ok then old(next) + Align4(size) else old(next)
      ensures ok && size > 0 ==> at == old(next)
    {
      if size == 0 { return 0, true; }
      Unfold(inodes[..], dentries[..], data[..], next, nodes, names, FOLDS);
      var aligned := Align4(size);
      if next > data.Length || aligned > data.Length - next { return 0, false; }
      at, ok := next, true;
      next := next + aligned;
      StillShown(inodes[..], dentries[..], data[..], data[..], at, next, nodes, names);
      Fold(inodes[..], dentries[..], data[..], next, nodes, names, FOLDS);
    }

    /** Copy bytes of the image into the newest part of the data arena. */
    method CopyData(arena: Arena, at: nat, from: nat, size: nat, ghost below: nat)
      requires Valid() && arena.Valid() && arena.bytes != data && from + size <= |arena.contents.bytes|
      requires below <= at && at + size <= next
      requires Shown(inodes[..], dentries[..], data[..], below, nodes, names, FOLDS)
      modifies data
      ensures Valid() && Kept(data[..], next, at, Span(arena.contents.bytes, from, size))
    {
      ghost var was := data[..];
      Unfold(inodes[..], dentries[..], was, below, nodes, names, FOLDS);
      forall k | 0 <= k < size { data[at + k] := arena.bytes[from + k]; }
      StillShown(inodes[..], dentries[..], was, data[..], below, next, nodes, names);
      Fold(inodes[..], dentries[..], data[..], next, nodes, names, FOLDS);
    }

    static method HashBytes(bytes: array<Byte>, at: nat, n: nat) returns (hash: U32)
      requires at + n <= bytes.Length
      ensures hash == Fnv(bytes[..], at, n)
    {
      hash := 0x811c9dc5;
      var index := 0;
      while index < n
        invariant 0 <= index <= n && hash == Fnv(bytes[..], at, index)
      {
        hash := Xor(hash, bytes[at + index]) * 0x01000193 % 0x1_0000_0000;
        index := index + 1;
      }
    }

    static method IsName(bytes: array<Byte>, at: nat, size: nat) returns (ok: bool)
      requires at + size <= bytes.Length
      ensures ok <==> ValidName(Span(bytes[..], at, size))
    {
      ghost var text := Span(bytes[..], at, size);
      if size == 0 || size > 255 { return false; }
      var index := 0;
      while index < size
        invariant 0 <= index <= size && forall k :: 0 <= k < index ==> text[k] != 0 && text[k] != SLASH
      {
        assert text[index] == bytes[at + index];
        if bytes[at + index] == 0 || bytes[at + index] == SLASH { return false; }
        index := index + 1;
      }
      ok := !(size == 1 && bytes[at] == DOT) && !(size == 2 && bytes[at] == DOT && bytes[at + 1] == DOT);
      assert text[0] == bytes[at] && (size > 1 ==> text[1] == bytes[at + 1]);
      assert text == [DOT] <==> size == 1 && bytes[at] == DOT;
      assert text == [DOT, DOT] <==> size == 2 && bytes[at] == DOT && bytes[at + 1] == DOT;
    }

    /** Is the text at `at` the name in a dentry?  Hashes are compared first. */
    method SameName(index: nat, bytes: array<Byte>, at: nat, size: nat, hash: U32) returns (same: bool)
      requires Valid() && index < |names| && at + size <= bytes.Length && hash == Fnv(bytes[..], at, size)
      ensures same <==> names[index].text == Span(bytes[..], at, size)
    {
      ghost var text, name := Span(bytes[..], at, size), names[index].text;
      Unfold(inodes[..], dentries[..], data[..], next, nodes, names, FOLDS);
      var dentry := dentries[index];
      if dentry.nameLength != size { return false; }
      if dentry.nameHash != hash {
        if name == text { SameFnv(name, bytes[..], 0, at, size); }
        return false;
      }
      var i := 0;
      while i < size
        invariant 0 <= i <= size && forall k :: 0 <= k < i ==> name[k] == text[k]
      {
        assert data[..][dentry.name + i] == name[i] && text[i] == bytes[at + i];
        if data[dentry.name + i] != bytes[at + i] { return false; }
        i := i + 1;
      }
      return true;
    }

    /** Where loading stands. */
    ghost function Position(cursor: nat): Progress
      reads this
    {
      Going(nodes, names, cursor, next)
    }

    /** Loading has come as far as `q` says, or failed as it says. */
    ghost predicate Reached(q: Progress, code: nat, cursor: nat)
      reads this
    {
      if q.Stopped? then code == q.code != OK else code == OK && Position(cursor) == q
    }

    /** Read the fields of the node record at `cursor` that decide whether it fits. */
    method CheckNode(arena: Arena, cursor: nat, end: nat) returns (inode: nat, kind: nat, size: nat, ok: bool)
      requires arena.Valid() && cursor <= end <= |arena.contents.bytes|
      ensures ok <==> NodeFits(arena.contents.bytes, cursor, end)
      ensures ok ==> var b := arena.contents.bytes;
                     inode == Word(b, cursor) && kind == Word(b, cursor + 4) && size == Word(b, cursor + 24)
    {
      if NODE_RECORD > end - cursor { return 0, 0, 0, false; }
      Loads(arena, cursor);
      Loads(arena, cursor + 4);
      Loads(arena, cursor + 20);
      Loads(arena, cursor + 24);
      inode, kind, size := LoadU32(arena, cursor), LoadU32(arena, cursor + 4), LoadU32(arena, cursor + 24);
      ok := !(inode == 0 || inode >= INODE_CAPACITY || (kind != FILE && kind != DIRECTORY && kind != LINK) ||
              LoadU32(arena, cursor + 20) == 0 || size > DATA_CAPACITY || (kind == DIRECTORY && size != 0) ||
              size > end - (cursor + NODE_RECORD));
    }

    /** Read the node record at `cursor`. */
    method LoadNode(arena: Arena, cursor: nat, end: nat, ghost q: Progress) returns (code: nat, cursor': nat)
      requires Valid() && !loaded && arena.Valid() && arena.bytes != data && cursor <= end <= |arena.contents.bytes|
      requires q == NodeStep(arena.contents.bytes, end, data.Length, Position(cursor), STEP_FOLDS)
      modifies this`next, this`nodes, inodes, data
      ensures Valid() && cursor' <= end
      ensures Reached(q, code, cursor')
    {
      StepsAre(arena.contents.bytes, end, data.Length, Position(cursor), STEP_FOLDS);
      var inode, kind, size, fits := CheckNode(arena, cursor, end);
      Unfold(inodes[..], dentries[..], data[..], next, nodes, names, FOLDS);
      if !fits { return FORMAT, cursor; }
      if inodes[inode].kind != 0 { return DUPLICATE, cursor; }
      var ok := TakeNode(arena, cursor, inode, kind, size);
      if !ok { return CAPACITY, cursor; }
      var aligned := Align4(NODE_RECORD + size);
      if aligned > end - cursor { return FORMAT, cursor; }
      code, cursor' := OK, cursor + aligned;
    }

    /** Make room for the data of the node, copy it and fill the inode record. */
    method TakeNode(arena: Arena, cursor: nat, inode: nat, kind: nat, size: nat) returns (ok: bool)
      requires Valid() && !loaded && arena.Valid() && arena.bytes != data &&
               cursor + NODE_RECORD + size <= |arena.contents.bytes|
      requires inode == Word(arena.contents.bytes, cursor) && kind == Word(arena.contents.bytes, cursor + 4) > 0
      requires size == Word(arena.contents.bytes, cursor + 24) && 0 < inode < INODE_CAPACITY
      modifies this`next, this`nodes, inodes, data
      ensures Valid() && (ok <==> old(next) + Align4(size) <= data.Length)
      ensures ok ==> next == old(next) + Align4(size) &&
                     nodes == old(nodes)[inode := NodeOf(arena.contents.bytes, cursor)]
    {
      ghost var below := next;
      var at;
      at, ok := AllocateData(size);
      if !ok { return; }
      if size != 0 { CopyData(arena, at, cursor + NODE_RECORD, size, below); }
      StoreNode(arena, cursor, inode, kind, size, at);
    }

    method StoreNode(arena: Arena, cursor: nat, inode: nat, kind: nat, size: nat, at: nat)
      requires Valid() && !loaded && arena.Valid() && cursor + NODE_RECORD + size <= |arena.contents.bytes|
      requires inode == Word(arena.contents.bytes, cursor) && kind == Word(arena.contents.bytes, cursor + 4) > 0
      requires size == Word(arena.contents.bytes, cursor + 24) && 0 < inode < INODE_CAPACITY
      requires Kept(data[..], next, at, Span(arena.contents.bytes, cursor + NODE_RECORD, size))
      modifies this`nodes, inodes
      ensures Valid() && nodes == old(nodes)[inode := NodeOf(arena.contents.bytes, cursor)]
    {
      ghost var n := NodeOf(arena.contents.bytes, cursor);
      Loads(arena, cursor + 8);
      Loads(arena, cursor + 12);
      Loads(arena, cursor + 16);
      Loads(arena, cursor + 20);
      LoadsWide(arena, cursor + 32);
      LoadsWide(arena, cursor + 40);
      LoadsWide(arena, cursor + 48);
      var r := Inode(kind, LoadU32(arena, cursor + 8) % 0x1000, LoadU32(arena, cursor + 12),
                     LoadU32(arena, cursor + 16),
                     LoadU32(arena, cursor + 20), size, at, size,
                     LoadU64(arena, cursor + 32), LoadU64(arena, cursor + 40), LoadU64(arena, cursor + 48));
      Unfold(inodes[..], dentries[..], data[..], next, nodes, names, FOLDS);
      NodeAdded(inodes[..], data[..], next, nodes, inode, r, n);
      inodes[inode] := r;
      nodes := nodes[inode := n];
      Fold(inodes[..], dentries[..], data[..], next, nodes, names, FOLDS);
    }

    /** Is there already such a name among the first `count` dentries? */
    method IsTaken(count: nat, parent: nat, bytes: array<Byte>, at: nat, size: nat, hash: U32) returns (found: bool)
      requires Valid() && count == |names| && at + size <= bytes.Length && hash == Fnv(bytes[..], at, size)
      ensures found <==> Taken(names, parent, Span(bytes[..], at, size))
    {
      Unfold(inodes[..], dentries[..], data[..], next, nodes, names, FOLDS);
      var scan := 0;
      while scan < count
        invariant 0 <= scan <= count
        invariant forall i :: 0 <= i < scan ==> names[i].parent != parent || names[i].text != Span(bytes[..], at, size)
      {
        if dentries[scan].parent == parent {
          var same := SameName(scan, bytes, at, size, hash);
          if same { return true; }
        }
        scan := scan + 1;
      }
      return false;
    }

    method CheckName(arena: Arena, cursor: nat, end: nat) returns (parent: nat, inode: nat, size: nat, ok: bool)
      requires Valid() && arena.Valid() && cursor <= end <= |arena.contents.bytes|
      ensures ok <==> NameFits(arena.contents.bytes, cursor, end, nodes)
      ensures ok ==> var b := arena.contents.bytes;
                     parent == Word(b, cursor) && inode == Word(b, cursor + 4) && size == Word(b, cursor + 8)
    {
      if NAME_RECORD > end - cursor { return 0, 0, 0, false; }
      Unfold(inodes[..], dentries[..], data[..], next, nodes, names, FOLDS);
      Loads(arena, cursor);
      Loads(arena, cursor + 4);
      Loads(arena, cursor + 8);
      parent, inode, size := LoadU32(arena, cursor), LoadU32(arena, cursor + 4), LoadU32(arena, cursor + 8);
      if parent == 0 || inode == 0 || parent >= INODE_CAPACITY || inode >= INODE_CAPACITY ||
         inodes[parent].kind != DIRECTORY || inodes[inode].kind == 0 || size > end - (cursor + NAME_RECORD) {
        ok := false;
      } else {
        ok := IsName(arena.bytes, cursor + NAME_RECORD, size);
      }
    }

    method TakeName(arena: Arena, cursor: nat, count: nat, parent: nat, inode: nat, size: nat, hash: U32)
      returns (ok: bool)
      requires Valid() && !loaded && arena.Valid() && arena.bytes != data &&
               cursor + NAME_RECORD + size <= |arena.contents.bytes|
      requires parent == Word(arena.contents.bytes, cursor) && inode == Word(arena.contents.bytes, cursor + 4)
      requires size == Word(arena.contents.bytes, cursor + 8) > 0 && count == |names| < DENTRY_CAPACITY
      requires hash == Fnv(arena.bytes[..], cursor + NAME_RECORD, size)
      modifies this`next, this`names, dentries, data
      ensures Valid() && (ok <==> old(next) + Align4(size) <= data.Length)
      ensures ok ==> next == old(next) + Align4(size) && names == old(names) + [NameOf(arena.contents.bytes, cursor)]
    {
      ghost var below, name := next, NameOf(arena.contents.bytes, cursor);
      var at;
      at, ok := AllocateData(size);
      if !ok { return; }
      CopyData(arena, at, cursor + NAME_RECORD, size, below);
      SameFnv(name.text, arena.bytes[..], 0, cursor + NAME_RECORD, size);
      Unfold(inodes[..], dentries[..], data[..], next, nodes, names, FOLDS);
      NameAdded(dentries[..], data[..], next, names, Dentry(parent, inode, at, size, hash), name);
      dentries[count] := Dentry(parent, inode, at, size, hash);
      names := names + [name];
      Fold(inodes[..], dentries[..], data[..], next, nodes, names, FOLDS);
    }

    /** Read the name record at `cursor`. */
    method LoadName(arena: Arena, cursor: nat, end: nat, count: nat, ghost q: Progress)
      returns (code: nat, cursor': nat)
      requires Valid() && !loaded && arena.Valid() && arena.bytes != data && cursor <= end <= |arena.contents.bytes|
      requires q == NameStep(arena.contents.bytes, end, data.Length, Position(cursor), STEP_FOLDS) &&
               count == |names| < DENTRY_CAPACITY
      modifies this`next, this`names, dentries, data
      ensures Valid() && cursor' <= end
      ensures Reached(q, code, cursor') && (code == OK ==> |names| == count + 1)
    {
      StepsAre(arena.contents.bytes, end, data.Length, Position(cursor), STEP_FOLDS);
      var parent, inode, size, fits := CheckName(arena, cursor, end);
      if !fits { return FORMAT, cursor; }
      var hash := HashBytes(arena.bytes, cursor + NAME_RECORD, size);
      var taken := IsTaken(count, parent, arena.bytes, cursor + NAME_RECORD, size, hash);
      if taken { return DUPLICATE, cursor; }
      var ok := TakeName(arena, cursor, count, parent, inode, size, hash);
      if !ok { return CAPACITY, cursor; }
      var aligned := Align4(NAME_RECORD + size);
      if aligned > end - cursor { return FORMAT, cursor; }
      code, cursor' := OK, cursor + aligned;
    }

    method LoadNodes(arena: Arena, cursor0: nat, end: nat, count: nat, ghost p: Progress)
      returns (code: nat, cursor: nat)
      requires Valid() && !loaded && p == Position(cursor0)
      requires arena.Valid() && arena.bytes != data && cursor0 <= end <= |arena.contents.bytes|
      modifies this`next, this`nodes, inodes, data
      ensures Valid() && cursor <= end
      ensures Reached(NodesAfter(arena.contents.bytes, end, data.Length, p, count), code, cursor)
    {
      cursor, code := cursor0, OK;
      ghost var b := arena.contents.bytes;
      var parsed := 0;
      while parsed < count && code == OK
        invariant 0 <= parsed <= count && Valid() && cursor <= end
        invariant Reached(NodesAfter(b, end, data.Length, p, parsed), code, cursor)
      {
        code, cursor := LoadNode(arena, cursor, end, NodesAfter(b, end, data.Length, p, parsed + 1));
        parsed := parsed + 1;
      }
      if code != OK { NodesStayStopped(b, end, data.Length, p, parsed, count); }
    }

    method LoadNames(arena: Arena, cursor0: nat, end: nat, count: nat, ghost p: Progress)
      returns (code: nat, cursor: nat)
      requires Valid() && !loaded && names == [] && count <= DENTRY_CAPACITY && p == Position(cursor0)
      requires arena.Valid() && arena.bytes != data && cursor0 <= end <= |arena.contents.bytes|
      modifies this`next, this`names, dentries, data
      ensures Valid() && cursor <= end
      ensures Reached(NamesAfter(arena.contents.bytes, end, data.Length, p, count), code, cursor)
      ensures code == OK ==> |names| == count
    {
      cursor, code := cursor0, OK;
      ghost var b := arena.contents.bytes;
      var parsed := 0;
      while parsed < count && code == OK
        invariant 0 <= parsed <= count && Valid() && cursor <= end && (code == OK ==> |names| == parsed)
        invariant Reached(NamesAfter(b, end, data.Length, p, parsed), code, cursor)
      {
        code, cursor := LoadName(arena, cursor, end, parsed, NamesAfter(b, end, data.Length, p, parsed + 1));
        parsed := parsed + 1;
      }
      if code != OK { NamesStayStopped(b, end, data.Length, p, parsed, count); }
    }

    /** Does the header fit, and are its counts in range? */
    method CheckHeader(arena: Arena, image: nat, length: nat)
      returns (code: nat, inodeTotal: nat, dentryTotal: nat, top: nat)
      requires arena.Valid()
      ensures code == OK <==> Admitted(arena, image, length)
      ensures code != OK ==> code == if arena.ImageContains(image, length)
                then Decode(arena.contents.bytes, image, length, data.Length).code else RANGE
      ensures code == OK ==> image + HEADER <= image + length <= |arena.contents.bytes|
      ensures code == OK ==> var b := arena.contents.bytes;
                             inodeTotal == Word(b, image + 8) && dentryTotal == Word(b, image + 12) &&
                                 top == Word(b, image + 16)
    {
      inodeTotal, dentryTotal, top := 0, 0, 0;
      if !arena.ImageContains(image, length) || length < HEADER { return RANGE, 0, 0, 0; }
      ghost var b := arena.contents.bytes;
      assert arena.bytes[..] == b;
      var magic, version, size, sum := LoadU32(arena, image), LoadU32(arena, image + 4), LoadU32(arena, image + 20),
          LoadU32(arena, image + 24);
      if magic != IMAGE_MAGIC || version != IMAGE_VERSION || size != length { return RANGE, 0, 0, 0; }
      inodeTotal, dentryTotal, top := LoadU32(arena, image + 8), LoadU32(arena, image + 12), LoadU32(arena, image + 16);
      if inodeTotal == 0 || inodeTotal >= INODE_CAPACITY || dentryTotal > DENTRY_CAPACITY || top == 0 ||
         top >= INODE_CAPACITY {
        return CAPACITY, 0, 0, 0;
      }
      var hash := HashBytes(arena.bytes, image + HEADER, length - HEADER);
      if hash != sum { return CHECKSUM, 0, 0, 0; }
      code := OK;
    }

    /** The image lies in the reserved part of the arena and its header passes. */
    ghost predicate Admitted(arena: Arena, image: nat, length: nat)
      reads arena, arena.bytes
    {
      arena.ImageContains(image, length) && HeaderAdmits(arena.contents.bytes, image, length)
    }

    /** Fill the tables from the records after the header. */
    method Fill(arena: Arena, image: nat, end: nat, inodeTotal: nat, dentryTotal: nat, top: nat, ghost p: Progress,
                ghost q: Progress)
      returns (code: nat)
      requires Valid() && !loaded && Position(image + HEADER) == Begun(image)
      requires arena.Valid() && arena.bytes != data && image + HEADER <= end <= |arena.contents.bytes|
      requires CountsFit(inodeTotal, dentryTotal, top)
      requires p == NodesAfter(arena.contents.bytes, end, data.Length, Begun(image), inodeTotal)
      requires q == NamesAfter(arena.contents.bytes, end, data.Length, Rooted(p, top), dentryTotal)
      modifies this`next, this`nodes, this`names, inodes, dentries, data
      ensures Valid()
      ensures match Closed(q, top, end)
              case Failed(c) => code == c != OK
              case Done(tree) => code == OK && nodes == tree.nodes && names == tree.names && |names| == dentryTotal
    {
      ghost var b := arena.contents.bytes;
      var cursor;
      code, cursor := LoadNodes(arena, image + HEADER, end, inodeTotal, Begun(image));
      if Rooted(p, top).Stopped? { NamesStayStopped(b, end, data.Length, Rooted(p, top), 0, dentryTotal); }
      if code != OK { return; }
      Unfold(inodes[..], dentries[..], data[..], next, nodes, names, FOLDS);
      if inodes[top].kind != DIRECTORY { return FORMAT; }
      code, cursor := LoadNames(arena, cursor, end, dentryTotal, p);
      if code == OK && cursor != end { code := FORMAT; }
    }

    /** Load an image: the tables then hold the tree it decodes to, or the code
        says what is wrong with it and no half-loaded tree can be seen. */
    method Load(arena: Arena, image: nat, length: nat, ghost d: Decoded) returns (code: nat)
      requires Valid() && arena.Valid() && arena.bytes != data
      requires d == if arena.ImageContains(image, length) then Decode(arena.contents.bytes, image, length, data.Length)
               else Failed(RANGE)
      modifies this, inodes, dentries, data
      ensures Valid()
      ensures match d
              case Failed(c) => code == c != OK
              case Done(tree) => code == OK && loaded && Contents() == tree
      ensures code != OK ==> !loaded || (old(loaded) && Contents() == old(Contents()))
      ensures generation == old(generation) + if code == OK then 1 else 0
    {
      var inodeTotal, dentryTotal, top;
      code, inodeTotal, dentryTotal, top := CheckHeader(arena, image, length);
      if code != OK { return; }
      ghost var b, end := arena.contents.bytes, image + length;
      ghost var p := NodesAfter(b, end, data.Length, Begun(image), inodeTotal);
      ghost var q := NamesAfter(b, end, data.Length, Rooted(p, top), dentryTotal);
      DecodeIs(b, image, length, data.Length, d, Closed(q, top, end));
      Reset();
      code := Fill(arena, image, image + length, inodeTotal, dentryTotal, top, p, q);
      if code == OK { Publish(inodeTotal, dentryTotal, top); }
    }

    method Publish(inodeTotal: nat, dentryTotal: nat, top: nat)
      requires Valid() && dentryTotal == |names| && ProperTree(nodes, names) && IsDirectory(nodes, top)
      modifies this`inodeCount, this`dentryCount, this`root, this`generation, this`loaded
      ensures Valid() && loaded && root == top && generation == old(generation) + 1
    {
      inodeCount, dentryCount, root := inodeTotal, dentryTotal, top;
      generation := generation + 1;
      loaded := true;
    }

    /** Data of this node from this offset on may be read into the reservation. */
    ghost predicate MayRead(arena: Arena, id: nat, offset: nat, output: nat, length: nat)
      reads this, arena
    {
      && loaded && id in nodes && (nodes[id].kind == FILE || nodes[id].kind == LINK)
      && arena.ImageContains(output, length) && offset <= |nodes[id].data|
    }

    /** Copy a file's or a link's data from `offset` on into the reservation. */
    method ReadData(arena: Arena, id: nat, offset: nat, output: nat, length: nat) returns (r: int)
      requires Valid() && arena.Valid() && arena.bytes != data
      modifies arena.bytes, arena`contents
      ensures arena.Valid() && Valid()
      ensures !MayRead(arena, id, offset, output, length) ==> r == -22 && arena.contents == old(arena.contents)
      ensures MayRead(arena, id, offset, output, length) ==>
        var rest := |nodes[id].data| - offset;
        && r == (if rest < length then rest else length)
        && arena.contents == Ownership.Loaded(old(arena.contents), output, Span(nodes[id].data, offset, r))
    {
      Unfold(inodes[..], dentries[..], data[..], next, nodes, names, FOLDS);
      if !loaded || id == 0 || id >= INODE_CAPACITY || (inodes[id].kind != FILE && inodes[id].kind != LINK) ||
         !arena.ImageContains(output, length) || offset > inodes[id].size {
        return -22;
      }
      var rest := inodes[id].size - offset;
      var amount := if rest < length then rest else length;
      if amount != 0 {
        SliceKept(data[..], next, inodes[id].data, nodes[id].data, offset, amount);
        arena.Receive(output, data, inodes[id].data + offset, amount);
      } else {
        NothingLoaded(arena.contents, output, Span(nodes[id].data, offset, 0));
      }
      r := amount;
    }
  }

  lemma SliceKept(data: seq<Byte>, next: nat, at: nat, text: seq<Byte>, offset: nat, n: nat)
    requires Kept(data, next, at, text) && offset + n <= |text| && n > 0
    ensures at + offset + n <= |data| && data[at + offset..at + offset + n] == Span(text, offset, n)
  {
    var d := data[at + offset..at + offset + n];
    forall k | 0 <= k < n ensures d[k] == Span(text, offset, n)[k] {
      assert data[at + (offset + k)] == text[offset + k];
    }
  }

  lemma NothingLoaded(c: Ownership.Contents, at: nat, none: seq<Byte>)
    requires none == []
    ensures Ownership.Loaded(c, at, none) == c
  {
    assert Written(c.bytes, at, none) == c.bytes;
  }

  /** An admitted image decodes to what its records give, and a tree is proper. */
  lemma DecodeIs(b: seq<Byte>, image: nat, length: nat, capacity: nat, d: Decoded, c: Decoded)
    requires HeaderAdmits(b, image, length) && d == Decode(b, image, length, capacity)
    requires var p := Rooted(NodesAfter(b, image + length, capacity, Begun(image), Word(b, image + 8)),
                             Word(b, image + 16));
             c == Closed(NamesAfter(b, image + length, capacity, p, Word(b, image + 12)), Word(b, image + 16), image +
                         length)
    ensures d == c && (d.Done? ==> ProperTree(d.tree.nodes, d.tree.names) && IsDirectory(d.tree.nodes, d.tree.root))
    ensures d.Done? ==> d.tree.root == Word(b, image + 16)
  {
    DecodedProper(b, image, length, capacity);
  }
}
