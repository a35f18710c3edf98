/** The host's side of a root image: from a list of path entries to a tree and
    its image. */
module VfsSerializing {
  import opened Frames
  import opened VfsImages
  import opened VfsPaths

  datatype Kind = File | Directory | Link | Other

  /** One path; entries with the same id are names of one file.  The data of a
      link is its target. */
  datatype Entry = Entry(path: seq<Byte>, id: int, kind: Kind, mode: int, uid: int, gid: int, at: int, mt: int, ct: int,
                         data: seq<Byte>)

  const ROOT: seq<Byte> := [SLASH]
  const MAX_SAFE := 0x1f_ffff_ffff_ffff

  predicate Checked(e: Entry) {
    && ValidPath(e.path) && 0 < e.id < INODE_CAPACITY && e.kind != Other
    && 0 <= e.mode < 0x1_0000_0000 && 0 <= e.uid < 0x1_0000_0000 && 0 <= e.gid < 0x1_0000_0000
    && 0 <= e.at <= MAX_SAFE && 0 <= e.mt <= MAX_SAFE && 0 <= e.ct <= MAX_SAFE
  }

  function KindCode(k: Kind): nat {
    match k case File => FILE case Directory => DIRECTORY case Link => LINK case Other => 0
  }

  function Payload(e: Entry): seq<Byte> {
    if e.kind == Directory then [] else e.data
  }

  function Nat(x: int): nat {
    if x < 0 then 0 else x
  }

  /** The node of an entry; fields of checked entries are never negative. */
  function NodeFor(e: Entry, links: nat): Node {
    Node(KindCode(e.kind), Nat(e.mode), Nat(e.uid), Nat(e.gid), links, Nat(e.at), Nat(e.mt), Nat(e.ct), Payload(e))
  }

  /** Two entries agree in everything but their paths. */
  predicate SameFile(e: Entry, f: Entry) {
    && e.kind == f.kind && e.mode == f.mode && e.uid == f.uid && e.gid == f.gid
    && e.at == f.at && e.mt == f.mt && e.ct == f.ct && Payload(e) == Payload(f)
  }

  /** Two entries may stand in one list. */
  ghost predicate Agrees(e: Entry, f: Entry) {
    e.path != f.path && (e.id == f.id ==> SameFile(e, f))
  }

  ghost predicate AllChecked(entries: seq<Entry>, n: nat)
    requires n <= |entries|
  {
    n == 0 || (AllChecked(entries, n - 1) && Checked(entries[n - 1]))
  }

  lemma {:induction false} CheckedAt(entries: seq<Entry>, n: nat, i: nat)
    requires i < n <= |entries| && AllChecked(entries, n)
    ensures Checked(entries[i])
  {
    if i < n - 1 { CheckedAt(entries, n - 1, i); }
  }

  lemma {:induction false} NotChecked(entries: seq<Entry>, n: nat, i: nat)
    requires i < n <= |entries| && !Checked(entries[i])
    ensures !AllChecked(entries, n)
  {
    if i < n - 1 { NotChecked(entries, n - 1, i); }
  }

  ghost predicate AgreesWithAll(entries: seq<Entry>, n: nat)
    requires n < |entries|
  {
    forall i :: 0 <= i < n ==> Agrees(entries[i], entries[n])
  }

  /** The first `n` entries agree pairwise. */
  ghost predicate AllAgree(entries: seq<Entry>, n: nat)
    requires n <= |entries|
  {
    n == 0 || (AllAgree(entries, n - 1) && AgreesWithAll(entries, n - 1))
  }

  lemma {:induction false} Pairwise(entries: seq<Entry>, n: nat, i: nat, j: nat)
    requires i < j < n <= |entries| && AllAgree(entries, n)
    ensures Agrees(entries[i], entries[j])
  {
    if j < n - 1 { Pairwise(entries, n - 1, i, j); }
  }

  /** How many of the first `n` entries name a file. */
  ghost function Count(entries: seq<Entry>, id: int, n: nat): nat
    requires n <= |entries|
  {
    if n == 0 then 0 else Count(entries, id, n - 1) + if entries[n - 1].id == id then 1 else 0
  }

  /** The nodes of the first `n` entries, with one link for each name. */
  ghost predicate Collected(entries: seq<Entry>, n: nat, nodes: map<nat, Node>)
    requires n <= |entries|
  {
    && (forall i :: 0 <= i < n ==>
        entries[i].id in nodes && nodes[entries[i].id] == NodeFor(entries[i], Count(entries, entries[i].id, n)))
    && (forall id :: id in nodes ==> exists i :: 0 <= i < n && entries[i].id == id)
  }

  /** `paths` finds the entry of every path. */
  ghost predicate Indexed(entries: seq<Entry>, n: nat, paths: map<seq<Byte>, nat>)
    requires n <= |entries|
  {
    && (forall i :: 0 <= i < n ==> entries[i].path in paths && paths[entries[i].path] == i)
    && (forall p :: p in paths ==> paths[p] < n && entries[paths[p]].path == p)
  }

  lemma {:induction false} CountNone(entries: seq<Entry>, id: int, n: nat)
    requires n <= |entries| && forall i :: 0 <= i < n ==> entries[i].id != id
    ensures Count(entries, id, n) == 0
  {
    if n > 0 { CountNone(entries, id, n - 1); }
  }

  lemma {:induction false} CountSome(entries: seq<Entry>, id: int, i: nat, n: nat)
    requires i < n <= |entries| && entries[i].id == id
    ensures Count(entries, id, n) >= 1
  {
    if i < n - 1 { CountSome(entries, id, i, n - 1); }
  }

  lemma {:induction false} CountTwo(entries: seq<Entry>, id: int, i: nat, j: nat, n: nat)
    requires i < j < n <= |entries| && entries[i].id == id && entries[j].id == id
    ensures Count(entries, id, n) >= 2
  {
    if j < n - 1 { CountTwo(entries, id, i, j, n - 1); } else { CountSome(entries, id, i, n - 1); }
  }

  lemma {:induction false} CountSmall(entries: seq<Entry>, id: int, n: nat)
    requires n <= |entries|
    ensures Count(entries, id, n) <= n
  {
    if n > 0 { CountSmall(entries, id, n - 1); }
  }

  /** The nodes with the entry `e` added. */
  function WithEntry(nodes: map<nat, Node>, e: Entry): map<nat, Node>
    requires e.id >= 0
  {
    nodes[e.id := NodeFor(e, if e.id in nodes then nodes[e.id].links + 1 else 1)]
  }

  /** A node made by earlier names is the node of each of them. */
  lemma Earlier(entries: seq<Entry>, n: nat, nodes: map<nat, Node>, id: nat) returns (i: nat)
    requires n <= |entries| && Collected(entries, n, nodes) && id in nodes
    ensures i < n && entries[i].id == id && nodes[id] == NodeFor(entries[i], Count(entries, id, n))
  {
    i :| 0 <= i < n && entries[i].id == id;
  }

  lemma SameNode(e: Entry, f: Entry, links: nat)
    requires Checked(e) && Checked(f)
    ensures NodeFor(e, links) == NodeFor(f, links) <==> SameFile(e, f)
  {
  }

  lemma OtherLinks(e: Entry, f: Entry, a: nat, b: nat)
    requires NodeFor(e, a) == NodeFor(f, a)
    ensures NodeFor(e, b) == NodeFor(f, b)
  {
  }

  lemma NodeGrows(entries: seq<Entry>, n: nat, nodes: map<nat, Node>, i: nat, e: Entry, f: Entry)
    requires i <= n < |entries| && e == entries[n] && f == entries[i] && e.id >= 0 && Collected(entries, n, nodes)
    requires e.id in nodes ==> nodes[e.id] == NodeFor(e, nodes[e.id].links)
    ensures f.id in WithEntry(nodes, e) && WithEntry(nodes, e)[f.id] == NodeFor(f, Count(entries, f.id, n + 1))
  {
    if i < n { assert nodes[f.id] == NodeFor(f, Count(entries, f.id, n)); }
    if f.id == e.id {
      if e.id in nodes {
        var j := Earlier(entries, n, nodes, e.id);
        var links := nodes[e.id].links;
        if i < n { OtherLinks(e, f, links, links + 1); }
      } else {
        CountNone(entries, e.id, n);
      }
    }
  }

  lemma CollectMore(entries: seq<Entry>, n: nat, nodes: map<nat, Node>, nodes': map<nat, Node>)
    requires n < |entries| && entries[n].id >= 0 && Collected(entries, n, nodes) &&
             nodes' == WithEntry(nodes, entries[n])
    requires entries[n].id in nodes ==> nodes[entries[n].id] == NodeFor(entries[n], nodes[entries[n].id].links)
    ensures Collected(entries, n + 1, nodes')
  {
    var e := entries[n];
    forall i | 0 <= i < n + 1
      ensures entries[i].id in nodes' &&
              nodes'[entries[i].id] == NodeFor(entries[i], Count(entries, entries[i].id, n + 1))
    {
      NodeGrows(entries, n, nodes, i, e, entries[i]);
    }
    forall id | id in nodes' ensures exists i :: 0 <= i < n + 1 && entries[i].id == id {
      if id in nodes { var i := Earlier(entries, n, nodes, id); } else { assert entries[n].id == id; }
    }
  }

  /** The entry brings a new path, and the node its id may already have. */
  predicate Joins(e: Entry, nodes: map<nat, Node>, paths: map<seq<Byte>, nat>) {
    e.path !in paths && (e.id in nodes ==> nodes[e.id] == NodeFor(e, nodes[e.id].links))
  }

  lemma JoinsAgrees(entries: seq<Entry>, n: nat, nodes: map<nat, Node>, paths: map<seq<Byte>, nat>, i: nat, e: Entry)
    requires n < |entries| && i < n && e == entries[n] && Checked(entries[i]) && Checked(e)
    requires Collected(entries, n, nodes) && Indexed(entries, n, paths) && Joins(e, nodes, paths)
    ensures Agrees(entries[i], e)
  {
    if entries[i].id == e.id {
      assert nodes[e.id] == NodeFor(entries[i], Count(entries, e.id, n));
      SameNode(entries[i], e, nodes[e.id].links);
    }
  }

  lemma AgreesJoins(entries: seq<Entry>, n: nat, nodes: map<nat, Node>, paths: map<seq<Byte>, nat>, e: Entry)
    requires n < |entries| && e == entries[n] && Checked(e) && AllChecked(entries, n)
    requires Collected(entries, n, nodes) && Indexed(entries, n, paths) && !Joins(e, nodes, paths)
    ensures exists i :: 0 <= i < n && !Agrees(entries[i], e)
  {
    if e.path in paths {
      assert !Agrees(entries[paths[e.path]], e);
    } else {
      var j := Earlier(entries, n, nodes, e.id);
      CheckedAt(entries, n, j);
      SameNode(entries[j], e, nodes[e.id].links);
      assert !Agrees(entries[j], e);
    }
  }

  lemma Agreement(entries: seq<Entry>, n: nat, nodes: map<nat, Node>, paths: map<seq<Byte>, nat>, e: Entry)
    requires n < |entries| && e == entries[n] && AllChecked(entries, n) && Checked(e)
    requires Collected(entries, n, nodes) && Indexed(entries, n, paths)
    ensures AgreesWithAll(entries, n) <==> Joins(e, nodes, paths)
  {
    if Joins(e, nodes, paths) {
      forall i | 0 <= i < n ensures Agrees(entries[i], e) {
        CheckedAt(entries, n, i);
        JoinsAgrees(entries, n, nodes, paths, i, e);
      }
    } else {
      AgreesJoins(entries, n, nodes, paths, e);
    }
  }

  lemma {:induction false} NotAll(entries: seq<Entry>, n: nat)
    requires n < |entries| && !AgreesWithAll(entries, n)
    ensures !AllAgree(entries, |entries|)
  {
    var i :| 0 <= i < n && !Agrees(entries[i], entries[n]);
    if AllAgree(entries, |entries|) { Pairwise(entries, |entries|, i, n); }
  }

  lemma IndexMore(entries: seq<Entry>, n: nat, paths: map<seq<Byte>, nat>, path: seq<Byte>, paths': map<seq<Byte>, nat>)
    requires n < |entries| && Indexed(entries, n, paths) && path == entries[n].path && path !in paths &&
             paths' == paths[path := n]
    ensures Indexed(entries, n + 1, paths')
  {
    forall i | 0 <= i < n + 1 ensures entries[i].path in paths' && paths'[entries[i].path] == i {
      if i < n { assert entries[i].path in paths; }
    }
  }

  const FOLDS := 3

  /** The first `n` entries are accepted and gathered; kept folded for the loop. */
  ghost predicate Gathered(entries: seq<Entry>, n: nat, nodes: map<nat, Node>, paths: map<seq<Byte>, nat>, folds: nat)
    requires n <= |entries|
  {
    if folds == 0 then
      AllChecked(entries, n) && AllAgree(entries, n) && Collected(entries, n, nodes) && Indexed(entries, n, paths)
    else Gathered(entries, n, nodes, paths, folds - 1)
  }

  lemma Unfold(entries: seq<Entry>, n: nat, nodes: map<nat, Node>, paths: map<seq<Byte>, nat>, folds: nat)
    requires n <= |entries| && Gathered(entries, n, nodes, paths, folds)
    ensures AllChecked(entries, n) && AllAgree(entries, n) && Collected(entries, n, nodes) && Indexed(entries, n, paths)
  {
  }

  lemma Fold(entries: seq<Entry>, n: nat, nodes: map<nat, Node>, paths: map<seq<Byte>, nat>, folds: nat)
    requires n <= |entries|
    requires AllChecked(entries, n) && AllAgree(entries, n) && Collected(entries, n, nodes) &&
             Indexed(entries, n, paths)
    ensures Gathered(entries, n, nodes, paths, folds)
  {
  }

  lemma AcceptedMore(entries: seq<Entry>, n: nat, nodes: map<nat, Node>, paths: map<seq<Byte>, nat>)
    requires n < |entries| && AllChecked(entries, n) && AllAgree(entries, n) && Checked(entries[n]) &&
             AgreesWithAll(entries, n)
    requires Collected(entries, n + 1, nodes) && Indexed(entries, n + 1, paths)
    ensures Gathered(entries, n + 1, nodes, paths, FOLDS)
  {
    Fold(entries, n + 1, nodes, paths, FOLDS);
  }

  /** One more entry, over the unfolded facts. */
  lemma EntryJoins(entries: seq<Entry>, n: nat, nodes: map<nat, Node>, paths: map<seq<Byte>, nat>, e: Entry,
                   nodes': map<nat, Node>, paths': map<seq<Byte>, nat>)
    requires n < |entries| && e == entries[n] && Checked(e) && Joins(e, nodes, paths)
    requires AllChecked(entries, n) && AllAgree(entries, n) && Collected(entries, n, nodes) &&
             Indexed(entries, n, paths)
    requires nodes' == WithEntry(nodes, e) && paths' == paths[e.path := n]
    ensures Gathered(entries, n + 1, nodes', paths', FOLDS)
  {
    Agreement(entries, n, nodes, paths, e);
    CollectMore(entries, n, nodes, nodes');
    IndexMore(entries, n, paths, e.path, paths');
    AcceptedMore(entries, n, nodes', paths');
  }

  /** Gathering one more entry. */
  lemma GatherMore(entries: seq<Entry>, n: nat, nodes: map<nat, Node>, paths: map<seq<Byte>, nat>, e: Entry)
    requires n < |entries| && e == entries[n] && Checked(e) && Gathered(entries, n, nodes, paths, FOLDS) &&
             Joins(e, nodes, paths)
    ensures Gathered(entries, n + 1, WithEntry(nodes, e), paths[e.path := n], FOLDS)
  {
    Unfold(entries, n, nodes, paths, FOLDS);
    EntryJoins(entries, n, nodes, paths, e, WithEntry(nodes, e), paths[e.path := n]);
  }

  /** Finding that the list is not acceptable. */
  lemma GatherFails(entries: seq<Entry>, n: nat, nodes: map<nat, Node>, paths: map<seq<Byte>, nat>, e: Entry)
    requires n < |entries| && e == entries[n] && Checked(e) && Gathered(entries, n, nodes, paths, FOLDS) &&
             !Joins(e, nodes, paths)
    ensures !AllAgree(entries, |entries|)
  {
    Unfold(entries, n, nodes, paths, FOLDS);
    Agreement(entries, n, nodes, paths, e);
    NotAll(entries, n);
  }

  method Collect(entries: seq<Entry>) returns (nodes: map<nat, Node>, paths: map<seq<Byte>, nat>, ok: bool)
    ensures ok <==> AllChecked(entries, |entries|) && AllAgree(entries, |entries|)
    ensures ok ==> Collected(entries, |entries|, nodes) && Indexed(entries, |entries|, paths)
  {
    nodes, paths := map[], map[];
    Fold(entries, 0, nodes, paths, FOLDS);
    var n := 0;
    while n < |entries|
      invariant 0 <= n <= |entries| && Gathered(entries, n, nodes, paths, FOLDS)
    {
      var e := entries[n];
      if !Checked(e) {
        NotChecked(entries, |entries|, n);
        return map[], map[], false;
      }
      if !Joins(e, nodes, paths) {
        GatherFails(entries, n, nodes, paths, e);
        return map[], map[], false;
      }
      GatherMore(entries, n, nodes, paths, e);
      nodes := WithEntry(nodes, e);
      paths := paths[e.path := n];
      n := n + 1;
    }
    Unfold(entries, n, nodes, paths, FOLDS);
    ok := true;
  }
}
