/** Dumping a tree, loading the entries, and dumping again gives the same
    entries; names share a node after loading exactly when they did before. */
module TreeRoundTrip {
  import opened Sorting
  import opened HostTrees
  import opened TreeShapes
  import opened TreeLoading

  // --- a list of entries that spells a tree, in the order of loading

  ghost predicate OnePath(es: seq<Entry>) {
    Distinct(es) && forall x, y {:trigger x in es, y in es} :: x in es && y in es && x.path == y.path ==> x == y
  }

  /** Entries of one number say the same; a directory has one entry. */
  ghost predicate OneNode(es: seq<Entry>) {
    forall x, y {:trigger x in es, y in es} :: x in es && y in es && x.id == y.id ==>
      x.attr == y.attr && x.shape == y.shape && (x.shape == DirShape ==> x == y)
  }

  ghost predicate ParentsFirst(es: seq<Entry>) {
    && 0 < |es| && es[0].path == [] && es[0].shape == DirShape
    && forall i {:trigger es[i]} :: 0 < i < |es| ==> es[i].path != [] && Preceded(es, i)
  }

  ghost predicate Summed(es: seq<Entry>) {
    forall x {:trigger x in es} :: x in es && x.shape.FileShape? ==> x.shape.sum.Some?
  }

  ghost predicate Spelling(es: seq<Entry>) {
    OnePath(es) && OneNode(es) && ParentsFirst(es) && Summed(es)
  }

  // --- what stands after the first entries

  ghost predicate Taken(es: seq<Entry>, k: nat, id: nat)
    requires k <= |es|
  {
    exists j {:trigger es[j]} :: 0 <= j < k && es[j].id == id
  }

  /** How many of the first `k` names the number has. */
  ghost function Times(es: seq<Entry>, k: nat, id: nat): nat
    requires k <= |es|
  {
    if k == 0 then 0 else Times(es, k - 1, id) + if es[k - 1].id == id && es[k - 1].path != [] then 1 else 0
  }

  ghost predicate BodyStands(es: seq<Entry>, k: nat, ids: map<nat, nat>, x: Entry, body: Body)
    requires k <= |es|
  {
    match x.shape
    case DirShape => body == Dir(Numbers(ids, Kids(es[..k], x.path)))
    case FileShape(content, sum, _) => body == Reg(content, sum)
    case LinkShape(to) => body == Sym(to)
  }

  ghost predicate Stands(es: seq<Entry>, k: nat, s: State, x: Entry)
    requires k <= |es|
  {
    && x.id in s.ids && s.ids[x.id] < |s.nodes| && s.nodes[s.ids[x.id]].attr == x.attr
    && BodyStands(es, k, s.ids, x, s.nodes[s.ids[x.id]].body)
    && (x.path != [] ==> s.nodes[s.ids[x.id]].nlink == Times(es, k, x.id))
  }

  ghost predicate OneToOne(ids: map<nat, nat>) {
    forall a, b {:trigger ids[a], ids[b]} :: a in ids && b in ids && ids[a] == ids[b] ==> a == b
  }

  ghost predicate Come(es: seq<Entry>, k: nat, base: nat, s: State)
    requires k <= |es|
  {
    && Fit(s, base) && OneToOne(s.ids)
    && (forall id {:trigger id in s.ids} :: id in s.ids ==> Taken(es, k, id))
    && (if k == 0 then s.nodes[base].body == Dir([]) else es[0].id in s.ids && s.ids[es[0].id] == base)
    && (forall j {:trigger es[j]} :: 0 <= j < k ==> Stands(es, k, s, es[j]))
  }

  // --- finding a directory that stands

  lemma KidIn(s: seq<Entry>, x: Entry)
    requires x in s && x.path != []
    ensures Label(x) in Kids(s, Parent(x.path))
  {
    var f := Filter(s, ChildOf(Parent(x.path)));
    FilterKeeps(s, ChildOf(Parent(x.path)));
    var i :| 0 <= i < |f| && f[i] == x;
    assert Labels(f)[i] == Label(x);
  }

  lemma KidFrom(s: seq<Entry>, q: Path, e: (Name, nat)) returns (x: Entry)
    requires e in Kids(s, q)
    ensures x in s && x.path == q + [e.0] && x.id == e.1
  {
    var f := Filter(s, ChildOf(q));
    FilterKeeps(s, ChildOf(q));
    var i :| 0 <= i < |f| && Labels(f)[i] == e;
    x := f[i];
    assert x in f;
    assert x.path == x.path[..|x.path| - 1] + [x.path[|x.path| - 1]];
  }

  /** Below a path, a name stands for one entry. */
  lemma OneKid(es: seq<Entry>, k: nat, x: Entry, kid: (Name, nat))
    requires OnePath(es) && k <= |es| && x in es && x.path != []
    requires kid in Kids(es[..k], Parent(x.path)) && kid.0 == x.path[|x.path| - 1]
    ensures kid == Label(x) && x in es[..k]
  {
    var y := KidFrom(es[..k], Parent(x.path), kid);
    assert x.path == Parent(x.path) + [kid.0];
    assert y in es;
  }

  lemma NumbersAt(ids: map<nat, nat>, es: seq<(Name, nat)>, e: (Name, nat)) returns (i: nat)
    requires e in Numbers(ids, es)
    ensures i < |es| && es[i] in es && e == (es[i].0, if es[i].1 in ids then ids[es[i].1] else 0)
  {
    var r := Numbers(ids, es);
    var m :| 0 <= m < |r| && r[m] == e;
    i := m;
  }

  /** The entry of a name that stands. */
  lemma FindsKid(es: seq<Entry>, k: nat, ids: map<nat, nat>, x: Entry)
    requires OnePath(es) && k <= |es| && x in es[..k] && x.path != [] && x.id in ids
    ensures Find(Numbers(ids, Kids(es[..k], Parent(x.path))), x.path[|x.path| - 1]) == Some(ids[x.id])
  {
    var q, name := Parent(x.path), x.path[|x.path| - 1];
    var kids := Kids(es[..k], q);
    var ent := Numbers(ids, kids);
    KidIn(es[..k], x);
    var i :| 0 <= i < |kids| && kids[i] == (name, x.id);
    assert ent[i] == (name, ids[x.id]);
    forall e {:trigger e in ent} | e in ent && e.0 == name ensures e.1 == ids[x.id] {
      var m := NumbersAt(ids, kids, e);
      OneKid(es, k, x, kids[m]);
    }
    FindsOnly(ent, name, ids[x.id]);
  }

  lemma NotBefore(es: seq<Entry>, k: nat)
    requires Distinct(es) && k < |es|
    ensures es[k] !in es[..k]
  {
    forall j | 0 <= j < k ensures es[..k][j] != es[k] { DistinctAt(es, j, k); }
  }

  /** No entry of the first `k` has this name. */
  lemma NewName(es: seq<Entry>, k: nat, ids: map<nat, nat>, n: nat)
    requires OnePath(es) && k < |es| && es[k].path != []
    ensures var ent, name := Numbers(ids, Kids(es[..k], Parent(es[k].path))), es[k].path[|es[k].path| - 1];
      SetEnt(ent, name, n) == ent + [(name, n)]
  {
    var x := es[k];
    var q, name := Parent(x.path), x.path[|x.path| - 1];
    var kids := Kids(es[..k], q);
    var ent := Numbers(ids, kids);
    NotBefore(es, k);
    forall e {:trigger e in ent} | e in ent ensures e.0 != name {
      var m := NumbersAt(ids, kids, e);
      if e.0 == name { OneKid(es, k, x, kids[m]); }
    }
    SetNew(ent, name, n);
  }

  /** In a directory that stands, the name of an entry below it is found. */
  lemma FindsBelow(es: seq<Entry>, k: nat, base: nat, s: State, i: nat, j: nat)
    requires OnePath(es) && k <= |es| && Come(es, k, base, s) && i < k && j < k && es[i].shape == DirShape
    requires es[j].path != [] && Parent(es[j].path) == es[i].path
    ensures es[i].id in s.ids && es[j].id in s.ids && IsDir(s.nodes, s.ids[es[i].id])
    ensures Find(s.nodes[s.ids[es[i].id]].body.ent, es[j].path[|es[j].path| - 1]) == Some(s.ids[es[j].id])
  {
    assert es[..k][j] == es[j];
    assert Stands(es, k, s, es[i]) && Stands(es, k, s, es[j]);
    FindsKid(es, k, s.ids, es[j]);
  }

  lemma ParStep(nodes: seq<Node>, d: nat, n: nat, p: Path, m: nat, stamp: nat)
    requires Sound(nodes) && IsDir(nodes, d) && IsDir(nodes, n) && m < |p| && Find(nodes[d].body.ent, p[m]) == Some(n)
    ensures Par(nodes, d, p, m, stamp) == Par(nodes, n, p, m + 1, stamp)
  {
  }

  lemma StandsDir(es: seq<Entry>, k: nat, base: nat, s: State, j: nat)
    requires k <= |es| && Come(es, k, base, s) && j < k && es[j].shape == DirShape
    ensures es[j].id in s.ids && IsDir(s.nodes, s.ids[es[j].id])
    ensures s.nodes[s.ids[es[j].id]].body == Dir(Numbers(s.ids, Kids(es[..k], es[j].path)))
    ensures j == 0 ==> s.ids[es[j].id] == base
  {
    assert Stands(es, k, s, es[j]);
  }

  /** The walk to a path passes every directory on the way. */
  lemma {:induction false} ParReaches(es: seq<Entry>, k: nat, base: nat, s: State, p: Path, j: nat, stamp: nat)
    requires Spelling(es) && k <= |es| && Come(es, k, base, s) && j < k && es[j].shape == DirShape && es[j].path <= p
    ensures es[j].id in s.ids && IsDir(s.nodes, s.ids[es[j].id])
    ensures Par(s.nodes, base, p, 0, stamp) == Par(s.nodes, s.ids[es[j].id], p, |es[j].path|, stamp)
    decreases j
  {
    StandsDir(es, k, base, s, j);
    if j > 0 {
      var i := ParentBefore(es, j);
      ParReaches(es, k, base, s, p, i, stamp);
      FindsBelow(es, k, base, s, i, j);
      ParStep(s.nodes, s.ids[es[i].id], s.ids[es[j].id], p, |es[i].path|, stamp);
    }
  }

  lemma ParentBefore(es: seq<Entry>, j: nat) returns (i: nat)
    requires ParentsFirst(es) && 0 < j < |es|
    ensures i < j && es[j].path != [] && es[i].path == Parent(es[j].path) && es[i].shape == DirShape
  {
    assert es[j].path != [] && Preceded(es, j);
    i :| 0 <= i < j && es[i].path == Parent(es[j].path) && es[i].shape == DirShape;
  }

  // --- placing the next entry

  /** What placing an entry below the directory `d` does: a name in `d`, and one
      more name for the node `n`, which is new unless its number is known. */
  ghost predicate Changed(s: State, t: State, d: nat, n: nat, e: Entry) {
    && e.path != [] && IsDir(s.nodes, d) && d != n && t.ids == s.ids[e.id := n]
    && |t.nodes| == |s.nodes| + (if e.id in s.ids then 0 else 1) && n < |t.nodes|
    && (forall m {:trigger t.nodes[m]} :: 0 <= m < |s.nodes| && m != d && m != n ==> t.nodes[m] == s.nodes[m])
    && t.nodes[d] == s.nodes[d].(body := Dir(s.nodes[d].body.ent + [(e.path[|e.path| - 1], n)]))
    && if e.id in s.ids then n == s.ids[e.id] && n < |s.nodes| &&
            t.nodes[n] == s.nodes[n].(nlink := s.nodes[n].nlink + 1)
       else n == |s.nodes| && t.nodes[n] == Node(e.attr, MadeBody(e, e), 1)
  }

  ghost predicate Agrees(all: seq<Entry>, e: Entry) {
    Chosen(all, e.id).Some? ==> Chosen(all, e.id).value.shape == e.shape
  }

  lemma SameMade(e: Entry, q: Entry)
    requires q.shape == e.shape
    ensures MadeBody(e, q) == MadeBody(e, e)
  {
  }

  /** The node of a known number is no directory that stands. */
  lemma KnownLeaf(es: seq<Entry>, k: nat, base: nat, s: State, i: nat)
    requires Spelling(es) && k < |es| && Come(es, k, base, s) && i < k && es[i].shape == DirShape && es[k].id in s.ids
    ensures es[i].id in s.ids && s.ids[es[k].id] != s.ids[es[i].id] && es[k].shape != DirShape
  {
    StandsDir(es, k, base, s, i);
    assert Taken(es, k, es[k].id);
    var j :| 0 <= j < k && es[j].id == es[k].id;
    assert es[j] in es && es[k] in es && es[i] in es;
    DistinctAt(es, j, k);
    DistinctAt(es, i, k);
  }

  lemma PlacedKnown(s: State, base: nat, all: seq<Entry>, e: Entry, stamp: nat, d: nat)
    requires Fit(s, base) && e.path != [] && e.id in s.ids && IsDir(s.nodes, d) && d != s.ids[e.id]
    requires Par(s.nodes, base, e.path[..|e.path| - 1], 0, stamp) == (s.nodes, d)
    requires SetEnt(s.nodes[d].body.ent, e.path[|e.path| - 1], s.ids[e.id]) ==
             s.nodes[d].body.ent + [(e.path[|e.path| - 1], s.ids[e.id])]
    ensures Changed(s, Placed(s, base, all, e, stamp), d, s.ids[e.id], e)
  {
  }

  lemma PlacedNew(s: State, base: nat, all: seq<Entry>, e: Entry, stamp: nat, d: nat)
    requires Fit(s, base) && e.path != [] && e.id !in s.ids && IsDir(s.nodes, d) && Agrees(all, e)
    requires Par(s.nodes, base, e.path[..|e.path| - 1], 0, stamp) == (s.nodes, d)
    requires SetEnt(s.nodes[d].body.ent, e.path[|e.path| - 1], |s.nodes|) ==
             s.nodes[d].body.ent + [(e.path[|e.path| - 1], |s.nodes|)]
    ensures Changed(s, Placed(s, base, all, e, stamp), d, |s.nodes|, e)
  {
    var q := Chosen(all, e.id);
    SameMade(e, if q.Some? then q.value else e);
  }

  /** The parent of the next entry stands, and the walk leads to it. */
  lemma ParentFound(es: seq<Entry>, k: nat, base: nat, s: State, stamp: nat) returns (d: nat, i: nat)
    requires Spelling(es) && 0 < k < |es| && Come(es, k, base, s)
    ensures i < k && es[k].path != [] && es[i].path == Parent(es[k].path) && es[i].shape == DirShape
    ensures es[i].id in s.ids && d == s.ids[es[i].id] && IsDir(s.nodes, d)
    ensures s.nodes[d].body.ent == Numbers(s.ids, Kids(es[..k], Parent(es[k].path)))
    ensures Par(s.nodes, base, Parent(es[k].path), 0, stamp) == (s.nodes, d)
  {
    i := ParentBefore(es, k);
    ParReaches(es, k, base, s, es[i].path, i, stamp);
    StandsDir(es, k, base, s, i);
    d := s.ids[es[i].id];
  }

  lemma PlacedChanges(es: seq<Entry>, k: nat, base: nat, all: seq<Entry>, s: State, stamp: nat)
    returns (d: nat, n: nat, i: nat)
    requires Spelling(es) && 0 < k < |es| && Come(es, k, base, s) && Agrees(all, es[k])
    ensures Changed(s, Placed(s, base, all, es[k], stamp), d, n, es[k])
    ensures i < k && es[i].path == Parent(es[k].path) && es[i].shape == DirShape && es[i].id in s.ids &&
            d == s.ids[es[i].id]
  {
    d, i := ParentFound(es, k, base, s, stamp);
    if es[k].id in s.ids {
      n := s.ids[es[k].id];
      KnownLeaf(es, k, base, s, i);
      NewName(es, k, s.ids, n);
      PlacedKnown(s, base, all, es[k], stamp, d);
    } else {
      n := |s.nodes|;
      NewName(es, k, s.ids, n);
      PlacedNew(s, base, all, es[k], stamp, d);
    }
  }

  // --- what stands goes on standing

  lemma KidsMore(es: seq<Entry>, k: nat, q: Path)
    requires k < |es|
    ensures Kids(es[..k + 1], q) ==
            Kids(es[..k], q) + if es[k].path != [] && Parent(es[k].path) == q then [Label(es[k])] else []
  {
    assert es[..k + 1] == es[..k] + [es[k]];
    KidsJoin(es[..k], [es[k]], q);
    assert [es[k]][1..] == [];
  }

  lemma PathsDiffer(es: seq<Entry>, i: nat, k: nat)
    requires OnePath(es) && i < k < |es|
    ensures es[i].path != es[k].path
  {
    assert es[i] in es && es[k] in es;
    DistinctAt(es, i, k);
  }

  /** An entry has nothing below it when it comes. */
  lemma KidsLater(es: seq<Entry>, k: nat)
    requires OnePath(es) && ParentsFirst(es) && k < |es|
    ensures Kids(es[..k + 1], es[k].path) == []
  {
    forall x {:trigger x in es[..k + 1]} | x in es[..k + 1] && x.path != [] ensures Parent(x.path) != es[k].path {
      var j :| 0 <= j < k + 1 && es[..k + 1][j] == x;
      if Parent(x.path) == es[k].path {
        var i := ParentBefore(es, j);
        PathsDiffer(es, i, k);
      }
    }
    NoKids(es[..k + 1], es[k].path);
  }

  lemma KidsKnown(es: seq<Entry>, k: nat, ids: map<nat, nat>, q: Path)
    requires k <= |es| && forall j {:trigger es[j]} :: 0 <= j < k ==> es[j].id in ids
    ensures AllIn(ids, Kids(es[..k], q))
  {
    forall e {:trigger e in Kids(es[..k], q)} | e in Kids(es[..k], q) ensures e.1 in ids {
      var x := KidFrom(es[..k], q, e);
      var j :| 0 <= j < k && es[..k][j] == x;
      assert es[j] == x;
    }
  }

  /** The kids of a directory that stands, with one entry more. */
  lemma DirGrows(es: seq<Entry>, k: nat, ids: map<nat, nat>, n: nat, q: Path)
    requires k < |es| && es[k].path != [] && (es[k].id in ids ==> n == ids[es[k].id])
    requires forall j {:trigger es[j]} :: 0 <= j < k ==> es[j].id in ids
    ensures Numbers(ids[es[k].id := n], Kids(es[..k + 1], q)) ==
            Numbers(ids, Kids(es[..k], q)) +
            if Parent(es[k].path) == q then [(es[k].path[|es[k].path| - 1], n)] else []
  {
    var ids' := ids[es[k].id := n];
    KidsMore(es, k, q);
    KidsKnown(es, k, ids, q);
    NumbersGrow(ids, ids', Kids(es[..k], q));
    var more := if Parent(es[k].path) == q then [Label(es[k])] else [];
    NumbersJoin(ids', Kids(es[..k], q), more);
  }

  lemma {:induction false} NoTimes(es: seq<Entry>, k: nat, id: nat)
    requires k <= |es| && !Taken(es, k, id)
    ensures Times(es, k, id) == 0
  {
    if k > 0 {
      assert es[k - 1].id != id;
      forall j {:trigger es[j]} | 0 <= j < k - 1 ensures es[j].id != id { assert !Taken(es, k, id); }
      NoTimes(es, k - 1, id);
    }
  }

  /** Two entries of one number are no directories, and neither is the root. */
  lemma Twins(es: seq<Entry>, j: nat, k: nat)
    requires Spelling(es) && j < k < |es| && es[j].id == es[k].id
    ensures es[j].attr == es[k].attr && es[j].shape == es[k].shape && es[j].shape != DirShape && es[j].path != []
  {
    assert es[j] in es && es[k] in es && es[0] in es;
    DistinctAt(es, j, k);
  }

  lemma KnownStands(es: seq<Entry>, k: nat, base: nat, s: State) returns (j: nat)
    requires k < |es| && Come(es, k, base, s) && es[k].id in s.ids
    ensures j < k && es[j].id == es[k].id && Stands(es, k, s, es[j])
  {
    assert Taken(es, k, es[k].id);
    var i :| 0 <= i < k && es[i].id == es[k].id;
    j := i;
  }

  lemma NewStands(es: seq<Entry>, k: nat, base: nat, s: State, t: State, d: nat, n: nat)
    requires Spelling(es) && 0 < k < |es| && Come(es, k, base, s) && Changed(s, t, d, n, es[k])
    ensures Stands(es, k + 1, t, es[k])
  {
    if es[k].id in s.ids {
      var j := KnownStands(es, k, base, s);
      Twins(es, j, k);
      TwinStands(es, k, s, t, d, n, es[j], es[k]);
    } else {
      FirstStands(es, k, base, s, t, d, n);
    }
  }

  lemma FirstStands(es: seq<Entry>, k: nat, base: nat, s: State, t: State, d: nat, n: nat)
    requires Spelling(es) && 0 < k < |es| && Come(es, k, base, s) && Changed(s, t, d, n, es[k]) && es[k].id !in s.ids
    ensures Stands(es, k + 1, t, es[k])
  {
    KidsLater(es, k);
    assert es[k] in es;
    forall j {:trigger es[j]} | 0 <= j < k ensures es[j].id != es[k].id { assert Stands(es, k, s, es[j]); }
    NoTimes(es, k, es[k].id);
  }

  /** One name more for a node that stands. */
  lemma TwinStands(es: seq<Entry>, k: nat, s: State, t: State, d: nat, n: nat, x: Entry, e: Entry)
    requires k < |es| && e == es[k] && Changed(s, t, d, n, e) && Stands(es, k, s, x) && x.id == e.id
    requires x.attr == e.attr && x.shape == e.shape && x.shape != DirShape && x.path != []
    ensures Stands(es, k + 1, t, x) && Stands(es, k + 1, t, e)
  {
  }

  /** A node of another number. */
  lemma OtherStands(es: seq<Entry>, k: nat, s: State, t: State, d: nat, n: nat, x: Entry, e: Entry)
    requires k < |es| && e == es[k] && Changed(s, t, d, n, e) && Stands(es, k, s, x) && x.id != e.id
    requires s.ids[x.id] != n && forall j {:trigger es[j]} :: 0 <= j < k ==> es[j].id in s.ids
    requires s.ids[x.id] == d <==> x.shape == DirShape && x.path == Parent(e.path)
    ensures Stands(es, k + 1, t, x)
  {
    DirGrows(es, k, s.ids, n, x.path);
  }

  /** An entry that stood still stands. */
  lemma StandsOn(es: seq<Entry>, k: nat, base: nat, s: State, t: State, d: nat, n: nat, i: nat, j: nat)
    requires Spelling(es) && 0 < k < |es| && Come(es, k, base, s) && Changed(s, t, d, n, es[k])
    requires i < k && es[i].path == Parent(es[k].path) && es[i].id in s.ids && d == s.ids[es[i].id]
    requires es[i].shape == DirShape && j < k
    ensures Stands(es, k + 1, t, es[j])
  {
    assert Stands(es, k, s, es[j]);
    if es[j].id == es[k].id {
      Twins(es, j, k);
      TwinStands(es, k, s, t, d, n, es[j], es[k]);
    } else {
      AllKnown(es, k, base, s);
      assert es[i] in es && es[j] in es;
      OtherStands(es, k, s, t, d, n, es[j], es[k]);
    }
  }

  lemma AllKnown(es: seq<Entry>, k: nat, base: nat, s: State)
    requires k <= |es| && Come(es, k, base, s)
    ensures forall j {:trigger es[j]} :: 0 <= j < k ==> es[j].id in s.ids && s.ids[es[j].id] < |s.nodes|
  {
    forall j {:trigger es[j]} | 0 <= j < k ensures es[j].id in s.ids && s.ids[es[j].id] < |s.nodes| {
      assert Stands(es, k, s, es[j]);
    }
  }

  /** Placing the next entry below its directory brings the loading on. */
  lemma ComesOn(es: seq<Entry>, k: nat, base: nat, s: State, t: State, d: nat, n: nat, i: nat)
    requires Spelling(es) && 0 < k < |es| && Come(es, k, base, s) && Changed(s, t, d, n, es[k]) && Fit(t, base)
    requires i < k && es[i].path == Parent(es[k].path) && es[i].id in s.ids && d == s.ids[es[i].id]
    requires es[i].shape == DirShape
    ensures Come(es, k + 1, base, t)
  {
    forall j {:trigger es[j]} | 0 <= j < k + 1 ensures Stands(es, k + 1, t, es[j]) {
      if j < k { StandsOn(es, k, base, s, t, d, n, i, j); } else { NewStands(es, k, base, s, t, d, n); }
    }
    IdsOn(es, k, base, s, t, d, n);
  }

  lemma IdsOn(es: seq<Entry>, k: nat, base: nat, s: State, t: State, d: nat, n: nat)
    requires 0 < k < |es| && Come(es, k, base, s) && Changed(s, t, d, n, es[k])
    ensures OneToOne(t.ids) && es[0].id in t.ids && t.ids[es[0].id] == base
    ensures forall id {:trigger id in t.ids} :: id in t.ids ==> Taken(es, k + 1, id)
  {
    forall id {:trigger id in t.ids} | id in t.ids ensures Taken(es, k + 1, id) {
      if id == es[k].id { assert es[k].id == id; } else { TakenOn(es, k, id); }
    }
  }

  lemma TakenOn(es: seq<Entry>, k: nat, id: nat)
    requires k < |es| && Taken(es, k, id)
    ensures Taken(es, k + 1, id)
  {
  }

  /** The root is the base directory. */
  lemma RootComes(es: seq<Entry>, base: nat, all: seq<Entry>, s: State, stamp: nat)
    requires Spelling(es) && Come(es, 0, base, s)
    ensures Come(es, 1, base, Placed(s, base, all, es[0], stamp))
  {
    var t := Placed(s, base, all, es[0], stamp);
    KidsLater(es, 0);
    assert forall id {:trigger id in s.ids} :: id !in s.ids;
    assert t.ids == map[es[0].id := base];
    assert Taken(es, 1, es[0].id);
  }

  const FOLDS := 3

  /** The entries spell a tree, and nothing is placed yet.  Kept folded. */
  ghost predicate Begins(es: seq<Entry>, base: nat, s: State, folds: nat) {
    if folds == 0 then Spelling(es) && Come(es, 0, base, s) else Begins(es, base, s, folds - 1)
  }

  lemma BeginsMeans(es: seq<Entry>, base: nat, s: State, folds: nat)
    ensures Begins(es, base, s, folds) <==> Spelling(es) && Come(es, 0, base, s)
  {
  }

  lemma OneComes(es: seq<Entry>, k: nat, base: nat, all: seq<Entry>, start: State, s: State, stamp: nat, t: State,
                 next: nat)
    requires Begins(es, base, start, FOLDS) && k < |es| && Come(es, k, base, s) && Agrees(all, es[k]) && next == k + 1
    requires t == Placed(s, base, all, es[k], stamp)
    ensures Come(es, next, base, t)
  {
    BeginsMeans(es, base, start, FOLDS);
    if k == 0 {
      RootComes(es, base, all, s, stamp);
    } else {
      var d, n, i := PlacedChanges(es, k, base, all, s, stamp);
      ComesOn(es, k, base, s, t, d, n, i);
    }
  }

  ghost predicate AllAgree(all: seq<Entry>, es: seq<Entry>, k: nat)
    requires k <= |es|
  {
    k == 0 || (Agrees(all, es[k - 1]) && AllAgree(all, es, k - 1))
  }

  lemma {:induction false} AllCome(es: seq<Entry>, k: nat, base: nat, all: seq<Entry>, s: State, stamp: nat)
    requires Fit(s, base) && k <= |es| && Begins(es, base, s, FOLDS) && AllAgree(all, es, k)
    ensures Come(es, k, base, PlacedAll(s, base, all, es, k, stamp))
  {
    if k == 0 {
      BeginsMeans(es, base, s, FOLDS);
    } else {
      AllCome(es, k - 1, base, all, s, stamp);
      OneComes(es, k - 1, base, all, s, PlacedAll(s, base, all, es, k - 1, stamp), stamp,
               PlacedAll(s, base, all, es, k, stamp), k);
    }
  }

  // --- a dump spells a tree

  /** A directory has at most one name, and the base has none. */
  ghost predicate Treelike(nodes: seq<Node>, base: nat) {
    forall c: nat, d: nat, e, f {:trigger Lists(nodes, c, e), Lists(nodes, d, f)} ::
      Lists(nodes, c, e) && Lists(nodes, d, f) ==>
      e.1 != base && (e.1 == f.1 && IsDir(nodes, e.1) ==> c == d && e == f)
  }

  ghost predicate Lists(nodes: seq<Node>, d: nat, e: (Name, nat)) {
    IsDir(nodes, d) && e in nodes[d].body.ent
  }

  /** The dump `es`, the nodes `who` of its entries and the numbers `ids` of the nodes. */
  ghost predicate Told(nodes: seq<Node>, order: Name -> int, base: nat, ids: map<nat, nat>, es: seq<Entry>,
                       who: seq<nat>) {
    && Block(nodes, order, ids, es, who) && OneToOne(ids) && Met(map[], ids, who)
    && 0 < |es| && es[0].path == [] && who[0] == base && IsDir(nodes, base) && Parented(es[1..], [])
  }

  lemma DumpTold(nodes: seq<Node>, order: Name -> int, rank: map<nat, nat>, base: nat)
    returns (ids: map<nat, nat>, who: seq<nat>)
    requires Ranked(nodes, rank) && Plain(nodes, rank) && base in rank && IsDir(nodes, base)
    ensures ids == Go(nodes, order, rank, base, [], START).ids
    ensures Told(nodes, order, base, ids, Dumped(nodes, order, rank, base), who)
  {
    var block;
    block, who := GoShape(nodes, order, rank, base, [], START);
    ids := Go(nodes, order, rank, base, [], START).ids;
    assert START.out + block == block;
  }

  lemma PrecededAll(es: seq<Entry>, j: nat)
    requires 0 < j < |es| && es[j].path != [] && Preceded(es[1..], j - 1)
    ensures Preceded(es, j)
  {
    var rest := es[1..];
    var m :| 0 <= m < j - 1 && rest[m].path == Parent(rest[j - 1].path) && rest[m].shape == DirShape;
    assert es[m + 1] == rest[m];
  }

  /** An entry below the root stands behind the directory that lists it. */
  lemma ToldParent(nodes: seq<Node>, order: Name -> int, base: nat, ids: map<nat, nat>, es: seq<Entry>, who: seq<nat>,
                   j: nat)
    returns (i: nat)
    requires Told(nodes, order, base, ids, es, who) && 0 < j < |es|
    ensures i < j && es[j].path != [] && es[i].path == Parent(es[j].path) && es[i].shape == DirShape
  {
    assert es[1..][j - 1] == es[j];
    assert Entered(nodes, ids, es[0], who[0]);
    if Parent(es[j].path) == [] { return 0; }
    PrecededAll(es, j);
    i :| 0 <= i < j && es[i].path == Parent(es[j].path) && es[i].shape == DirShape;
  }

  lemma ToldListed(nodes: seq<Node>, order: Name -> int, base: nat, ids: map<nat, nat>, es: seq<Entry>, who: seq<nat>,
                   i: nat, j: nat)
    requires Told(nodes, order, base, ids, es, who) && i < |es| && j < |es| && es[j].path != []
    requires es[i].path == Parent(es[j].path) && es[i].shape == DirShape
    ensures Lists(nodes, who[i], (es[j].path[|es[j].path| - 1], who[j]))
  {
    assert Entered(nodes, ids, es[i], who[i]) && Entered(nodes, ids, es[j], who[j]);
    assert Filled(nodes, order, ids, es, es[i], who[i]);
    KidIn(es, es[j]);
    var shown := Visible(nodes, Listing(nodes[who[i]].body.ent, order));
    var m := NumbersAt(ids, shown, Label(es[j]));
    assert shown[m].1 in ids && ids[shown[m].1] == ids[who[j]];
    FilterKeeps(Listing(nodes[who[i]].body.ent, order), NotDevice(nodes));
    SortKeeps(nodes[who[i]].body.ent, ByName(order));
  }

  lemma SamePath(p: Path, q: Path)
    requires p != [] && q != [] && Parent(p) == Parent(q) && p[|p| - 1] == q[|q| - 1]
    ensures p == q
  {
    assert p == Parent(p) + [p[|p| - 1]] && q == Parent(q) + [q[|q| - 1]];
  }

  lemma NotBase(nodes: seq<Node>, order: Name -> int, base: nat, ids: map<nat, nat>, es: seq<Entry>, who: seq<nat>,
                j: nat)
    requires Told(nodes, order, base, ids, es, who) && Treelike(nodes, base) && 0 < j < |es|
    ensures who[j] != base
  {
    var b := ToldParent(nodes, order, base, ids, es, who, j);
    ToldListed(nodes, order, base, ids, es, who, b, j);
  }

  /** The directories above two entries of one directory are the same. */
  lemma SameAbove(nodes: seq<Node>, order: Name -> int, base: nat, ids: map<nat, nat>, es: seq<Entry>, who: seq<nat>,
                  i: nat, j: nat) returns (a: nat, b: nat)
    requires Told(nodes, order, base, ids, es, who) && Treelike(nodes, base) && 0 < i < |es| && 0 < j < |es|
    requires who[i] == who[j] && IsDir(nodes, who[i])
    ensures a < i && b < j && who[a] == who[b] && IsDir(nodes, who[a]) && es[i].path != [] && es[j].path != []
    ensures es[a].path == Parent(es[i].path) && es[b].path == Parent(es[j].path)
    ensures es[i].path[|es[i].path| - 1] == es[j].path[|es[j].path| - 1]
  {
    a := ToldParent(nodes, order, base, ids, es, who, i);
    b := ToldParent(nodes, order, base, ids, es, who, j);
    ToldListed(nodes, order, base, ids, es, who, a, i);
    ToldListed(nodes, order, base, ids, es, who, b, j);
  }

  /** A path is told once. */
  lemma PathOnce(nodes: seq<Node>, order: Name -> int, base: nat, ids: map<nat, nat>, es: seq<Entry>, who: seq<nat>,
                 i: nat, j: nat)
    requires Told(nodes, order, base, ids, es, who) && i < |es| && j < |es| && es[i].path == es[j].path
    ensures i == j
  {
  }

  /** A directory is met once. */
  lemma {:induction false} DirsOnce(nodes: seq<Node>, order: Name -> int, base: nat, ids: map<nat, nat>, es: seq<Entry>,
                                    who: seq<nat>, i: nat, j: nat)
    requires Told(nodes, order, base, ids, es, who) && Treelike(nodes, base)
    requires i < |es| && j < |es| && who[i] == who[j] && IsDir(nodes, who[i])
    ensures i == j
    decreases i + j
  {
    if i > 0 && j > 0 {
      var a, b := SameAbove(nodes, order, base, ids, es, who, i, j);
      DirsOnce(nodes, order, base, ids, es, who, a, b);
      SamePath(es[i].path, es[j].path);
      PathOnce(nodes, order, base, ids, es, who, i, j);
    } else if i > 0 {
      NotBase(nodes, order, base, ids, es, who, i);
    } else if j > 0 {
      NotBase(nodes, order, base, ids, es, who, j);
    }
  }
}
