/** Loading a list of entries into a directory: the deepest paths last, one node
    for each number. */
module TreeLoading {
  import opened Sorting
  import opened HostTrees

  const MAX_SAFE := 9007199254740991

  // --- directories

  function Find(ent: seq<(Name, nat)>, name: Name): Option<nat> {
    if ent == [] then None else if ent[0].0 == name then Some(ent[0].1) else Find(ent[1..], name)
  }

  /** A name that is there already keeps its place. */
  function SetEnt(ent: seq<(Name, nat)>, name: Name, n: nat): (r: seq<(Name, nat)>)
    ensures forall e {:trigger e in r} :: e in r ==> e in ent || e.1 == n
  {
    if ent == [] then [(name, n)]
    else if ent[0].0 == name then [(name, n)] + ent[1..]
    else [ent[0]] + SetEnt(ent[1..], name, n)
  }

  lemma {:induction false} FindsOnly(ent: seq<(Name, nat)>, name: Name, n: nat)
    requires (name, n) in ent && forall e {:trigger e in ent} :: e in ent && e.0 == name ==> e.1 == n
    ensures Find(ent, name) == Some(n)
  {
    assert ent[0] in ent;
    if ent[0].0 != name {
      forall e {:trigger e in ent[1..]} | e in ent[1..] && e.0 == name ensures e.1 == n { assert e in ent; }
      FindsOnly(ent[1..], name, n);
    }
  }

  lemma {:induction false} SetNew(ent: seq<(Name, nat)>, name: Name, n: nat)
    requires forall e {:trigger e in ent} :: e in ent ==> e.0 != name
    ensures SetEnt(ent, name, n) == ent + [(name, n)]
  {
    if ent != [] {
      assert ent[0] in ent;
      forall e {:trigger e in ent[1..]} | e in ent[1..] ensures e.0 != name { assert e in ent; }
      SetNew(ent[1..], name, n);
    }
  }

  /** Every entry leads to a node. */
  ghost predicate SoundAt(nodes: seq<Node>, i: nat) {
    i < |nodes| && nodes[i].body.Dir? ==>
      forall e {:trigger e in nodes[i].body.ent} :: e in nodes[i].body.ent ==> e.1 < |nodes|
  }

  ghost predicate Sound(nodes: seq<Node>) {
    forall i: nat {:trigger SoundAt(nodes, i)} :: i < |nodes| ==> SoundAt(nodes, i)
  }

  predicate IsDir(nodes: seq<Node>, d: nat) {
    d < |nodes| && nodes[d].body.Dir?
  }

  /** Nodes are added, and none changes its kind. */
  ghost predicate Grows(nodes: seq<Node>, nodes': seq<Node>) {
    |nodes| <= |nodes'| && forall i: nat {:trigger IsDir(nodes', i)} {:trigger IsDir(nodes, i)} ::
      i < |nodes| ==> (IsDir(nodes', i) <==> IsDir(nodes, i))
  }

  /** A node is replaced by one of its kind, whose entries lead to nodes. */
  lemma ReplacedSound(nodes: seq<Node>, d: nat, node: Node)
    requires Sound(nodes) && d < |nodes| && node.body.Dir? == nodes[d].body.Dir?
    requires node.body.Dir? ==> forall e {:trigger e in node.body.ent} :: e in node.body.ent ==> e.1 < |nodes|
    ensures Sound(nodes[d := node]) && Grows(nodes, nodes[d := node])
  {
    forall i: nat {:trigger SoundAt(nodes[d := node], i)} | i < |nodes| ensures SoundAt(nodes[d := node], i) {
      assert SoundAt(nodes, i);
    }
  }

  lemma AddedSound(nodes: seq<Node>, node: Node)
    requires Sound(nodes) && (node.body.Dir? ==> node.body.ent == [])
    ensures Sound(nodes + [node]) && Grows(nodes, nodes + [node])
  {
    forall i: nat {:trigger SoundAt(nodes + [node], i)} | i <= |nodes| ensures SoundAt(nodes + [node], i) {
      if i < |nodes| { assert SoundAt(nodes, i); }
    }
  }

  function Into(nodes: seq<Node>, d: nat, name: Name, n: nat): (r: seq<Node>)
    requires Sound(nodes) && IsDir(nodes, d) && n < |nodes|
    ensures Sound(r) && Grows(nodes, r) && |r| == |nodes|
  {
    assert SoundAt(nodes, d);
    ReplacedSound(nodes, d, nodes[d].(body := Dir(SetEnt(nodes[d].body.ent, name, n))));
    nodes[d := nodes[d].(body := Dir(SetEnt(nodes[d].body.ent, name, n)))]
  }

  // --- loading one entry

  /** What a directory made on the way to a path has, but for its times. */
  function Passing(stamp: nat): Node {
    Node(Attr(0x1ed, 0, 0, stamp, stamp, stamp), Dir([]), 1)
  }

  /** The directory that the parts of the path from the `k`-th on lead to,
      making what is missing or is no directory. */
  function Par(nodes: seq<Node>, d: nat, p: Path, k: nat, stamp: nat): (r: (seq<Node>, nat))
    requires Sound(nodes) && IsDir(nodes, d) && k <= |p|
    ensures Sound(r.0) && Grows(nodes, r.0) && IsDir(r.0, r.1)
    decreases |p| - k
  {
    if k == |p| then (nodes, d)
    else
      var found := Find(nodes[d].body.ent, p[k]);
      if found.Some? && IsDir(nodes, found.value) then Par(nodes, found.value, p, k + 1, stamp)
      else
        AddedSound(nodes, Passing(stamp));
        var more := Into(nodes + [Passing(stamp)], d, p[k], |nodes|);
        Par(more, |nodes|, p, k + 1, stamp)
  }

  /** The node of a new number: its kind as the entry says, what it holds as the
      entry chosen for the number says. */
  function MadeBody(e: Entry, q: Entry): Body {
    match e.shape
    case DirShape => Dir([])
    case FileShape(_, _, _) =>
      var content := if q.shape.FileShape? then q.shape.content else Held([]);
      var sum := if q.shape.FileShape? then q.shape.sum else None;
      Reg(content, if sum.None? && content.Lazy? then Some(content.sum) else sum)
    case LinkShape(_) => Sym(if q.shape.LinkShape? then q.shape.to else "")
  }

  datatype State = State(nodes: seq<Node>, ids: map<nat, nat>)

  ghost predicate Fit(s: State, base: nat) {
    Sound(s.nodes) && IsDir(s.nodes, base) && forall id {:trigger s.ids[id]} :: id in s.ids ==> s.ids[id] < |s.nodes|
  }

  /** The entry that says what a number holds: the last one that holds something. */
  function Chosen(es: seq<Entry>, id: nat): Option<Entry> {
    if es == [] then None
    else
      var e := es[|es| - 1];
      var before := Chosen(es[..|es| - 1], id);
      if e.id != id then before
      else if before.None? || (e.shape.FileShape? && e.shape.content.Held?) || (e.shape.LinkShape? && e.shape.to != "")
      then Some(e) else before
  }

  /** The entry brings bytes, or the target of a link. */
  predicate Brings(e: Entry) {
    (e.shape.FileShape? && e.shape.content.Held?) || (e.shape.LinkShape? && e.shape.to != "")
  }

  lemma {:induction false} NoneChosen(es: seq<Entry>, id: nat)
    ensures Chosen(es, id).None? <==> forall i :: 0 <= i < |es| ==> es[i].id != id
  {
    if es != [] { NoneChosen(es[..|es| - 1], id); }
  }

  /** Of the entries of one number, the last that brings something decides, and the
      first if none does. */
  lemma {:induction false} ChosenMeans(es: seq<Entry>, id: nat) returns (i: nat)
    requires Chosen(es, id).Some?
    ensures i < |es| && Decides(es, id, i) && es[i] == Chosen(es, id).value
  {
    i := |es| - 1;
    if es[i].id != id || (Chosen(es[..i], id).Some? && !Brings(es[i])) {
      var n := i;
      i := ChosenMeans(es[..n], id);
      assert forall j :: 0 <= j < n ==> es[..n][j] == es[j];
    } else {
      NoneChosen(es[..i], id);
      assert forall j :: 0 <= j < i ==> es[..i][j] == es[j];
    }
  }

  predicate Decides(es: seq<Entry>, id: nat, i: nat)
    requires i < |es|
  {
    && es[i].id == id
    && if Brings(es[i]) then forall j :: i < j < |es| && es[j].id == id ==> !Brings(es[j])
       else forall j :: 0 <= j < |es| && es[j].id == id ==> !Brings(es[j]) && i <= j
  }

  /** One more name for a node. */
  function Linked(nodes: seq<Node>, n: nat): (r: seq<Node>)
    requires Sound(nodes) && n < |nodes|
    ensures Sound(r) && Grows(nodes, r) && |r| == |nodes|
  {
    assert forall i: nat {:trigger SoundAt(nodes[n := nodes[n].(nlink := nodes[n].nlink + 1)], i)} ::
           SoundAt(nodes, i) ==>
        SoundAt(nodes[n := nodes[n].(nlink := nodes[n].nlink + 1)], i);
    nodes[n := nodes[n].(nlink := nodes[n].nlink + 1)]
  }

  function Placed(s: State, base: nat, all: seq<Entry>, e: Entry, stamp: nat): (r: State)
    requires Fit(s, base)
    ensures Fit(r, base)
  {
    if e.path == [] then
      assert SoundAt(s.nodes, base);
      ReplacedSound(s.nodes, base, s.nodes[base].(attr := e.attr));
      State(s.nodes[base := s.nodes[base].(attr := e.attr)], s.ids[e.id := base])
    else
      var (nodes, d) := Par(s.nodes, base, e.path[..|e.path| - 1], 0, stamp);
      var q := Chosen(all, e.id);
      var made := Node(e.attr, MadeBody(e, if q.Some? then q.value else e), 0);
      var known := e.id in s.ids;
      AddedSound(nodes, made);
      var more := if known then nodes else nodes + [made];
      var n := if known then s.ids[e.id] else |nodes|;
      var named := Into(more, d, e.path[|e.path| - 1], n);
      State(Linked(named, n), s.ids[e.id := n])
  }

  /** The first `k` entries, one after the other. */
  function PlacedAll(s: State, base: nat, all: seq<Entry>, es: seq<Entry>, k: nat, stamp: nat): (r: State)
    requires Fit(s, base) && k <= |es|
    ensures Fit(r, base)
  {
    if k == 0 then s else Placed(PlacedAll(s, base, all, es, k - 1, stamp), base, all, es[k - 1], stamp)
  }

  // --- the host's file system

  datatype Answer = Fine | BadEntry | TooBig

  predicate Safe(n: nat) {
    n <= MAX_SAFE
  }

  predicate Checked(e: Entry) {
    && ".." !in e.path && 1 <= e.id && Safe(e.id)
    && Safe(e.attr.mode) && Safe(e.attr.uid) && Safe(e.attr.gid) && Safe(e.attr.at) && Safe(e.attr.mt)
    && Safe(e.attr.ct)
    && (e.shape.FileShape? ==> Safe(e.shape.size) && (e.shape.content.Lazy? ==> Safe(e.shape.content.size)))
  }

  function Depth(): Entry -> int {
    (e: Entry) => if |e.path| <= 1 then 2 else |e.path| + 1
  }

  /** What the entries make of the file system. */
  function LoadedFrom(nodes: seq<Node>, base: nat, es: seq<Entry>, stamp: nat): State
    requires Sound(nodes) && IsDir(nodes, base)
  {
    Emptied(nodes, base);
    PlacedAll(State(Cleared(nodes, base), map[]), base, es, StableSort(es, Depth()), |es|, stamp)
  }

  function Cleared(nodes: seq<Node>, base: nat): seq<Node>
    requires IsDir(nodes, base)
  {
    nodes[base := nodes[base].(body := Dir([]))]
  }

  lemma Emptied(nodes: seq<Node>, base: nat)
    requires Sound(nodes) && IsDir(nodes, base)
    ensures Fit(State(Cleared(nodes, base), map[]), base)
  {
    ReplacedSound(nodes, base, nodes[base].(body := Dir([])));
  }

  // --- what the files take

  /** The bytes a node takes; a file whose bytes come later holds none. */
  function Cost(node: Node): nat {
    128 + if node.body.Reg? && node.body.content.Held? then |node.body.content.data| else 0
  }

  /** What the nodes of a set take together. */
  ghost function Total(nodes: seq<Node>, seen: set<nat>, n: nat): nat
    requires n <= |nodes|
  {
    if n == 0 then 0 else Total(nodes, seen, n - 1) + if n - 1 in seen then Cost(nodes[n - 1]) else 0
  }

  /** Whatever the directory `u` names is in the set. */
  ghost predicate ClosedAt(nodes: seq<Node>, seen: set<nat>, u: nat) {
    IsDir(nodes, u) ==> forall e {:trigger e in nodes[u].body.ent} :: e in nodes[u].body.ent ==> e.1 in seen
  }

  ghost predicate Closed(nodes: seq<Node>, seen: set<nat>) {
    forall u {:trigger u in seen} :: u in seen ==> ClosedAt(nodes, seen, u)
  }

  /** The nodes that hang below the root: the least closed set with the root. */
  ghost predicate Hanging(nodes: seq<Node>, root: nat, seen: set<nat>) {
    && root in seen && Closed(nodes, seen)
    && forall other: set<nat> {:trigger Closed(nodes, other)} :: root in other && Closed(nodes, other) ==> seen <= other
  }

  /** What hangs below the root takes `n` bytes, each node counted once. */
  ghost predicate Takes(nodes: seq<Node>, root: nat, n: nat) {
    exists seen: set<nat> :: Hanging(nodes, root, seen) && n == Total(nodes, seen, |nodes|)
  }

  ghost function Upto(n: nat): (r: set<nat>)
    ensures |r| == n && forall k: nat {:trigger k in r} :: k in r <==> k < n
  {
    if n == 0 then {} else Upto(n - 1) + {n - 1}
  }

  lemma {:induction false} TotalMore(nodes: seq<Node>, seen: set<nat>, v: nat, n: nat)
    requires n <= |nodes| && v < |nodes| && v !in seen
    ensures Total(nodes, seen + {v}, n) == Total(nodes, seen, n) + if v < n then Cost(nodes[v]) else 0
  {
    if n > 0 { TotalMore(nodes, seen, v, n - 1); }
  }

  lemma {:induction false} TotalNone(nodes: seq<Node>, n: nat)
    requires n <= |nodes|
    ensures Total(nodes, {}, n) == 0
  {
    if n > 0 { TotalNone(nodes, n - 1); }
  }

  lemma {:induction false} Fewer(a: set<nat>, b: set<nat>)
    requires a <= b
    ensures |a| <= |b|
  {
    if a != {} {
      var e :| e in a;
      Fewer(a - {e}, b - {e});
    }
  }

  /** A node that is visited leaves fewer to visit. */
  lemma OneVisited(nodes: seq<Node>, seen: set<nat>, v: nat, now: set<nat>)
    requires v !in seen && seen + {v} <= now <= Upto(|nodes|)
    ensures |seen| < |now| <= |nodes|
  {
    Fewer(seen + {v}, now);
    Fewer(now, Upto(|nodes|));
  }

  /** What a visit adds to the seen nodes: all of it is closed, and no closed set
      with the node and the nodes seen before can do without it. */
  ghost predicate Adds(nodes: seq<Node>, seen: set<nat>, v: nat, now: set<nat>) {
    && seen + {v} <= now <= Upto(|nodes|)
    && (forall u {:trigger u in now} :: u in now && u !in seen ==> ClosedAt(nodes, now, u))
    && forall other: set<nat> {:trigger Closed(nodes, other)} ::
         seen <= other && v in other && Closed(nodes, other) ==> now <= other
  }

  /** The first `k` entries of the directory `v` were visited. */
  ghost predicate Adding(nodes: seq<Node>, seen: set<nat>, v: nat, now: set<nat>, k: nat)
    requires IsDir(nodes, v) && k <= |nodes[v].body.ent|
  {
    && seen + {v} <= now <= Upto(|nodes|)
    && (forall j {:trigger nodes[v].body.ent[j]} :: 0 <= j < k ==> nodes[v].body.ent[j].1 in now)
    && (forall u {:trigger u in now} :: u in now && u !in seen && u != v ==> ClosedAt(nodes, now, u))
    && forall other: set<nat> {:trigger Closed(nodes, other)} ::
         seen <= other && v in other && Closed(nodes, other) ==> now <= other
  }

  lemma AddingMore(nodes: seq<Node>, seen: set<nat>, v: nat, was: set<nat>, now: set<nat>, k: nat)
    requires IsDir(nodes, v) && k < |nodes[v].body.ent| && Adding(nodes, seen, v, was, k)
    requires Adds(nodes, was, nodes[v].body.ent[k].1, now)
    ensures Adding(nodes, seen, v, now, k + 1)
  {
    var e := nodes[v].body.ent[k];
    forall u {:trigger u in now} | u in now && u !in seen && u != v ensures ClosedAt(nodes, now, u) {
      if u in was { assert ClosedAt(nodes, was, u); }
    }
    forall other: set<nat> {:trigger Closed(nodes, other)} | seen <= other && v in other && Closed(nodes, other)
      ensures now <= other
    {
      assert ClosedAt(nodes, other, v) && e in nodes[v].body.ent;
    }
  }

  lemma AddingDone(nodes: seq<Node>, seen: set<nat>, v: nat, now: set<nat>)
    requires IsDir(nodes, v) && Adding(nodes, seen, v, now, |nodes[v].body.ent|)
    ensures Adds(nodes, seen, v, now)
  {
    forall e {:trigger e in nodes[v].body.ent} | e in nodes[v].body.ent ensures e.1 in now {
      var j :| 0 <= j < |nodes[v].body.ent| && nodes[v].body.ent[j] == e;
    }
  }

  /** Visit a node and all it leads to, once each. */
  method Visit(nodes: seq<Node>, v: nat, seen: set<nat>, n: nat) returns (now: set<nat>, total: nat)
    requires Sound(nodes) && v < |nodes| && seen <= Upto(|nodes|)
    ensures Adds(nodes, seen, v, now)
    ensures total - n == Total(nodes, now, |nodes|) - Total(nodes, seen, |nodes|)
    decreases |nodes| - |seen|
  {
    now, total := seen, n;
    if v in seen { return; }
    now, total := seen + {v}, n + Cost(nodes[v]);
    TotalMore(nodes, seen, v, |nodes|);
    if nodes[v].body.Dir? {
      var ent, k := nodes[v].body.ent, 0;
      while k < |ent|
        invariant 0 <= k <= |ent| && Adding(nodes, seen, v, now, k)
        invariant total - n == Total(nodes, now, |nodes|) - Total(nodes, seen, |nodes|)
      {
        assert SoundAt(nodes, v) && ent[k] in ent;
        OneVisited(nodes, seen, v, now);
        ghost var was := now;
        now, total := Visit(nodes, ent[k].1, now, total);
        AddingMore(nodes, seen, v, was, now, k);
        k := k + 1;
      }
      AddingDone(nodes, seen, v, now);
    }
  }

  /** The bytes of everything below the root, each node once. */
  method Used(nodes: seq<Node>, root: nat) returns (n: nat)
    requires Sound(nodes) && root < |nodes|
    ensures Takes(nodes, root, n)
  {
    TotalNone(nodes, |nodes|);
    var seen;
    seen, n := Visit(nodes, root, {}, 0);
    assert Hanging(nodes, root, seen);
  }

  class HostFiles {
    const root: nat
    const cap: nat
    var nodes: seq<Node>

    ghost predicate Valid()
      reads this
    {
      Sound(nodes) && root < |nodes|
    }

    constructor (files: seq<Node>, top: nat, capacity: nat)
      requires Sound(files) && top < |files|
      ensures Valid() && nodes == files && root == top && cap == capacity
    {
      nodes, root, cap := files, top, capacity;
    }

    /** The directory that a path leads to. */
    method FindParent(base: nat, p: Path, stamp: nat) returns (d: nat)
      requires Valid() && IsDir(nodes, base)
      modifies this
      ensures Valid() && |nodes| >= |old(nodes)| && (nodes, d) == Par(old(nodes), base, p, 0, stamp)
    {
      d := base;
      var k := 0;
      while k < |p|
        invariant 0 <= k <= |p| && Valid() && IsDir(nodes, d) && |nodes| >= |old(nodes)|
        invariant Par(nodes, d, p, k, stamp) == Par(old(nodes), base, p, 0, stamp)
      {
        var found := Find(nodes[d].body.ent, p[k]);
        if found.Some? && IsDir(nodes, found.value) {
          d := found.value;
        } else {
          AddedSound(nodes, Passing(stamp));
          var added := |nodes|;
          nodes := Into(nodes + [Passing(stamp)], d, p[k], added);
          d := added;
        }
        k := k + 1;
      }
    }

    /** Place one entry; `ids` leads from numbers to nodes. */
    method Place(base: nat, all: seq<Entry>, e: Entry, ids: map<nat, nat>, stamp: nat) returns (ids': map<nat, nat>)
      requires Fit(State(nodes, ids), base) && Valid()
      modifies this
      ensures Fit(State(nodes, ids'), base) && Valid()
      ensures State(nodes, ids') == Placed(State(old(nodes), ids), base, all, e, stamp)
    {
      if e.path == [] {
        assert SoundAt(nodes, base);
        ReplacedSound(nodes, base, nodes[base].(attr := e.attr));
        nodes := nodes[base := nodes[base].(attr := e.attr)];
        return ids[e.id := base];
      }
      var d := FindParent(base, e.path[..|e.path| - 1], stamp);
      var n;
      if e.id in ids {
        n := ids[e.id];
      } else {
        var q := Chosen(all, e.id);
        var made := Node(e.attr, MadeBody(e, if q.Some? then q.value else e), 0);
        AddedSound(nodes, made);
        n := |nodes|;
        nodes := nodes + [made];
      }
      nodes := Into(nodes, d, e.path[|e.path| - 1], n);
      nodes := Linked(nodes, n);
      ids' := ids[e.id := n];
    }

    /** Replace what the directory holds by the entries.  When all files then take more
        than the budget, this is said, but the files stay. */
    method Load(base: nat, es: seq<Entry>, stamp: nat) returns (r: Answer)
      requires Valid() && IsDir(nodes, base)
      modifies this
      ensures Valid()
      ensures r == BadEntry <==> exists e :: e in es && !Checked(e)
      ensures nodes == if r == BadEntry then old(nodes) else LoadedFrom(old(nodes), base, es, stamp).nodes
      ensures r != BadEntry ==> exists n: nat :: Takes(nodes, root, n) && (r == TooBig <==> n > cap)
    {
      if exists e :: e in es && !Checked(e) { return BadEntry; }
      Emptied(nodes, base);
      nodes := Cleared(nodes, base);
      ghost var start := State(nodes, map[]);
      var ids, sorted, k := map[], StableSort(es, Depth()), 0;
      while k < |es|
        invariant 0 <= k <= |es| && Fit(State(nodes, ids), base) && Valid()
        invariant State(nodes, ids) == PlacedAll(start, base, es, sorted, k, stamp)
      {
        ids := Place(base, es, sorted[k], ids, stamp);
        k := k + 1;
      }
      var used := Used(nodes, root);
      r := if used > cap then TooBig else Fine;
    }
  }
}
