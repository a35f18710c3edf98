/** The link structure of the in-memory file system.

    Nodes are objects of the host; here they are places in a sequence, the root
    at zero.  Operations act on a directory and a name, as they do once a path
    is resolved. */
module Links {
  datatype Content = File(size: nat) | Dir(ent: map<string, nat>) | Sym(to: string) | Chr

  datatype Node = Node(content: Content, nlink: int)

  predicate Entry(nodes: seq<Node>, d: nat, x: string, id: nat) {
    d < |nodes| && nodes[d].content.Dir? && x in nodes[d].content.ent && nodes[d].content.ent[x] == id
  }

  /** The directory entries that name a node. */
  ghost function Names(nodes: seq<Node>, id: nat): set<(nat, string)> {
    set d: nat, x | 0 <= d < |nodes| && nodes[d].content.Dir? && x in nodes[d].content.ent &&
        nodes[d].content.ent[x] == id :: (d, x)
  }

  /** The link count of a node is the number of entries that name it, and a
      directory has at most one. */
  ghost predicate CountedAt(nodes: seq<Node>, id: nat) {
    if id == 0 || id >= |nodes| then Names(nodes, id) == {}
    else nodes[id].nlink == |Names(nodes, id)| && (nodes[id].content.Dir? ==> |Names(nodes, id)| <= 1)
  }

  /** Every node is counted; nothing names the root, and no entry leads nowhere. */
  ghost predicate Counted(nodes: seq<Node>) {
    |nodes| > 0 && nodes[0].content.Dir? && forall id: nat :: CountedAt(nodes, id)
  }

  lemma EntryIn(nodes: seq<Node>, d: nat, x: string, i: nat)
    ensures (d, x) in Names(nodes, i) <==> Entry(nodes, d, x, i)
  {
  }

  lemma EntryInRange(nodes: seq<Node>, d: nat, x: string, id: nat)
    requires Counted(nodes) && Entry(nodes, d, x, id)
    ensures 0 < id < |nodes|
  {
    EntryIn(nodes, d, x, id);
    assert CountedAt(nodes, id);
  }

  // --- changing one entry

  function Relinked(nodes: seq<Node>, d: nat, ent: map<string, nat>): seq<Node>
    requires d < |nodes|
  {
    nodes[d := nodes[d].(content := Dir(ent))]
  }

  lemma EntrySet(nodes: seq<Node>, d: nat, x: string, id: nat, i: nat)
    requires d < |nodes| && nodes[d].content.Dir?
    ensures Names(Relinked(nodes, d, nodes[d].content.ent[x := id]), i) == Names(nodes, i) - {(d, x)} + if i == id then
            {(d, x)} else {}
  {
  }

  lemma EntryDeleted(nodes: seq<Node>, d: nat, x: string, i: nat)
    requires d < |nodes| && nodes[d].content.Dir?
    ensures Names(Relinked(nodes, d, nodes[d].content.ent - {x}), i) == Names(nodes, i) - {(d, x)}
  {
  }

  /** Link counts do not matter for names. */
  lemma SameNames(nodes: seq<Node>, nodes': seq<Node>, i: nat)
    requires |nodes'| == |nodes| && forall k :: 0 <= k < |nodes| ==> nodes'[k].content == nodes[k].content
    ensures Names(nodes', i) == Names(nodes, i)
  {
  }

  lemma AppendedNames(nodes: seq<Node>, n: Node, i: nat)
    requires !n.content.Dir? || n.content.ent == map[]
    ensures Names(nodes + [n], i) == Names(nodes, i)
  {
  }

  // --- what the operations do

  function Recounted(nodes: seq<Node>, id: nat, change: int): seq<Node>
    requires id < |nodes|
  {
    nodes[id := nodes[id].(nlink := nodes[id].nlink + change)]
  }

  /** A new node under a new name. */
  function Created(nodes: seq<Node>, d: nat, x: string, content: Content): seq<Node>
    requires d < |nodes| && nodes[d].content.Dir?
  {
    Relinked(nodes, d, nodes[d].content.ent[x := |nodes|]) + [Node(content, 1)]
  }

  /** One more name for a node. */
  function Linked(nodes: seq<Node>, d: nat, x: string, id: nat): seq<Node>
    requires d < |nodes| && nodes[d].content.Dir? && id < |nodes|
  {
    Recounted(Relinked(nodes, d, nodes[d].content.ent[x := id]), id, 1)
  }

  /** One name less for the node it names. */
  function Removed(nodes: seq<Node>, d: nat, x: string): seq<Node>
    requires d < |nodes| && nodes[d].content.Dir? && x in nodes[d].content.ent
  {
    var unnamed := Relinked(nodes, d, nodes[d].content.ent - {x});
    if nodes[d].content.ent[x] < |nodes| then Recounted(unnamed, nodes[d].content.ent[x], -1) else unnamed
  }

  /** The new name is set, the old one deleted, and a node that lost its name to
      the moved one is counted down. */
  function Renamed(nodes: seq<Node>, a: nat, x: string, b: nat, y: string): seq<Node>
    requires a < |nodes| && nodes[a].content.Dir? && x in nodes[a].content.ent
    requires b < |nodes| && nodes[b].content.Dir?
  {
    var put := Relinked(nodes, b, nodes[b].content.ent[y := nodes[a].content.ent[x]]);
    var moved := Relinked(put, a, put[a].content.ent - {x});
    if y in nodes[b].content.ent && nodes[b].content.ent[y] < |nodes| then Recounted(moved, nodes[b].content.ent[y], -1)
       else moved
  }

  /** A node is counted when its count, its kind and its set of names fit. */
  predicate Fits(node: Node, names: set<(nat, string)>) {
    node.nlink == |names| && (node.content.Dir? ==> |names| <= 1)
  }

  lemma FitsMeans(nodes: seq<Node>, i: nat, names: set<(nat, string)>)
    requires names == Names(nodes, i)
    ensures CountedAt(nodes, i) <==> if i == 0 || i >= |nodes| then names == {} else Fits(nodes[i], names)
  {
  }

  lemma OneMore(names: set<(nat, string)>, e: (nat, string))
    requires e !in names
    ensures |names + {e}| == |names| + 1
  {
  }

  lemma OneLess(names: set<(nat, string)>, e: (nat, string))
    ensures e in names ==> |names - {e}| == |names| - 1
    ensures e !in names ==> names - {e} == names
  {
  }

  lemma CreatedCounted(nodes: seq<Node>, d: nat, x: string, content: Content)
    requires Counted(nodes) && d < |nodes| && nodes[d].content.Dir? && x !in nodes[d].content.ent
    requires !content.Dir? || content.ent == map[]
    ensures Counted(Created(nodes, d, x, content))
  {
    forall i: nat ensures CountedAt(Created(nodes, d, x, content), i) { CreatedAt(nodes, d, x, content, i); }
  }

  /** Creating a name adds it to the names of the new node. */
  lemma CreatedNames(nodes: seq<Node>, d: nat, x: string, content: Content, i: nat)
    requires d < |nodes| && nodes[d].content.Dir? && x !in nodes[d].content.ent
    requires !content.Dir? || content.ent == map[]
    ensures Names(Created(nodes, d, x, content), i) == Names(nodes, i) + if i == |nodes| then {(d, x)} else {}
    ensures (d, x) !in Names(nodes, i)
  {
    EntrySet(nodes, d, x, |nodes|, i);
    AppendedNames(Relinked(nodes, d, nodes[d].content.ent[x := |nodes|]), Node(content, 1), i);
    EntryIn(nodes, d, x, i);
    assert Names(nodes, i) - {(d, x)} == Names(nodes, i);
  }

  lemma CreatedAt(nodes: seq<Node>, d: nat, x: string, content: Content, i: nat)
    requires Counted(nodes) && d < |nodes| && nodes[d].content.Dir? && x !in nodes[d].content.ent
    requires !content.Dir? || content.ent == map[]
    ensures CountedAt(Created(nodes, d, x, content), i)
  {
    var now := Names(nodes, i) + if i == |nodes| then {(d, x)} else {};
    CreatedNames(nodes, d, x, content, i);
    assert CountedAt(nodes, i);
    FitsMeans(nodes, i, Names(nodes, i));
    FitsMeans(Created(nodes, d, x, content), i, now);
  }

  lemma LinkedCounted(nodes: seq<Node>, d: nat, x: string, id: nat)
    requires Counted(nodes) && d < |nodes| && nodes[d].content.Dir? && x !in nodes[d].content.ent
    requires 0 < id < |nodes| && !nodes[id].content.Dir?
    ensures Counted(Linked(nodes, d, x, id))
  {
    forall i: nat ensures CountedAt(Linked(nodes, d, x, id), i) { LinkedAt(nodes, d, x, id, i); }
  }

  lemma LinkedAt(nodes: seq<Node>, d: nat, x: string, id: nat, i: nat)
    requires Counted(nodes) && d < |nodes| && nodes[d].content.Dir? && x !in nodes[d].content.ent
    requires 0 < id < |nodes| && !nodes[id].content.Dir?
    ensures CountedAt(Linked(nodes, d, x, id), i)
  {
    var mid, t, before := Relinked(nodes, d, nodes[d].content.ent[x := id]), Linked(nodes, d, x, id), Names(nodes, i);
    EntrySet(nodes, d, x, id, i);
    SameNames(mid, t, i);
    EntryIn(nodes, d, x, i);
    OneLess(before, (d, x));
    OneMore(before, (d, x));
    assert CountedAt(nodes, i);
    FitsMeans(nodes, i, before);
    FitsMeans(t, i, before + if i == id then {(d, x)} else {});
  }

  lemma RemovedCounted(nodes: seq<Node>, d: nat, x: string)
    requires Counted(nodes) && d < |nodes| && nodes[d].content.Dir? && x in nodes[d].content.ent
    ensures 0 < nodes[d].content.ent[x] < |nodes| && Counted(Removed(nodes, d, x))
  {
    var id := nodes[d].content.ent[x];
    EntryInRange(nodes, d, x, id);
    var mid, t := Relinked(nodes, d, nodes[d].content.ent - {x}), Removed(nodes, d, x);
    forall i: nat ensures CountedAt(t, i) {
      var before := Names(nodes, i);
      EntryDeleted(nodes, d, x, i);
      SameNames(mid, t, i);
      EntryIn(nodes, d, x, i);
      OneLess(before, (d, x));
      assert CountedAt(nodes, i);
      FitsMeans(nodes, i, before);
      FitsMeans(t, i, before - {(d, x)});
    }
  }

  lemma RenamedNames(nodes: seq<Node>, a: nat, x: string, b: nat, y: string, i: nat)
    requires a < |nodes| && nodes[a].content.Dir? && x in nodes[a].content.ent
    requires b < |nodes| && nodes[b].content.Dir?
    ensures Names(Renamed(nodes, a, x, b, y), i) ==
            Names(nodes, i) - {(b, y)} + (if i == nodes[a].content.ent[x] then {(b, y)} else {}) - {(a, x)}
  {
    var id := nodes[a].content.ent[x];
    var put := Relinked(nodes, b, nodes[b].content.ent[y := id]);
    var moved := Relinked(put, a, put[a].content.ent - {x});
    EntrySet(nodes, b, y, id, i);
    EntryDeleted(put, a, x, i);
    SameNames(moved, Renamed(nodes, a, x, b, y), i);
  }

  lemma Exchanged(names: set<(nat, string)>, source: (nat, string), target: (nat, string))
    requires source in names && target !in names
    ensures |names + {target} - {source}| == |names|
  {
    OneMore(names, target);
    OneLess(names + {target}, source);
  }

  /** Moving a name keeps the number of names, but for the name it replaces. */
  lemma MovedNames(before: set<(nat, string)>, source: (nat, string), target: (nat, string), moved: bool)
    requires source in before <==> moved
    ensures |before - {target} + (if moved then {target} else {}) - {source}| ==
            |before| - if target in before then 1 else 0
  {
    var dropped := before - {target};
    OneLess(before, target);
    if !moved {
      assert dropped + {} - {source} == dropped;
    } else if source == target {
      assert dropped + {target} - {source} == dropped;
    } else {
      Exchanged(dropped, source, target);
    }
  }

  lemma RenamedNode(nodes: seq<Node>, a: nat, x: string, b: nat, y: string, i: nat)
    requires a < |nodes| && nodes[a].content.Dir? && x in nodes[a].content.ent && i < |nodes|
    requires b < |nodes| && nodes[b].content.Dir?
    ensures var t := Renamed(nodes, a, x, b, y);
            && |t| == |nodes| && (t[i].content.Dir? <==> nodes[i].content.Dir?)
            && t[i].nlink == nodes[i].nlink - if Entry(nodes, b, y, i) then 1 else 0
  {
  }

  lemma RenamedAt(nodes: seq<Node>, a: nat, x: string, b: nat, y: string, i: nat)
    requires Counted(nodes) && a < |nodes| && nodes[a].content.Dir? && x in nodes[a].content.ent
    requires b < |nodes| && nodes[b].content.Dir?
    ensures |Renamed(nodes, a, x, b, y)| == |nodes| && CountedAt(Renamed(nodes, a, x, b, y), i)
  {
    var id, before := nodes[a].content.ent[x], Names(nodes, i);
    var after := before - {(b, y)} + (if i == id then {(b, y)} else {}) - {(a, x)};
    RenamedNames(nodes, a, x, b, y, i);
    EntryIn(nodes, a, x, i);
    EntryIn(nodes, b, y, i);
    EntryInRange(nodes, a, x, id);
    assert CountedAt(nodes, i);
    FitsMeans(nodes, i, before);
    MovedNames(before, (a, x), (b, y), i == id);
    if i < |nodes| { RenamedNode(nodes, a, x, b, y, i); }
    FitsMeans(Renamed(nodes, a, x, b, y), i, after);
  }

  lemma RenamedCounted(nodes: seq<Node>, a: nat, x: string, b: nat, y: string)
    requires Counted(nodes) && a < |nodes| && nodes[a].content.Dir? && x in nodes[a].content.ent
    requires b < |nodes| && nodes[b].content.Dir?
    ensures Counted(Renamed(nodes, a, x, b, y))
  {
    forall i: nat ensures CountedAt(Renamed(nodes, a, x, b, y), i) { RenamedAt(nodes, a, x, b, y, i); }
  }

  // --- what hangs below the root is a tree

  datatype Option<T> = None | Some(value: T)

  /** The node that the first `n` names lead to from the root. */
  ghost function Walk(nodes: seq<Node>, path: seq<string>, n: nat): Option<nat>
    requires n <= |path|
  {
    if n == 0 then Some(0)
    else
      var d := Walk(nodes, path, n - 1);
      if d.Some? && d.value < |nodes| && nodes[d.value].content.Dir? && path[n - 1] in nodes[d.value].content.ent
      then Some(nodes[d.value].content.ent[path[n - 1]]) else None
  }

  lemma WalkEntry(nodes: seq<Node>, path: seq<string>, n: nat)
    requires 0 < n <= |path| && Walk(nodes, path, n).Some?
    ensures Walk(nodes, path, n - 1).Some? &&
            Entry(nodes, Walk(nodes, path, n - 1).value, path[n - 1], Walk(nodes, path, n).value)
  {
  }

  lemma OneName(nodes: seq<Node>, id: nat, d: nat, x: string, e: nat, y: string)
    requires Counted(nodes) && 0 < id < |nodes| && nodes[id].content.Dir? && Entry(nodes, d, x, id) &&
             Entry(nodes, e, y, id)
    ensures d == e && x == y
  {
    var names := Names(nodes, id);
    EntryIn(nodes, d, x, id);
    EntryIn(nodes, e, y, id);
    assert CountedAt(nodes, id);
    if (d, x) != (e, y) {
      assert |{(d, x), (e, y)}| == 2;
      Subset({(d, x), (e, y)}, names);
    }
  }

  lemma {:induction false} Subset<T>(a: set<T>, b: set<T>)
    requires a <= b
    ensures |a| <= |b|
  {
    if a != {} {
      var e :| e in a;
      Subset(a - {e}, b - {e});
    }
  }

  /** Only one path leads to a directory. */
  lemma {:induction false} UniquePath(nodes: seq<Node>, p: seq<string>, m: nat, q: seq<string>, n: nat)
    requires Counted(nodes) && m <= |p| && n <= |q| && Walk(nodes, p, m).Some? && Walk(nodes, q, n) == Walk(nodes, p, m)
    requires Walk(nodes, p, m).value < |nodes| && nodes[Walk(nodes, p, m).value].content.Dir?
    ensures m == n && p[..m] == q[..n]
    decreases m
  {
    var id := Walk(nodes, p, m).value;
    if m > 0 { WalkEntry(nodes, p, m); EntryInRange(nodes, Walk(nodes, p, m - 1).value, p[m - 1], id); }
    if n > 0 { WalkEntry(nodes, q, n); EntryInRange(nodes, Walk(nodes, q, n - 1).value, q[n - 1], id); }
    if m > 0 && n > 0 {
      OneName(nodes, id, Walk(nodes, p, m - 1).value, p[m - 1], Walk(nodes, q, n - 1).value, q[n - 1]);
      UniquePath(nodes, p, m - 1, q, n - 1);
      assert p[..m] == p[..m - 1] + [p[m - 1]] && q[..n] == q[..n - 1] + [q[n - 1]];
    }
  }

  /** The directories a path passes through. */
  ghost function Passed(nodes: seq<Node>, path: seq<string>, n: nat): set<nat>
    requires n <= |path|
  {
    set k | 0 <= k <= n && Walk(nodes, path, k).Some? :: Walk(nodes, path, k).value
  }

  lemma {:induction false} AllDirs(nodes: seq<Node>, path: seq<string>, n: nat, k: nat)
    requires Counted(nodes) && k <= n <= |path| && Walk(nodes, path, n).Some? && Walk(nodes, path, n).value < |nodes|
    requires nodes[Walk(nodes, path, n).value].content.Dir?
    ensures Walk(nodes, path, k).Some? && Walk(nodes, path, k).value < |nodes| &&
            nodes[Walk(nodes, path, k).value].content.Dir?
  {
    if k < n { AllDirs(nodes, path, n - 1, k); }
  }

  lemma {:induction false} DistinctDirs(nodes: seq<Node>, path: seq<string>, n: nat)
    requires Counted(nodes) && n <= |path| && Walk(nodes, path, n).Some? && Walk(nodes, path, n).value < |nodes|
    requires nodes[Walk(nodes, path, n).value].content.Dir?
    ensures |Passed(nodes, path, n)| == n + 1 && forall d :: d in Passed(nodes, path, n) ==> d < |nodes|
  {
    var id := Walk(nodes, path, n).value;
    if n == 0 {
      assert Passed(nodes, path, 0) == {0};
    } else {
      AllDirs(nodes, path, n, n - 1);
      DistinctDirs(nodes, path, n - 1);
      if id in Passed(nodes, path, n - 1) {
        var k :| 0 <= k <= n - 1 && Walk(nodes, path, k) == Some(id);
        UniquePath(nodes, path, n, path, k);
      }
      assert Passed(nodes, path, n) == Passed(nodes, path, n - 1) + {id};
    }
  }

  /** Paths through directories are shorter than there are nodes: descending from
      the root always ends, whatever was renamed into what. */
  lemma ShortPaths(nodes: seq<Node>, path: seq<string>)
    requires Counted(nodes) && Walk(nodes, path, |path|).Some? && Walk(nodes, path, |path|).value < |nodes|
    requires nodes[Walk(nodes, path, |path|).value].content.Dir?
    ensures |path| < |nodes|
  {
    DistinctDirs(nodes, path, |path|);
    Subset(Passed(nodes, path, |path|), Below(|nodes|));
  }

  ghost function Below(n: nat): (r: set<nat>)
    ensures |r| == n && forall k: nat :: k in r <==> k < n
  {
    if n == 0 then {} else Below(n - 1) + {n - 1}
  }

  // --- the operations

  datatype Error = Fine | Exists | NotFound | IsDirectory | NotDirectory | NotEmpty | NotPermitted | NoSpace

  /** Is this a directory of the file system? */
  predicate IsDir(nodes: seq<Node>, d: nat) {
    d < |nodes| && nodes[d].content.Dir?
  }

  predicate Has(nodes: seq<Node>, d: nat, x: string)
    requires IsDir(nodes, d)
  {
    x in nodes[d].content.ent
  }

  /** Bytes one node takes. */
  function Cost(node: Node): nat {
    128 + if node.content.File? then node.content.size else 0
  }

  /** What the nodes of a set take together. */
  ghost function Total(nodes: seq<Node>, seen: set<nat>, n: nat): nat
    requires n <= |nodes|
  {
    if n == 0 then 0 else Total(nodes, seen, n - 1) + if n - 1 in seen then Cost(nodes[n - 1]) else 0
  }

  lemma {:induction false} TotalMore(nodes: seq<Node>, seen: set<nat>, v: nat, n: nat)
    requires n <= |nodes| && v < |nodes| && v !in seen
    ensures Total(nodes, seen + {v}, n) == Total(nodes, seen, n) + if v < n then Cost(nodes[v]) else 0
  {
    if n > 0 { TotalMore(nodes, seen, v, n - 1); }
  }

  ghost predicate Reached(nodes: seq<Node>, id: nat) {
    exists path: seq<string> :: Walk(nodes, path, |path|) == Some(id)
  }

  lemma {:induction false} WalkSame(nodes: seq<Node>, path: seq<string>, longer: seq<string>, n: nat)
    requires n <= |path| && path <= longer
    ensures Walk(nodes, longer, n) == Walk(nodes, path, n)
  {
    if n > 0 { WalkSame(nodes, path, longer, n - 1); }
  }

  lemma ReachedOn(nodes: seq<Node>, d: nat, x: string, id: nat)
    requires Reached(nodes, d) && Entry(nodes, d, x, id)
    ensures Reached(nodes, id)
  {
    var path: seq<string> :| Walk(nodes, path, |path|) == Some(d);
    WalkSame(nodes, path, path + [x], |path|);
    assert Walk(nodes, path + [x], |path + [x]|) == Some(id);
  }

  /** Whatever an entry of a seen directory names is seen too. */
  ghost predicate ClosedFor(nodes: seq<Node>, seen: set<nat>, u: nat) {
    forall x, id: nat :: Entry(nodes, u, x, id) ==> id in seen
  }

  lemma {:induction false} ReachedSeen(nodes: seq<Node>, seen: set<nat>, path: seq<string>, n: nat)
    requires 0 in seen && (forall u :: u in seen ==> ClosedFor(nodes, seen, u)) && n <= |path| &&
             Walk(nodes, path, n).Some?
    ensures Walk(nodes, path, n).value in seen
  {
    if n > 0 {
      WalkEntry(nodes, path, n);
      ReachedSeen(nodes, seen, path, n - 1);
      assert ClosedFor(nodes, seen, Walk(nodes, path, n - 1).value);
    }
  }

  /** What everything below the root takes. */
  ghost predicate Takes(nodes: seq<Node>, n: nat) {
    exists seen: set<nat> :: AllReached(nodes, seen) && n == Total(nodes, seen, |nodes|)
  }

  ghost predicate AllReached(nodes: seq<Node>, seen: set<nat>) {
    forall id: nat :: id in seen <==> Reached(nodes, id)
  }

  ghost function RemoveAnswer(nodes: seq<Node>, d: nat, x: string, dir: bool): Error
    requires IsDir(nodes, d)
  {
    if !Has(nodes, d, x) then NotFound
    else if IsDir(nodes, nodes[d].content.ent[x]) then
      if !dir then IsDirectory else if nodes[nodes[d].content.ent[x]].content.ent != map[] then NotEmpty else Fine
    else if dir then NotDirectory else Fine
  }

  ghost function RenameAnswer(nodes: seq<Node>, a: nat, x: string, b: nat, y: string, same: bool): Error
    requires IsDir(nodes, a) && IsDir(nodes, b)
  {
    if !Has(nodes, a, x) then NotFound
    else if same || !Has(nodes, b, y) then Fine
    else
      var moved, replaced := IsDir(nodes, nodes[a].content.ent[x]), IsDir(nodes, nodes[b].content.ent[y]);
      if replaced && !moved then IsDirectory
      else if moved && !replaced then NotDirectory
      else if replaced && nodes[nodes[b].content.ent[y]].content.ent != map[] then NotEmpty
      else Fine
  }

  /** `/e/f` and `/d/f`, where `/d` is a link to `/e`, are one name of one file.
      Renaming one to the other passes every check and deletes the file's only name. */
  lemma AliasedRename()
    ensures var nodes := [Node(Dir(map["d" := 3, "e" := 1]), 0), Node(Dir(map["f" := 2]), 1), Node(File(5), 1),
                          Node(Sym("/e"), 1)];
            && RenameAnswer(nodes, 1, "f", 1, "f", false) == Fine
            && Renamed(nodes, 1, "f", 1, "f")[1] == Node(Dir(map[]), 1)
            && Renamed(nodes, 1, "f", 1, "f")[2] == Node(File(5), 0)
  {
    var ent: map<string, nat> := map["f" := 2];
    assert ent["f" := 2] - {"f"} == map[];
  }

  // --- what a renamed node is reached by

  ghost predicate PathOver(nodes: seq<Node>, p: seq<string>, k: nat, id: nat, v: nat) {
    k <= |p| && Walk(nodes, p, |p|) == Some(v) && Walk(nodes, p, k) == Some(id)
  }

  /** The node `v` is `id` or lies below it. */
  ghost predicate Under(nodes: seq<Node>, id: nat, v: nat) {
    exists p: seq<string>, k: nat :: PathOver(nodes, p, k, id, v)
  }

  /** The entries after renaming. */
  lemma RenamedEntry(nodes: seq<Node>, a: nat, x: string, b: nat, y: string, u: nat, z: string, v: nat)
    requires IsDir(nodes, a) && Has(nodes, a, x) && IsDir(nodes, b) && (a != b || x != y)
    ensures Entry(Renamed(nodes, a, x, b, y), u, z, v) <==>
            (u, z) != (a, x) && if (u, z) == (b, y) then v == nodes[a].content.ent[x] else Entry(nodes, u, z, v)
  {
    RenamedNames(nodes, a, x, b, y, v);
    EntryIn(Renamed(nodes, a, x, b, y), u, z, v);
    EntryIn(nodes, u, z, v);
  }

  lemma EntryWalks(nodes: seq<Node>, p: seq<string>, n: nat, v: nat)
    requires 0 < n <= |p| && Walk(nodes, p, n - 1).Some? && Entry(nodes, Walk(nodes, p, n - 1).value, p[n - 1], v)
    ensures Walk(nodes, p, n) == Some(v)
  {
  }

  /** A path to `b` that does not pass the renamed node is a path as before. */
  lemma {:induction false} WalkStays(nodes: seq<Node>, a: nat, x: string, b: nat, y: string, p: seq<string>, n: nat)
    requires Counted(nodes) && IsDir(nodes, a) && Has(nodes, a, x) && IsDir(nodes, b) && (a != b || x != y)
    requires Walk(nodes, p, |p|) == Some(b) && !Under(nodes, nodes[a].content.ent[x], b) && n <= |p|
    ensures Walk(nodes, p, n).Some? && Walk(Renamed(nodes, a, x, b, y), p, n) == Walk(nodes, p, n)
  {
    AllDirs(nodes, p, |p|, n);
    if n > 0 {
      var id, u, v := nodes[a].content.ent[x], Walk(nodes, p, n - 1).value, Walk(nodes, p, n).value;
      WalkStays(nodes, a, x, b, y, p, n - 1);
      WalkEntry(nodes, p, n);
      if u == b { UniquePath(nodes, p, |p|, p, n - 1); }
      assert PathOver(nodes, p, n, v, b);
      RenamedEntry(nodes, a, x, b, y, u, p[n - 1], v);
      EntryWalks(Renamed(nodes, a, x, b, y), p, n, v);
    }
  }

  /** A directory named by an entry lies below `id` only if it is `id` or the
      directory with the entry does. */
  lemma UnderParent(nodes: seq<Node>, id: nat, u: nat, z: string, v: nat)
    requires Counted(nodes) && Entry(nodes, u, z, v) && IsDir(nodes, v) && Under(nodes, id, v)
    ensures v == id || Under(nodes, id, u)
  {
    var p: seq<string>, k: nat :| PathOver(nodes, p, k, id, v);
    EntryInRange(nodes, u, z, v);
    if k < |p| {
      var q, w := p[..|p| - 1], Walk(nodes, p, |p| - 1).value;
      WalkEntry(nodes, p, |p|);
      OneName(nodes, v, u, z, w, p[|p| - 1]);
      WalkSame(nodes, q, p, |q|);
      WalkSame(nodes, q, p, k);
      assert PathOver(nodes, q, k, id, u);
    }
  }

  /** If `b` lies in the renamed directory, no path leads there any more. */
  lemma {:induction false} WalkAround(nodes: seq<Node>, a: nat, x: string, b: nat, y: string, q: seq<string>, n: nat)
    requires Counted(nodes) && IsDir(nodes, a) && Has(nodes, a, x) && IsDir(nodes, b) && (a != b || x != y)
    requires Under(nodes, nodes[a].content.ent[x], b) && n <= |q|
    requires IsDir(nodes, nodes[a].content.ent[x])
    ensures var v := Walk(Renamed(nodes, a, x, b, y), q, n);
            v.Some? && IsDir(nodes, v.value) ==> !Under(nodes, nodes[a].content.ent[x], v.value)
  {
    var id, t := nodes[a].content.ent[x], Renamed(nodes, a, x, b, y);
    EntryInRange(nodes, a, x, id);
    if n == 0 {
      if Under(nodes, id, 0) { RootAlone(nodes, id); }
    } else if Walk(t, q, n).Some? && IsDir(nodes, Walk(t, q, n).value) {
      var u, v := Walk(t, q, n - 1).value, Walk(t, q, n).value;
      WalkAround(nodes, a, x, b, y, q, n - 1);
      WalkEntry(t, q, n);
      RenamedNode(nodes, a, x, b, y, u);
      RenamedEntry(nodes, a, x, b, y, u, q[n - 1], v);
      if v == id { OneName(nodes, id, a, x, u, q[n - 1]); }
      if Under(nodes, id, v) { UnderParent(nodes, id, u, q[n - 1], v); }
    }
  }

  lemma RootAlone(nodes: seq<Node>, id: nat)
    requires Counted(nodes) && Under(nodes, id, 0)
    ensures id == 0
  {
    var p: seq<string>, k: nat :| PathOver(nodes, p, k, id, 0);
    assert Walk(nodes, [], 0) == Some(0);
    UniquePath(nodes, p, |p|, [], 0);
  }

  /** After a rename the node can be reached exactly when the directory with its new
      name does not lie in it. */
  lemma RenamedReached(nodes: seq<Node>, a: nat, x: string, b: nat, y: string)
    requires Counted(nodes) && IsDir(nodes, a) && Has(nodes, a, x) && IsDir(nodes, b) && (a != b || x != y)
    requires Reached(nodes, b)
    ensures var id := nodes[a].content.ent[x];
            Reached(Renamed(nodes, a, x, b, y), id) <==> !Under(nodes, id, b)
  {
    var id, t := nodes[a].content.ent[x], Renamed(nodes, a, x, b, y);
    EntryInRange(nodes, a, x, id);
    if Under(nodes, id, b) {
      var p: seq<string>, k: nat :| PathOver(nodes, p, k, id, b);
      AllDirs(nodes, p, |p|, k);
      WalkSame(nodes, p[..k], p, k);
      assert PathOver(nodes, p[..k], k, id, id);
      forall q: seq<string> ensures Walk(t, q, |q|) != Some(id) { WalkAround(nodes, a, x, b, y, q, |q|); }
    } else {
      var p: seq<string> :| Walk(nodes, p, |p|) == Some(b);
      WalkStays(nodes, a, x, b, y, p, |p|);
      RenamedEntry(nodes, a, x, b, y, b, y, id);
      assert Reached(t, b);
      ReachedOn(t, b, y, id);
    }
  }

  /** Renaming `/d` to `/d/e/f` succeeds, and `/d` with all it holds is gone. */
  lemma SwallowedRename()
    ensures var nodes := [Node(Dir(map["d" := 1]), 0), Node(Dir(map["e" := 2]), 1), Node(Dir(map[]), 1)];
            && RenameAnswer(nodes, 0, "d", 2, "f", false) == Fine
            && Counted(nodes) && Under(nodes, 1, 2) && !Reached(Renamed(nodes, 0, "d", 2, "f"), 1)
  {
    var nodes := [Node(Dir(map["d" := 1]), 0), Node(Dir(map["e" := 2]), 1), Node(Dir(map[]), 1)];
    assert Names(nodes, 1) == {(0, "d")} && Names(nodes, 2) == {(1, "e")};
    forall i: nat ensures CountedAt(nodes, i) {
      if i == 0 || i > 2 { assert Names(nodes, i) == {}; }
    }
    var p := ["d", "e"];
    assert Walk(nodes, p, 0) == Some(0) && Walk(nodes, p, 1) == Some(1) && Walk(nodes, p, 2) == Some(2);
    assert PathOver(nodes, p, 1, 1, 2);
    RenamedReached(nodes, 0, "d", 2, "f");
  }

  class Vfs {
    var nodes: seq<Node>
    const cap: nat

    ghost predicate Valid()
      reads this
    {
      Counted(nodes)
    }

    constructor (capacity: nat)
      ensures Valid() && nodes == [Node(Dir(map[]), 1)] && cap == capacity
    {
      nodes, cap := [Node(Dir(map[]), 1)], capacity;
    }

    /** Visit a node and all it leads to, once each. */
    method Visit(v: nat, seen: set<nat>, n: nat) returns (seen': set<nat>, n': nat)
      requires Valid() && v < |nodes| && seen <= Below(|nodes|)
      ensures seen + {v} <= seen' <= Below(|nodes|)
      ensures forall u :: u in seen' && u !in seen ==> ClosedFor(nodes, seen', u)
      ensures Reached(nodes, v) ==> forall u :: u in seen' && u !in seen ==> Reached(nodes, u)
      ensures n' - n == Total(nodes, seen', |nodes|) - Total(nodes, seen, |nodes|)
      decreases |nodes| - |seen|
    {
      seen', n' := seen, n;
      if v in seen { return; }
      seen', n' := seen + {v}, n + Cost(nodes[v]);
      TotalMore(nodes, seen, v, |nodes|);
      if nodes[v].content.Dir? {
        var ent := nodes[v].content.ent;
        var rest := ent.Keys;
        while rest != {}
          invariant rest <= ent.Keys && seen + {v} <= seen' <= Below(|nodes|)
          invariant forall x :: x in ent.Keys && x !in rest ==> ent[x] in seen'
          invariant forall u :: u in seen' && u !in seen && u != v ==> ClosedFor(nodes, seen', u)
          invariant Reached(nodes, v) ==> forall u :: u in seen' && u !in seen ==> Reached(nodes, u)
          invariant n' - n == Total(nodes, seen', |nodes|) - Total(nodes, seen, |nodes|)
          decreases |rest|
        {
          var x :| x in rest;
          rest := rest - {x};
          EntryInRange(nodes, v, x, ent[x]);
          if Reached(nodes, v) { ReachedOn(nodes, v, x, ent[x]); }
          Subset(seen + {v}, seen');
          OneMoreId(seen, v);
          Subset(seen', Below(|nodes|));
          seen', n' := Visit(ent[x], seen', n');
        }
      }
    }

    /** The bytes of everything that can be reached from the root, each node once. */
    method Used() returns (n: nat)
      requires Valid()
      ensures Takes(nodes, n)
    {
      var seen;
      ghost var here: seq<string> := [];
      assert Walk(nodes, here, |here|) == Some(0);
      NoTotal(nodes, |nodes|);
      seen, n := Visit(0, {}, 0);
      forall id: nat ensures id in seen <==> Reached(nodes, id) {
        if Reached(nodes, id) {
          var path: seq<string> :| Walk(nodes, path, |path|) == Some(id);
          ReachedSeen(nodes, seen, path, |path|);
        }
      }
    }

    /** Make a directory, a symbolic link or a device. */
    method Make(d: nat, x: string, content: Content) returns (e: Error)
      requires Valid() && IsDir(nodes, d) && !content.File? && (content.Dir? ==> content.ent == map[])
      modifies this
      ensures Valid()
      ensures e == if Has(old(nodes), d, x) then Exists else Fine
      ensures nodes == if e == Fine then Created(old(nodes), d, x, content) else old(nodes)
    {
      if Has(nodes, d, x) { return Exists; }
      CreatedCounted(nodes, d, x, content);
      nodes := Created(nodes, d, x, content);
      e := Fine;
    }

    /** Make a file, unless it would not fit. */
    method MakeFile(d: nat, x: string, size: nat) returns (e: Error)
      requires Valid() && IsDir(nodes, d)
      modifies this
      ensures Valid()
      ensures e == Exists <==> Has(old(nodes), d, x)
      ensures nodes == if e == Fine then Created(old(nodes), d, x, File(size)) else old(nodes)
      ensures e == Fine || e == Exists || e == NoSpace
      ensures e == Fine ==> exists n: nat :: Takes(nodes, n) && n <= cap
      ensures e == NoSpace ==> exists n: nat :: Takes(Created(old(nodes), d, x, File(size)), n) && n > cap
    {
      if Has(nodes, d, x) { return Exists; }
      var before := nodes;
      CreatedCounted(nodes, d, x, File(size));
      nodes := Created(nodes, d, x, File(size));
      var used := Used();
      if used > cap {
        // The entry goes again, and with it the only name of the new node
        nodes := before;
        return NoSpace;
      }
      e := Fine;
    }

    method Remove(d: nat, x: string, dir: bool) returns (e: Error)
      requires Valid() && IsDir(nodes, d)
      modifies this
      ensures Valid()
      ensures e == RemoveAnswer(old(nodes), d, x, dir)
      ensures e != Fine ==> nodes == old(nodes)
      ensures e == Fine ==> nodes == Removed(old(nodes), d, x)
    {
      if !Has(nodes, d, x) { return NotFound; }
      RemovedCounted(nodes, d, x);
      var n := nodes[d].content.ent[x];
      if nodes[n].content.Dir? {
        if !dir { return IsDirectory; }
        if nodes[n].content.ent != map[] { return NotEmpty; }
      } else if dir {
        return NotDirectory;
      }
      nodes := Removed(nodes, d, x);
      e := Fine;
    }

    method Link(n: nat, d: nat, x: string) returns (e: Error)
      requires Valid() && n < |nodes| && IsDir(nodes, d)
      modifies this
      ensures Valid()
      ensures e == if old(nodes[n].content.Dir?) then NotPermitted else if Has(old(nodes), d, x) then Exists else Fine
      ensures nodes == if e == Fine then Linked(old(nodes), d, x, n) else old(nodes)
    {
      if nodes[n].content.Dir? { return NotPermitted; }
      if Has(nodes, d, x) { return Exists; }
      LinkedCounted(nodes, d, x, n);
      nodes := Linked(nodes, d, x, n);
      e := Fine;
    }

    /** Give the node named x in a the name y in b; `same` says the two paths are
        written alike. */
    method Rename(a: nat, x: string, b: nat, y: string, same: bool) returns (e: Error)
      requires Valid() && IsDir(nodes, a) && IsDir(nodes, b) && (same ==> a == b && x == y)
      modifies this
      ensures Valid()
      ensures e == RenameAnswer(old(nodes), a, x, b, y, same)
      ensures e != Fine || same ==> nodes == old(nodes)
      ensures e == Fine && !same ==> nodes == Renamed(old(nodes), a, x, b, y)
      ensures e == Fine ==>
              |nodes| == |old(nodes)| && IsDir(nodes, b) && (Has(nodes, b, y) <==> same || a != b || x != y)
    {
      if !Has(nodes, a, x) { return NotFound; }
      if same { return Fine; }
      EntryInRange(nodes, a, x, nodes[a].content.ent[x]);
      var n := nodes[nodes[a].content.ent[x]];
      if Has(nodes, b, y) {
        EntryInRange(nodes, b, y, nodes[b].content.ent[y]);
        var old' := nodes[nodes[b].content.ent[y]];
        if old'.content.Dir? && !n.content.Dir? { return IsDirectory; }
        if n.content.Dir? && !old'.content.Dir? { return NotDirectory; }
        if old'.content.Dir? && old'.content.ent != map[] { return NotEmpty; }
      }
      RenamedCounted(nodes, a, x, b, y);
      nodes := Renamed(nodes, a, x, b, y);
      e := Fine;
    }

    /** All paths below a directory that hangs below the root. */
    method Paths(d: nat, base: seq<string>) returns (out: seq<seq<string>>)
      requires Valid() && Walk(nodes, base, |base|) == Some(d) && IsDir(nodes, d)
      ensures forall q :: q in out <==> base < q && Walk(nodes, q, |q|).Some?
      decreases |nodes| - |base|, 1
    {
      ShortPaths(nodes, base);
      out := [];
      var ent := nodes[d].content.ent;
      var rest := ent.Keys;
      while rest != {}
        invariant rest <= ent.Keys
        invariant forall q :: q in out <==> base < q && q[|base|] in ent.Keys - rest && Walk(nodes, q, |q|).Some?
        decreases |rest|
      {
        var k :| k in rest;
        rest := rest - {k};
        var sub := PathsFrom(d, base, k);
        out := out + sub;
      }
      forall q | base < q && Walk(nodes, q, |q|).Some? ensures q[|base|] in ent { FirstName(nodes, base, q, d); }
    }

    /** The path of one entry, and all paths below it. */
    method PathsFrom(d: nat, base: seq<string>, k: string) returns (out: seq<seq<string>>)
      requires Valid() && Walk(nodes, base, |base|) == Some(d) && IsDir(nodes, d) && Has(nodes, d, k) &&
               |base| < |nodes|
      ensures forall q :: q in out <==> base < q && q[|base|] == k && Walk(nodes, q, |q|).Some?
      decreases |nodes| - |base|, 0
    {
      var here, v := base + [k], nodes[d].content.ent[k];
      EntryInRange(nodes, d, k, v);
      WalkSame(nodes, base, here, |base|);
      assert Walk(nodes, here, |here|) == Some(v);
      out := [here];
      if nodes[v].content.Dir? {
        var sub := Paths(v, here);
        out := out + sub;
      }
      forall q ensures q in out <==> base < q && q[|base|] == k && Walk(nodes, q, |q|).Some? {
        Beyond(base, k, q);
        if here < q && Walk(nodes, q, |q|).Some? { DeeperPath(nodes, here, q, v); }
      }
    }
  }

  /** A path goes on from `base` with `k` when it is that path or a longer one. */
  lemma Beyond(base: seq<string>, k: string, q: seq<string>)
    ensures base < q && q[|base|] == k <==> q == base + [k] || base + [k] < q
  {
    if base < q && q[|base|] == k && |q| == |base| + 1 { assert q == base + [k]; }
  }

  /** A longer path goes through the node its prefix leads to. */
  lemma DeeperPath(nodes: seq<Node>, q: seq<string>, p: seq<string>, v: nat)
    requires q < p && Walk(nodes, q, |q|) == Some(v) && Walk(nodes, p, |p|).Some?
    ensures IsDir(nodes, v)
  {
    FirstName(nodes, q, p, v);
  }

  lemma {:induction false} FirstName(nodes: seq<Node>, base: seq<string>, q: seq<string>, d: nat)
    requires base < q && Walk(nodes, base, |base|) == Some(d) && Walk(nodes, q, |q|).Some?
    ensures IsDir(nodes, d) && q[|base|] in nodes[d].content.ent
    decreases |q|
  {
    if |q| > |base| + 1 {
      WalkEntry(nodes, q, |q|);
      WalkSame(nodes, q[..|q| - 1], q, |q| - 1);
      FirstName(nodes, base, q[..|q| - 1], d);
    } else {
      WalkSame(nodes, base, q, |base|);
    }
  }

  lemma OneMoreId(seen: set<nat>, v: nat)
    requires v !in seen
    ensures |seen + {v}| == |seen| + 1
  {
  }

  lemma {:induction false} NoTotal(nodes: seq<Node>, n: nat)
    requires n <= |nodes|
    ensures Total(nodes, {}, n) == 0
  {
    if n > 0 { NoTotal(nodes, n - 1); }
  }
}
