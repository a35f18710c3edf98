/** What a dump looks like: every node under each of its names, a directory
    before what it holds, and below a directory exactly what it lists. */
module TreeShapes {
  import opened Sorting
  import opened HostTrees

  function Parent(p: Path): Path
    requires p != []
  {
    p[..|p| - 1]
  }

  function ChildOf(q: Path): Entry -> bool {
    (x: Entry) => x.path != [] && x.path[..|x.path| - 1] == q
  }

  function Label(x: Entry): (Name, nat) {
    (if x.path == [] then "" else x.path[|x.path| - 1], x.id)
  }

  function Labels(s: seq<Entry>): (r: seq<(Name, nat)>)
    ensures |r| == |s| && forall i :: 0 <= i < |s| ==> r[i] == Label(s[i])
  {
    seq(|s|, i requires 0 <= i < |s| => Label(s[i]))
  }

  /** The names and numbers that a list of entries has below a path. */
  function Kids(s: seq<Entry>, q: Path): seq<(Name, nat)> {
    Labels(Filter(s, ChildOf(q)))
  }

  lemma KidsJoin(a: seq<Entry>, b: seq<Entry>, q: Path)
    ensures Kids(a + b, q) == Kids(a, q) + Kids(b, q)
  {
    FilterJoins(a, b, ChildOf(q));
  }

  lemma NoKids(s: seq<Entry>, q: Path)
    requires forall x {:trigger x in s} :: x in s && x.path != [] ==> Parent(x.path) != q
    ensures Kids(s, q) == []
  {
    forall i | 0 <= i < |s| ensures !ChildOf(q)(s[i]) { assert s[i] in s; }
    FilterNothing(s, ChildOf(q));
  }

  function NotDevice(nodes: seq<Node>): ((Name, nat)) -> bool {
    (e: (Name, nat)) => e.1 < |nodes| && !nodes[e.1].body.Chr?
  }

  /** What a dump shows of a directory. */
  function Visible(nodes: seq<Node>, es: seq<(Name, nat)>): seq<(Name, nat)> {
    Filter(es, NotDevice(nodes))
  }

  /** The names with the numbers of their nodes. */
  function Numbers(ids: map<nat, nat>, es: seq<(Name, nat)>): (r: seq<(Name, nat)>)
    ensures |r| == |es|
    ensures forall i :: 0 <= i < |es| ==> r[i] == (es[i].0, if es[i].1 in ids then ids[es[i].1] else 0)
  {
    seq(|es|, i requires 0 <= i < |es| => (es[i].0, if es[i].1 in ids then ids[es[i].1] else 0))
  }

  ghost predicate Extends(ids: map<nat, nat>, ids': map<nat, nat>) {
    forall n {:trigger ids[n]} {:trigger n in ids'} :: n in ids ==> n in ids' && ids'[n] == ids[n]
  }

  /** Numbers are given out in order, one to each node. */
  ghost predicate Counted(t: Trail) {
    && 0 < t.next
    && (forall n {:trigger t.ids[n]} :: n in t.ids ==> 0 < t.ids[n] < t.next)
    && (forall m, n {:trigger t.ids[m], t.ids[n]} :: m in t.ids && n in t.ids && t.ids[m] == t.ids[n] ==> m == n)
  }

  ghost predicate Entered(nodes: seq<Node>, ids: map<nat, nat>, x: Entry, n: nat) {
    n in ids && n < |nodes| && !nodes[n].body.Chr? && x == EntryOf(nodes[n], x.path, ids[n])
  }

  /** Below a directory stands what it lists. */
  ghost predicate Filled(nodes: seq<Node>, order: Name -> int, ids: map<nat, nat>, block: seq<Entry>, x: Entry,
                         n: nat) {
    n < |nodes| && nodes[n].body.Dir? ==>
      (forall e {:trigger e in Visible(nodes, Listing(nodes[n].body.ent, order))} ::
         e in Visible(nodes, Listing(nodes[n].body.ent, order)) ==> e.1 in ids) &&
      Kids(block, x.path) == Numbers(ids, Visible(nodes, Listing(nodes[n].body.ent, order)))
  }

  /** A stretch of a dump, `who` the nodes of its entries. */
  ghost predicate Block(nodes: seq<Node>, order: Name -> int, ids: map<nat, nat>, block: seq<Entry>, who: seq<nat>) {
    && |who| == |block|
    && (forall i {:trigger block[i]} :: 0 <= i < |block| ==> Entered(nodes, ids, block[i], who[i]))
    && (forall i {:trigger block[i]} :: 0 <= i < |block| ==> Filled(nodes, order, ids, block, block[i], who[i]))
    && (forall i, j {:trigger block[i], block[j]} :: 0 <= i < j < |block| ==> block[i].path != block[j].path)
  }

  /** Everything is below `p`; an entry not directly below it follows its directory. */
  ghost predicate Parented(block: seq<Entry>, p: Path) {
    forall i {:trigger block[i]} :: 0 <= i < |block| ==>
      p < block[i].path && (Parent(block[i].path) == p || Preceded(block, i))
  }

  ghost predicate Preceded(block: seq<Entry>, i: nat)
    requires i < |block| && block[i].path != []
  {
    exists j {:trigger block[j]} :: 0 <= j < i && block[j].path == Parent(block[i].path) && block[j].shape == DirShape
  }

  lemma BlockGrows(nodes: seq<Node>, order: Name -> int, ids: map<nat, nat>, ids': map<nat, nat>, block: seq<Entry>,
                   who: seq<nat>)
    requires Block(nodes, order, ids, block, who) && Extends(ids, ids')
    ensures Block(nodes, order, ids', block, who)
  {
    forall i {:trigger block[i]} | 0 <= i < |block| ensures Filled(nodes, order, ids', block, block[i], who[i]) {
      FilledGrows(nodes, order, ids, ids', block, block[i], who[i]);
    }
  }

  lemma FilledGrows(nodes: seq<Node>, order: Name -> int, ids: map<nat, nat>, ids': map<nat, nat>, block: seq<Entry>,
                    x: Entry, n: nat)
    requires Filled(nodes, order, ids, block, x, n) && Extends(ids, ids')
    ensures Filled(nodes, order, ids', block, x, n)
  {
    if n < |nodes| && nodes[n].body.Dir? {
      NumbersGrow(ids, ids', Visible(nodes, Listing(nodes[n].body.ent, order)));
    }
  }

  lemma NumbersGrow(ids: map<nat, nat>, ids': map<nat, nat>, es: seq<(Name, nat)>)
    requires Extends(ids, ids') && forall e {:trigger e in es} :: e in es ==> e.1 in ids
    ensures Numbers(ids', es) == Numbers(ids, es)
  {
    forall i | 0 <= i < |es| ensures Numbers(ids', es)[i] == Numbers(ids, es)[i] { assert es[i] in es; }
  }

  /** Neither stretch is below the other. */
  ghost predicate Apart(a: seq<Entry>, b: seq<Entry>) {
    forall x, y {:trigger x in a, y in b} :: x in a && y in b ==> !(x.path <= y.path) && !(y.path <= x.path)
  }

  lemma BlocksJoin(nodes: seq<Node>, order: Name -> int, ids: map<nat, nat>, a: seq<Entry>, v: seq<nat>, b: seq<Entry>,
                   w: seq<nat>)
    requires Block(nodes, order, ids, a, v) && Block(nodes, order, ids, b, w) && Apart(a, b)
    ensures Block(nodes, order, ids, a + b, v + w)
  {
    var c, u := a + b, v + w;
    forall i {:trigger c[i]} | 0 <= i < |c|
      ensures Entered(nodes, ids, c[i], u[i]) && Filled(nodes, order, ids, c, c[i], u[i])
    {
      KidsJoin(a, b, c[i].path);
      if i < |a| {
        assert c[i] == a[i] && a[i] in a;
        forall y {:trigger y in b} | y in b && y.path != [] ensures Parent(y.path) != a[i].path {}
        NoKids(b, a[i].path);
      } else {
        assert c[i] == b[i - |a|] && b[i - |a|] in b;
        forall y {:trigger y in a} | y in a && y.path != [] ensures Parent(y.path) != b[i - |a|].path {}
        NoKids(a, b[i - |a|].path);
      }
    }
    forall i, j {:trigger c[i], c[j]} | 0 <= i < j < |c| ensures c[i].path != c[j].path {
      if i < |a| && j >= |a| { assert c[i] in a && c[j] in b; }
    }
  }

  /** A directory before what is below it. */
  /** An entry in front adds nothing to a directory at or below its path. */
  lemma HeadFills(nodes: seq<Node>, order: Name -> int, ids: map<nat, nat>, x: Entry, b: seq<Entry>, y: Entry, n: nat)
    requires Filled(nodes, order, ids, b, y, n) && x.path <= y.path
    ensures Filled(nodes, order, ids, [x] + b, y, n)
  {
    KidsJoin([x], b, y.path);
    NoKids([x], y.path);
  }

  lemma HeadAt(nodes: seq<Node>, order: Name -> int, ids: map<nat, nat>, x: Entry, n: nat, b: seq<Entry>,
               w: seq<nat>, i: nat)
    requires Block(nodes, order, ids, b, w) && Parented(b, x.path) && Entered(nodes, ids, x, n)
    requires Filled(nodes, order, ids, b, x, n) && i <= |b|
    ensures Entered(nodes, ids, ([x] + b)[i], ([n] + w)[i])
    ensures Filled(nodes, order, ids, [x] + b, ([x] + b)[i], ([n] + w)[i])
  {
    if i == 0 {
      HeadFills(nodes, order, ids, x, b, x, n);
    } else {
      AllBelow(b, x.path);
      HeadFills(nodes, order, ids, x, b, b[i - 1], w[i - 1]);
    }
  }

  lemma AllBelow(b: seq<Entry>, p: Path)
    requires Parented(b, p)
    ensures forall i {:trigger b[i]} :: 0 <= i < |b| ==> p < b[i].path
  {
  }

  lemma HeadApart(x: Entry, b: seq<Entry>)
    requires forall i {:trigger b[i]} :: 0 <= i < |b| ==> x.path < b[i].path
    requires forall i, j {:trigger b[i], b[j]} :: 0 <= i < j < |b| ==> b[i].path != b[j].path
    ensures forall i, j {:trigger ([x] + b)[i], ([x] + b)[j]} :: 0 <= i < j < |[x] + b| ==>
              ([x] + b)[i].path != ([x] + b)[j].path
  {
    var c := [x] + b;
    forall i, j {:trigger c[i], c[j]} | 0 <= i < j < |c| ensures c[i].path != c[j].path {
      assert c[j] == b[j - 1] && (i > 0 ==> c[i] == b[i - 1]);
    }
  }

  lemma HeadJoins(nodes: seq<Node>, order: Name -> int, ids: map<nat, nat>, x: Entry, n: nat, b: seq<Entry>,
                  w: seq<nat>)
    requires Block(nodes, order, ids, b, w) && Parented(b, x.path) && Entered(nodes, ids, x, n)
    requires Filled(nodes, order, ids, b, x, n)
    ensures Block(nodes, order, ids, [x] + b, [n] + w)
  {
    var c, u := [x] + b, [n] + w;
    forall i {:trigger c[i]} | 0 <= i < |c|
      ensures Entered(nodes, ids, c[i], u[i]) && Filled(nodes, order, ids, c, c[i], u[i])
    {
      HeadAt(nodes, order, ids, x, n, b, w, i);
    }
    AllBelow(b, x.path);
    HeadApart(x, b);
  }

  // --- the walk

  ghost predicate NamedOnce(es: seq<(Name, nat)>) {
    Distinct(es) && forall e, f {:trigger e in es, f in es} :: e in es && f in es && e.0 == f.0 ==> e == f
  }

  /** No directory has a name twice. */
  ghost predicate Plain(nodes: seq<Node>, rank: map<nat, nat>) {
    forall d {:trigger rank[d]} :: d in rank && d < |nodes| && nodes[d].body.Dir? ==> NamedOnce(nodes[d].body.ent)
  }

  lemma ListingNamedOnce(ent: seq<(Name, nat)>, order: Name -> int)
    requires NamedOnce(ent)
    ensures NamedOnce(Listing(ent, order))
  {
    SortKeeps(ent, ByName(order));
    SortDistinct(ent, ByName(order));
  }

  /** The nodes numbered since are among `who`. */
  ghost predicate Met(ids: map<nat, nat>, ids': map<nat, nat>, who: seq<nat>) {
    forall m {:trigger m in ids'} :: m in ids' ==> m in ids || m in who
  }

  lemma MetOn(a: map<nat, nat>, b: map<nat, nat>, c: map<nat, nat>, v: seq<nat>, w: seq<nat>)
    requires Met(a, b, v) && Met(b, c, w)
    ensures Met(a, c, v + w)
  {
  }

  /** The walk of one node adds a block: the node, then what is below it. */
  ghost predicate Walked(nodes: seq<Node>, order: Name -> int, n: nat, p: Path, t: Trail, u: Trail, block: seq<Entry>,
                         who: seq<nat>) {
    && u.out == t.out + block && Counted(u) && Extends(t.ids, u.ids) && n < |nodes| && Met(t.ids, u.ids, who)
    && Block(nodes, order, u.ids, block, who)
    && if nodes[n].body.Chr? then block == []
       else 0 < |block| && block[0].path == p && who[0] == n && Parented(block[1..], p) &&
            (|block| > 1 ==> block[0].shape == DirShape)
  }

  /** The names stand below `p` in the order listed, from the `k`-th on. */
  ghost predicate Headed(block: seq<Entry>, es: seq<(Name, nat)>, k: nat, p: Path) {
    forall x {:trigger x in block} :: x in block ==>
      p < x.path && exists m {:trigger es[m]} :: k <= m < |es| && es[m].0 == x.path[|p|]
  }

  ghost predicate AllIn(ids: map<nat, nat>, es: seq<(Name, nat)>) {
    forall e {:trigger e in es} :: e in es ==> e.1 in ids
  }

  ghost predicate AllWalked(nodes: seq<Node>, order: Name -> int, es: seq<(Name, nat)>, k: nat, p: Path, t: Trail,
                            u: Trail, block: seq<Entry>, who: seq<nat>)
    requires k <= |es|
  {
    && u.out == t.out + block && Counted(u) && Extends(t.ids, u.ids) && Met(t.ids, u.ids, who)
    && Block(nodes, order, u.ids, block, who) && Parented(block, p) && Headed(block, es, k, p)
    && AllIn(u.ids, Visible(nodes, es[k..])) && Kids(block, p) == Numbers(u.ids, Visible(nodes, es[k..]))
  }

  lemma NumberedCounts(t: Trail, n: nat)
    requires Counted(t)
    ensures Counted(Numbered(t, n)) && Extends(t.ids, Numbered(t, n).ids) && n in Numbered(t, n).ids
    ensures Numbered(t, n).out == t.out
  {
  }

  /** What is below a directory fills it. */
  lemma DirFilled(nodes: seq<Node>, order: Name -> int, n: nat, p: Path, v: Trail, u: Trail, x: Entry, b: seq<Entry>,
                  w: seq<nat>, es: seq<(Name, nat)>)
    requires n < |nodes| && nodes[n].body.Dir? && x.path == p && es == Listing(nodes[n].body.ent, order)
    requires AllWalked(nodes, order, es, 0, p, v, u, b, w)
    ensures Filled(nodes, order, u.ids, b, x, n)
  {
    assert es[0..] == es;
  }

  lemma DirWalked(nodes: seq<Node>, order: Name -> int, n: nat, p: Path, t: Trail, r: Trail, v: Trail, u: Trail,
                  x: Entry, b: seq<Entry>, w: seq<nat>, es: seq<(Name, nat)>)
    requires Counted(t) && r == Numbered(t, n) && n < |nodes| && nodes[n].body.Dir?
    requires n in r.ids && x == EntryOf(nodes[n], p, r.ids[n]) && v == r.(out := r.out + [x])
    requires es == Listing(nodes[n].body.ent, order) && AllWalked(nodes, order, es, 0, p, v, u, b, w)
    ensures Walked(nodes, order, n, p, t, u, [x] + b, [n] + w)
  {
    NumberedCounts(t, n);
    DirFilled(nodes, order, n, p, v, u, x, b, w, es);
    assert n in v.ids && u.ids[n] == r.ids[n];
    HeadJoins(nodes, order, u.ids, x, n, b, w);
    ExtendsOn(t.ids, r.ids, u.ids);
    MetOn(t.ids, r.ids, u.ids, [n], w);
    Associates(t.out, [x], b);
    HeadTaken(x, b);
  }

  /** What stands under a child's path. */
  ghost predicate ChildBlock(block: seq<Entry>, c: Path) {
    forall x {:trigger x in block} :: x in block ==> c <= x.path
  }

  lemma WalkedUnder(nodes: seq<Node>, order: Name -> int, n: nat, c: Path, t: Trail, u: Trail, block: seq<Entry>,
                    who: seq<nat>)
    requires Walked(nodes, order, n, c, t, u, block, who)
    ensures ChildBlock(block, c)
  {
    forall x {:trigger x in block} | x in block ensures c <= x.path {
      var i :| 0 <= i < |block| && block[i] == x;
      if i > 0 { assert block[1..][i - 1] == x; }
    }
  }

  lemma ChildrenApart(a: seq<Entry>, c: Path, b: seq<Entry>, es: seq<(Name, nat)>, k: nat, p: Path)
    requires k < |es| && NamedOnce(es) && c == p + [es[k].0] && ChildBlock(a, c) && Headed(b, es, k + 1, p)
    ensures Apart(a, b)
  {
    forall x, y {:trigger x in a, y in b} | x in a && y in b ensures !(x.path <= y.path) && !(y.path <= x.path) {
      assert x.path[|p|] == c[|p|] == es[k].0;
      var m :| k + 1 <= m < |es| && es[m].0 == y.path[|p|];
      assert es[k] in es && es[m] in es;
      DistinctAt(es, k, m);
    }
  }

  /** An entry keeps the directory before it when its list becomes part of another. */
  lemma PrecededIn(before: seq<Entry>, es: seq<Entry>, behind: seq<Entry>, all: seq<Entry>, i: nat)
    requires all == before + es + behind && i < |es| && es[i].path != [] && Preceded(es, i)
    ensures all[|before| + i].path != [] && Preceded(all, |before| + i)
  {
    var j :| 0 <= j < i && es[j].path == Parent(es[i].path) && es[j].shape == DirShape;
    assert all[|before| + j] == es[j] && all[|before| + i] == es[i];
  }

  lemma InFirst(a: seq<Entry>, c: Path, b: seq<Entry>, i: nat)
    requires 0 < i < |a| && a[0].path == c && a[0].shape == DirShape && Parented(a[1..], c)
    ensures c < (a + b)[i].path && Preceded(a + b, i)
  {
    var r := a + b;
    assert r[i] == a[1..][i - 1] && r[0] == a[0];
    if Parent(r[i].path) != c {
      assert r == [a[0]] + a[1..] + b;
      PrecededIn([a[0]], a[1..], b, r, i - 1);
    }
  }

  lemma InSecond(a: seq<Entry>, b: seq<Entry>, p: Path, i: nat)
    requires i < |b| && Parented(b, p)
    ensures var r := a + b; p < r[|a| + i].path && (Parent(r[|a| + i].path) == p || Preceded(r, |a| + i))
  {
    var r := a + b;
    assert r[|a| + i] == b[i];
    if Parent(b[i].path) != p {
      assert r == a + b + [];
      PrecededIn(a, b, [], r, i);
    }
  }

  lemma ParentedJoin(a: seq<Entry>, c: Path, b: seq<Entry>, p: Path)
    requires c != [] && Parent(c) == p && Parented(b, p)
    requires a != [] ==> a[0].path == c && Parented(a[1..], c) && (|a| > 1 ==> a[0].shape == DirShape)
    ensures Parented(a + b, p)
  {
    var r := a + b;
    forall i {:trigger r[i]} | 0 <= i < |r| ensures p < r[i].path && (Parent(r[i].path) == p || Preceded(r, i)) {
      if 0 < i < |a| { InFirst(a, c, b, i); }
      if i >= |a| { InSecond(a, b, p, i - |a|); }
    }
  }

  /** Of a child's block, only the child itself is directly below the directory. */
  lemma ChildKids(nodes: seq<Node>, order: Name -> int, e: (Name, nat), p: Path, t: Trail, u: Trail, block: seq<Entry>,
                  who: seq<nat>, ids: map<nat, nat>)
    requires Walked(nodes, order, e.1, p + [e.0], t, u, block, who) && Extends(u.ids, ids)
    ensures Kids(block, p) == Numbers(ids, if NotDevice(nodes)(e) then [e] else [])
    ensures NotDevice(nodes)(e) ==> e.1 in ids
  {
    if block != [] {
      var x, rest := block[0], block[1..];
      forall y {:trigger y in rest} | y in rest && y.path != [] ensures Parent(y.path) != p {
        var i :| 0 <= i < |rest| && rest[i] == y;
        assert p + [e.0] < rest[i].path;
      }
      NoKids(rest, p);
      KidsJoin([x], rest, p);
      assert [x] + rest == block;
      assert Entered(nodes, u.ids, x, e.1);
      assert x.path[..|x.path| - 1] == p;
      assert Filter([x][1..], ChildOf(p)) == [];
      assert Filter([x], ChildOf(p)) == [x];
    } else {
      assert Filter(block, ChildOf(p)) == [];
    }
  }

  lemma VisibleFrom(nodes: seq<Node>, es: seq<(Name, nat)>, k: nat)
    requires k < |es|
    ensures Visible(nodes, es[k..]) == (if NotDevice(nodes)(es[k]) then [es[k]] else []) + Visible(nodes, es[k + 1..])
  {
    assert es[k..][1..] == es[k + 1..];
  }

  lemma NumbersJoin(ids: map<nat, nat>, a: seq<(Name, nat)>, b: seq<(Name, nat)>)
    ensures Numbers(ids, a + b) == Numbers(ids, a) + Numbers(ids, b)
  {
  }

  lemma ChildBlocksJoin(nodes: seq<Node>, order: Name -> int, es: seq<(Name, nat)>, k: nat, p: Path, t: Trail,
                        m: Trail, ids: map<nat, nat>, a: seq<Entry>, v: seq<nat>, b: seq<Entry>, w: seq<nat>)
    requires k < |es| && NamedOnce(es) && Walked(nodes, order, es[k].1, p + [es[k].0], t, m, a, v)
    requires Extends(m.ids, ids) && Block(nodes, order, ids, b, w) && Headed(b, es, k + 1, p)
    ensures Block(nodes, order, ids, a + b, v + w) && Headed(a + b, es, k, p)
  {
    var c := p + [es[k].0];
    WalkedUnder(nodes, order, es[k].1, c, t, m, a, v);
    ChildrenApart(a, c, b, es, k, p);
    BlockGrows(nodes, order, m.ids, ids, a, v);
    BlocksJoin(nodes, order, ids, a, v, b, w);
    HeadedJoin(a, c, b, es, k, p);
  }

  lemma ChildKidsJoin(nodes: seq<Node>, es: seq<(Name, nat)>, k: nat, p: Path, ids: map<nat, nat>, a: seq<Entry>,
                      b: seq<Entry>, first: seq<(Name, nat)>)
    requires k < |es| && first == (if NotDevice(nodes)(es[k]) then [es[k]] else [])
    requires AllIn(ids, first) && Kids(a, p) == Numbers(ids, first)
    requires AllIn(ids, Visible(nodes, es[k + 1..])) && Kids(b, p) == Numbers(ids, Visible(nodes, es[k + 1..]))
    ensures AllIn(ids, Visible(nodes, es[k..])) && Kids(a + b, p) == Numbers(ids, Visible(nodes, es[k..]))
  {
    KidsJoin(a, b, p);
    VisibleFrom(nodes, es, k);
    NumbersJoin(ids, first, Visible(nodes, es[k + 1..]));
  }

  lemma Associates(a: seq<Entry>, b: seq<Entry>, c: seq<Entry>)
    ensures a + (b + c) == a + b + c
  {
  }

  lemma HeadTaken(x: Entry, b: seq<Entry>)
    ensures ([x] + b)[1..] == b
  {
  }

  lemma ExtendsOn(a: map<nat, nat>, b: map<nat, nat>, c: map<nat, nat>)
    requires Extends(a, b) && Extends(b, c)
    ensures Extends(a, c)
  {
  }

  /** The block of one child, then those of the rest. */
  lemma ChildJoins(nodes: seq<Node>, order: Name -> int, es: seq<(Name, nat)>, k: nat, p: Path, t: Trail, m: Trail,
                   u: Trail, a: seq<Entry>, v: seq<nat>, b: seq<Entry>, w: seq<nat>)
    requires k < |es| && NamedOnce(es) && Walked(nodes, order, es[k].1, p + [es[k].0], t, m, a, v)
    requires AllWalked(nodes, order, es, k + 1, p, m, u, b, w)
    ensures AllWalked(nodes, order, es, k, p, t, u, a + b, v + w)
  {
    ChildBlocksJoin(nodes, order, es, k, p, t, m, u.ids, a, v, b, w);
    ChildKids(nodes, order, es[k], p, t, m, a, v, u.ids);
    ChildKidsJoin(nodes, es, k, p, u.ids, a, b, if NotDevice(nodes)(es[k]) then [es[k]] else []);
    ExtendsOn(t.ids, m.ids, u.ids);
    MetOn(t.ids, m.ids, u.ids, v, w);
    ChildParented(nodes, order, es[k], p, t, m, a, v, b);
    Associates(t.out, a, b);
  }

  lemma ChildParented(nodes: seq<Node>, order: Name -> int, e: (Name, nat), p: Path, t: Trail, m: Trail, a: seq<Entry>,
                      v: seq<nat>, b: seq<Entry>)
    requires Walked(nodes, order, e.1, p + [e.0], t, m, a, v) && Parented(b, p)
    ensures Parented(a + b, p)
  {
    assert Parent(p + [e.0]) == p;
    ParentedJoin(a, p + [e.0], b, p);
  }

  lemma HeadedJoin(a: seq<Entry>, c: Path, b: seq<Entry>, es: seq<(Name, nat)>, k: nat, p: Path)
    requires k < |es| && c == p + [es[k].0] && ChildBlock(a, c) && Headed(b, es, k + 1, p)
    ensures Headed(a + b, es, k, p)
  {
    forall x {:trigger x in a + b} | x in a + b
      ensures p < x.path && exists m {:trigger es[m]} :: k <= m < |es| && es[m].0 == x.path[|p|]
    {
      if x in a {
        assert x.path[|p|] == c[|p|] == es[k].0;
      } else {
        assert x in b;
      }
    }
  }

  lemma {:induction false} GoShape(nodes: seq<Node>, order: Name -> int, rank: map<nat, nat>, n: nat, p: Path, t: Trail)
    returns (block: seq<Entry>, who: seq<nat>)
    requires Ranked(nodes, rank) && Plain(nodes, rank) && n in rank && Counted(t)
    ensures Walked(nodes, order, n, p, t, Go(nodes, order, rank, n, p, t), block, who)
    decreases rank[n], 1, 0
  {
    var u := Go(nodes, order, rank, n, p, t);
    if nodes[n].body.Chr? {
      block, who := [], [];
      assert t.out + block == t.out;
      return;
    }
    NumberedCounts(t, n);
    var r := Numbered(t, n);
    var x := EntryOf(nodes[n], p, r.ids[n]);
    var v := r.(out := r.out + [x]);
    if nodes[n].body.Dir? {
      var es := Listing(nodes[n].body.ent, order);
      ListingBelow(rank, n, nodes[n].body.ent, order);
      ListingNamedOnce(nodes[n].body.ent, order);
      var b, w := GoAllShape(nodes, order, rank, n, es, 0, p, v);
      block, who := [x] + b, [n] + w;
      DirWalked(nodes, order, n, p, t, r, v, u, x, b, w, es);
    } else {
      block, who := [x], [n];
    }
  }

  lemma {:induction false} GoAllShape(nodes: seq<Node>, order: Name -> int, rank: map<nat, nat>, d: nat,
                                      es: seq<(Name, nat)>, k: nat, p: Path, t: Trail)
    returns (block: seq<Entry>, who: seq<nat>)
    requires Ranked(nodes, rank) && Plain(nodes, rank) && d in rank && Below(rank, d, es) && k <= |es| && Counted(t)
    requires NamedOnce(es)
    ensures AllWalked(nodes, order, es, k, p, t, GoAll(nodes, order, rank, d, es, k, p, t), block, who)
    decreases rank[d], 0, |es| - k
  {
    var u := GoAll(nodes, order, rank, d, es, k, p, t);
    if k == |es| {
      block, who := [], [];
      assert t.out + block == t.out && es[k..] == [];
      assert Filter(block, ChildOf(p)) == [];
    } else {
      assert es[k] in es;
      var m := Go(nodes, order, rank, es[k].1, p + [es[k].0], t);
      var a, v := GoShape(nodes, order, rank, es[k].1, p + [es[k].0], t);
      var b, w := GoAllShape(nodes, order, rank, d, es, k + 1, p, m);
      block, who := a + b, v + w;
      ChildJoins(nodes, order, es, k, p, t, m, u, a, v, b, w);
    }
  }
}
