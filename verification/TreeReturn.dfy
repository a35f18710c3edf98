/** A dumped tree comes back: the loaded nodes mirror the dumped ones, so the
    next dump gives the same entries. */
module TreeReturn {
  import opened Sorting
  import opened HostTrees
  import opened TreeShapes
  import opened TreeLoading
  import opened TreeRoundTrip

  // --- a dump spells a tree, also when its entries are sorted by depth

  lemma DumpOnePath(nodes: seq<Node>, order: Name -> int, base: nat, ids: map<nat, nat>, es: seq<Entry>, who: seq<nat>)
    requires Told(nodes, order, base, ids, es, who)
    ensures OnePath(es)
  {
    forall i, j {:trigger es[i], es[j]} | 0 <= i < j < |es| ensures es[i] != es[j] {}
    DistinctWhen(es);
  }

  lemma DumpOneNode(nodes: seq<Node>, order: Name -> int, base: nat, ids: map<nat, nat>, es: seq<Entry>, who: seq<nat>)
    requires Told(nodes, order, base, ids, es, who) && Treelike(nodes, base)
    ensures OneNode(es) && Summed(es)
  {
    forall x, y {:trigger x in es, y in es} | x in es && y in es && x.id == y.id
      ensures x.attr == y.attr && x.shape == y.shape && (x.shape == DirShape ==> x == y)
    {
      var i :| 0 <= i < |es| && es[i] == x;
      var j :| 0 <= j < |es| && es[j] == y;
      assert Entered(nodes, ids, es[i], who[i]) && Entered(nodes, ids, es[j], who[j]);
      if x.shape == DirShape { DirsOnce(nodes, order, base, ids, es, who, i, j); }
    }
    forall x {:trigger x in es} | x in es && x.shape.FileShape? ensures x.shape.sum.Some? {
      var i :| 0 <= i < |es| && es[i] == x;
      assert Entered(nodes, ids, es[i], who[i]);
    }
  }

  lemma DumpParentsFirst(nodes: seq<Node>, order: Name -> int, base: nat, ids: map<nat, nat>, es: seq<Entry>,
                         who: seq<nat>)
    requires Told(nodes, order, base, ids, es, who)
    ensures ParentsFirst(es)
  {
    assert Entered(nodes, ids, es[0], who[0]);
    assert 0 < |es| && es[0].path == [] && es[0].shape == DirShape;
    forall i {:trigger es[i]} | 0 < i < |es| ensures es[i].path != [] && Preceded(es, i) {
      var j := ToldParent(nodes, order, base, ids, es, who, i);
    }
    ParentsStand(es);
  }

  lemma ParentsStand(es: seq<Entry>)
    requires 0 < |es| && es[0].path == [] && es[0].shape == DirShape
    requires forall i :: 0 < i < |es| ==> es[i].path != [] && Preceded(es, i)
    ensures ParentsFirst(es)
  {
  }

  lemma RootFirst(es: seq<Entry>)
    requires es != [] && es[0].path == []
    ensures StableSort(es, Depth())[0] == es[0]
  {
  }

  /** The root comes first, and every other entry has its directory somewhere in the list. */
  ghost predicate ParentsIn(es: seq<Entry>) {
    && 0 < |es| && es[0].path == [] && es[0].shape == DirShape
    && forall x {:trigger x in es} :: x in es && x != es[0] ==> x.path != [] && HasDirectory(es, x)
  }

  ghost predicate HasDirectory(es: seq<Entry>, x: Entry)
    requires x.path != []
  {
    exists y {:trigger y in es} :: y in es && y.path == Parent(x.path) && y.shape == DirShape
  }

  /** The list spells a tree, in any order of its entries behind the root. */
  ghost predicate Spelt(es: seq<Entry>) {
    OnePath(es) && OneNode(es) && ParentsIn(es) && Summed(es)
  }

  lemma SpellingSpelt(es: seq<Entry>)
    requires Spelling(es)
    ensures Spelt(es)
  {
    forall x {:trigger x in es} | x in es && x != es[0] ensures x.path != [] && HasDirectory(es, x) {
      var j :| 0 <= j < |es| && es[j] == x;
      var m := ParentBefore(es, j);
      assert es[m] in es;
    }
  }

  /** Sorting by depth leaves the root first and every directory before what it holds. */
  lemma SortParentsFirst(es: seq<Entry>)
    requires OnePath(es) && ParentsIn(es)
    ensures ParentsFirst(StableSort(es, Depth()))
  {
    var s := StableSort(es, Depth());
    RootFirst(es);
    SortKeeps(es, Depth());
    SortDistinct(es, Depth());
    forall i {:trigger s[i]} | 0 < i < |s| ensures s[i].path != [] && Preceded(s, i) {
      SortedParent(es, s, i);
    }
    ParentsStand(s);
  }

  lemma SmallerBefore(s: seq<Entry>, k: nat, i: nat)
    requires Ascending(s, Depth()) && k < |s| && i < |s| && Depth()(s[k]) < Depth()(s[i])
    ensures k < i
  {
  }

  /** In the list there is a directory for every entry but the root. */
  lemma ParentIn(es: seq<Entry>, x: Entry) returns (y: Entry)
    requires ParentsIn(es) && x in es && x != es[0]
    ensures x.path != [] && y in es && y.path == Parent(x.path) && y.shape == DirShape
  {
    assert HasDirectory(es, x);
    y :| y in es && y.path == Parent(x.path) && y.shape == DirShape;
  }

  lemma SortedParent(es: seq<Entry>, s: seq<Entry>, i: nat)
    requires OnePath(es) && ParentsIn(es) && 0 < i < |s| && s[0] == es[0] && Ascending(s, Depth()) && Distinct(s)
    requires forall x {:trigger x in s} {:trigger x in es} :: x in s <==> x in es
    ensures s[i].path != [] && Preceded(s, i)
  {
    DistinctAt(s, 0, i);
    assert s[i] in s && s[0] in s;
    var y := ParentIn(es, s[i]);
    var k :| 0 <= k < |s| && s[k] == y;
    if y.path == [] {
      assert y == s[0];
    } else {
      SmallerBefore(s, k, i);
    }
  }

  lemma SortedSpelling(es: seq<Entry>)
    requires Spelt(es)
    ensures Spelling(StableSort(es, Depth()))
  {
    SortKeeps(es, Depth());
    SortDistinct(es, Depth());
    SortParentsFirst(es);
  }

  lemma {:induction false} ChosenIn(es: seq<Entry>, id: nat)
    ensures Chosen(es, id).Some? ==> Chosen(es, id).value in es && Chosen(es, id).value.id == id
  {
    if es != [] {
      ChosenIn(es[..|es| - 1], id);
      assert es == es[..|es| - 1] + [es[|es| - 1]];
    }
  }

  lemma {:induction false} SortedAgree(all: seq<Entry>, es: seq<Entry>, k: nat)
    requires OneNode(all) && k <= |es| && forall x :: x in es ==> x in all
    ensures AllAgree(all, es, k)
  {
    if k > 0 {
      SortedAgree(all, es, k - 1);
      ChosenIn(all, es[k - 1].id);
      assert es[k - 1] in es;
    }
  }

  /** What a directory holds does not depend on the sorting. */
  lemma SortedKids(es: seq<Entry>, q: Path)
    ensures Kids(StableSort(es, Depth()), q) == Kids(es, q)
  {
    var k := if |q| == 0 then 2 else |q| + 2;
    SortFilter(es, Depth(), ChildOf(q), k);
  }

  // --- what is loaded

  /** The nodes of the entries, in the numbers' order. */
  ghost predicate Stood(es: seq<Entry>, base: nat, t: State) {
    && Fit(t, base) && OneToOne(t.ids) && es != [] && es[0].id in t.ids && t.ids[es[0].id] == base
    && forall x {:trigger x in es} :: x in es ==> StoodAt(es, t, x)
  }

  ghost predicate StoodAt(es: seq<Entry>, t: State, x: Entry) {
    && x.id in t.ids && t.ids[x.id] < |t.nodes| && t.nodes[t.ids[x.id]].attr == x.attr
    && (match x.shape
        case DirShape => t.nodes[t.ids[x.id]].body == Dir(Numbers(t.ids, Kids(es, x.path)))
        case FileShape(content, sum, _) => t.nodes[t.ids[x.id]].body == Reg(content, sum)
        case LinkShape(to) => t.nodes[t.ids[x.id]].body == Sym(to))
    && (x.path != [] ==> t.nodes[t.ids[x.id]].nlink == |Filter(es, NameOf(x.id))|)
  }

  /** The names of a node below the root. */
  function NameOf(id: nat): Entry -> bool {
    (x: Entry) => x.id == id && x.path != []
  }

  lemma {:induction false} TimesNames(es: seq<Entry>, k: nat, id: nat)
    requires k <= |es|
    ensures Times(es, k, id) == |Filter(es[..k], NameOf(id))|
  {
    if k > 0 {
      TimesNames(es, k - 1, id);
      assert es[..k] == es[..k - 1] + [es[k - 1]];
      FilterJoins(es[..k - 1], [es[k - 1]], NameOf(id));
      assert [es[k - 1]][1..] == [];
    }
  }

  lemma StandsStood(es: seq<Entry>, s: seq<Entry>, t: State, x: Entry)
    requires s == StableSort(es, Depth()) && Stands(s, |s|, t, x)
    ensures StoodAt(es, t, x)
  {
    assert s[..|s|] == s;
    SortedKids(es, x.path);
    TimesNames(s, |s|, x.id);
    SortFilterSize(es, Depth(), NameOf(x.id));
  }

  /** Entries that spell a tree stand once they are loaded, whatever their order: a
      directory may come after what it holds. */
  lemma LoadStands(nodes: seq<Node>, base: nat, es: seq<Entry>, stamp: nat)
    requires Sound(nodes) && IsDir(nodes, base) && Spelt(es)
    ensures Stood(es, base, LoadedFrom(nodes, base, es, stamp))
  {
    var s, start := StableSort(es, Depth()), State(Cleared(nodes, base), map[]);
    Emptied(nodes, base);
    var t := PlacedAll(start, base, es, s, |es|, stamp);
    SortedSpelling(es);
    BeginsMeans(s, base, start, TreeRoundTrip.FOLDS);
    SortKeeps(es, Depth());
    SortedAgree(es, s, |s|);
    AllCome(s, |s|, base, es, start, stamp);
    RootFirst(es);
    forall x {:trigger x in es} | x in es ensures StoodAt(es, t, x) {
      assert x in s;
      var j :| 0 <= j < |s| && s[j] == x;
      StandsStood(es, s, t, x);
    }
  }

  /** A dump is such a list. */
  lemma DumpStands(nodes: seq<Node>, base: nat, es: seq<Entry>, stamp: nat)
    requires Sound(nodes) && IsDir(nodes, base) && Spelling(es)
    ensures Stood(es, base, LoadedFrom(nodes, base, es, stamp))
  {
    SpellingSpelt(es);
    LoadStands(nodes, base, es, stamp);
  }

  // --- the loaded nodes mirror the dumped ones

  function Twin(ids: map<nat, nat>, num: map<nat, nat>, i: nat): nat
    requires i in ids && ids[i] in num
  {
    num[ids[i]]
  }

  /** What a dump shows of a directory, with the loaded nodes. */
  function Shown(nodes: seq<Node>, ids: map<nat, nat>, num: map<nat, nat>, es: seq<(Name, nat)>): seq<(Name, nat)> {
    Numbers(num, Numbers(ids, Visible(nodes, es)))
  }

  ghost predicate MirrorAt(nodes: seq<Node>, order: Name -> int, ids: map<nat, nat>, twins: seq<Node>,
                           num: map<nat, nat>, i: nat) {
    && i in ids && i < |nodes| && ids[i] in num && num[ids[i]] < |twins|
    && twins[Twin(ids, num, i)].attr == nodes[i].attr
    && match nodes[i].body
       case Dir(ent) => AllIn(ids, Visible(nodes, Listing(ent, order))) &&
         twins[Twin(ids, num, i)].body == Dir(Shown(nodes, ids, num, Listing(ent, order)))
       case Reg(content, sum) => twins[Twin(ids, num, i)].body == Reg(content, Some(SumOf(content, sum)))
       case Sym(to) => twins[Twin(ids, num, i)].body == Sym(to)
       case Chr => false
  }

  ghost predicate Mirror(nodes: seq<Node>, order: Name -> int, ids: map<nat, nat>, twins: seq<Node>, num: map<nat,
                         nat>) {
    OneToOne(ids) && OneToOne(num) &&
    forall i {:trigger i in ids} :: i in ids ==> MirrorAt(nodes, order, ids, twins, num, i)
  }

  lemma StoodMirrors(nodes: seq<Node>, order: Name -> int, base: nat, ids: map<nat, nat>, es: seq<Entry>, who: seq<nat>,
                     to: nat, t: State)
    requires Told(nodes, order, base, ids, es, who) && Stood(es, to, t)
    ensures Mirror(nodes, order, ids, t.nodes, t.ids) && base in ids && ids[base] in t.ids && t.ids[ids[base]] == to
  {
    assert Entered(nodes, ids, es[0], who[0]);
    forall i {:trigger i in ids} | i in ids ensures MirrorAt(nodes, order, ids, t.nodes, t.ids, i) {
      assert i in who;
      var k :| 0 <= k < |who| && who[k] == i;
      EntryMirrors(nodes, order, ids, es, es[k], i, t);
    }
  }

  lemma EntryMirrors(nodes: seq<Node>, order: Name -> int, ids: map<nat, nat>, es: seq<Entry>, x: Entry, i: nat,
                     t: State)
    requires Entered(nodes, ids, x, i) && Filled(nodes, order, ids, es, x, i) && x in es
    requires forall y {:trigger y in es} :: y in es ==> StoodAt(es, t, y)
    ensures MirrorAt(nodes, order, ids, t.nodes, t.ids, i)
  {
    assert StoodAt(es, t, x);
  }

  // --- dumping both

  /** The two dumps have come equally far. */
  ghost predicate Paired(ids: map<nat, nat>, num: map<nat, nat>, a: Trail, b: Trail) {
    && b.out == a.out && b.next == a.next
    && forall i {:trigger ids[i]} :: i in ids && ids[i] in num ==>
         (i in a.ids <==> Twin(ids, num, i) in b.ids) && (i in a.ids ==> a.ids[i] == b.ids[Twin(ids, num, i)])
  }

  /** Listing the loaded directory changes nothing: it is in order already. */
  lemma ShownInOrder(nodes: seq<Node>, order: Name -> int, ids: map<nat, nat>, num: map<nat, nat>,
                     ent: seq<(Name, nat)>)
    ensures var r := Shown(nodes, ids, num, Listing(ent, order)); Listing(r, order) == r
  {
    var es := Listing(ent, order);
    var r := Shown(nodes, ids, num, es);
    SortKeeps(ent, ByName(order));
    FilterAscending(es, NotDevice(nodes), ByName(order));
    var v := Visible(nodes, es);
    forall i, j {:trigger r[i], r[j]} | 0 <= i < j < |r| ensures ByName(order)(r[i]) <= ByName(order)(r[j]) {
      assert r[i].0 == v[i].0 && r[j].0 == v[j].0;
      assert ByName(order)(v[i]) <= ByName(order)(v[j]);
    }
    SortedStays(r, ByName(order));
  }

  lemma NumberedPaired(nodes: seq<Node>, order: Name -> int, ids: map<nat, nat>, twins: seq<Node>, num: map<nat, nat>,
                       i: nat, a: Trail, b: Trail)
    requires Mirror(nodes, order, ids, twins, num) && i in ids && ids[i] in num && Paired(ids, num, a, b)
    ensures Paired(ids, num, Numbered(a, i), Numbered(b, Twin(ids, num, i)))
    ensures i in Numbered(a, i).ids && Twin(ids, num, i) in Numbered(b, Twin(ids, num, i)).ids
    ensures Numbered(a, i).ids[i] == Numbered(b, Twin(ids, num, i)).ids[Twin(ids, num, i)]
  {
    var n := Twin(ids, num, i);
    assert ids[i] == ids[i];
    forall m {:trigger ids[m]} | m in ids && ids[m] in num && Twin(ids, num, m) == n ensures m == i {}
  }

  lemma TwinEntry(nodes: seq<Node>, order: Name -> int, ids: map<nat, nat>, twins: seq<Node>, num: map<nat, nat>,
                  i: nat,
                  p: Path, id: nat)
    requires MirrorAt(nodes, order, ids, twins, num, i)
    ensures !nodes[i].body.Chr? && !twins[Twin(ids, num, i)].body.Chr?
    ensures EntryOf(twins[Twin(ids, num, i)], p, id) == EntryOf(nodes[i], p, id)
  {
  }

  /** The next name that is shown, or a device that is not. */
  lemma ShownFrom(nodes: seq<Node>, ids: map<nat, nat>, num: map<nat, nat>, es: seq<(Name, nat)>, k: nat,
                  fs: seq<(Name, nat)>, m: nat)
    requires k < |es| && m <= |fs| && fs[m..] == Shown(nodes, ids, num, es[k..])
    requires AllIn(ids, Visible(nodes, es[k..])) && forall c {:trigger ids[c]} :: c in ids ==> ids[c] in num
    ensures AllIn(ids, Visible(nodes, es[k + 1..]))
    ensures if NotDevice(nodes)(es[k])
            then m < |fs| && es[k].1 in ids && ids[es[k].1] in num && fs[m] == (es[k].0, Twin(ids, num, es[k].1)) &&
                 fs[m + 1..] == Shown(nodes, ids, num, es[k + 1..])
            else fs[m..] == Shown(nodes, ids, num, es[k + 1..])
  {
    VisibleFrom(nodes, es, k);
    var rest := Visible(nodes, es[k + 1..]);
    if NotDevice(nodes)(es[k]) {
      var v := [es[k]] + rest;
      assert v[0] in v && forall e :: e in rest ==> e in v;
      NumbersJoin(ids, [es[k]], rest);
      NumbersJoin(num, Numbers(ids, [es[k]]), Numbers(ids, rest));
      assert fs[m..][0] == fs[m] && fs[m..][1..] == fs[m + 1..];
      assert ([(es[k].0, Twin(ids, num, es[k].1))] + Shown(nodes, ids, num, es[k + 1..]))[1..] ==
             Shown(nodes, ids, num, es[k + 1..]);
    } else {
      assert [] + rest == rest;
    }
  }

  lemma MirrorNumbers(nodes: seq<Node>, order: Name -> int, ids: map<nat, nat>, twins: seq<Node>, num: map<nat, nat>)
    requires Mirror(nodes, order, ids, twins, num)
    ensures forall c {:trigger ids[c]} :: c in ids ==> ids[c] in num
  {
    forall c {:trigger ids[c]} | c in ids ensures ids[c] in num { assert MirrorAt(nodes, order, ids, twins, num, c); }
  }

  lemma {:induction false} GoMirror(nodes: seq<Node>, order: Name -> int, rank: map<nat, nat>, ids: map<nat, nat>,
                                    twins: seq<Node>, rank': map<nat, nat>, num: map<nat, nat>, i: nat, n: nat, p: Path,
                                    a: Trail, b: Trail)
    requires Ranked(nodes, rank) && Ranked(twins, rank') && Mirror(nodes, order, ids, twins, num) && i in rank
    requires i in ids && ids[i] in num && n == Twin(ids, num, i) && n in rank' && Paired(ids, num, a, b)
    ensures Paired(ids, num, Go(nodes, order, rank, i, p, a), Go(twins, order, rank', n, p, b))
    decreases rank[i], 1, 0
  {
    assert MirrorAt(nodes, order, ids, twins, num, i);
    NumberedPaired(nodes, order, ids, twins, num, i, a, b);
    var u, v := Numbered(a, i), Numbered(b, n);
    TwinEntry(nodes, order, ids, twins, num, i, p, u.ids[i]);
    var c := u.(out := u.out + [EntryOf(nodes[i], p, u.ids[i])]);
    var d := v.(out := v.out + [EntryOf(twins[n], p, v.ids[n])]);
    if nodes[i].body.Dir? {
      var es, fs := Listing(nodes[i].body.ent, order), Listing(twins[n].body.ent, order);
      ListingBelow(rank, i, nodes[i].body.ent, order);
      ListingBelow(rank', n, twins[n].body.ent, order);
      ShownInOrder(nodes, order, ids, num, nodes[i].body.ent);
      assert es[0..] == es && fs[0..] == fs;
      GoAllMirror(nodes, order, rank, ids, twins, rank', num, i, es, 0, n, fs, 0, p, c, d);
    }
  }

  lemma {:induction false} GoAllMirror(nodes: seq<Node>, order: Name -> int, rank: map<nat, nat>, ids: map<nat, nat>,
                                       twins: seq<Node>, rank': map<nat, nat>, num: map<nat, nat>,
                                       d: nat, es: seq<(Name, nat)>, k: nat, n: nat, fs: seq<(Name, nat)>, m: nat,
                                           p: Path,
                                       a: Trail, b: Trail)
    requires Ranked(nodes, rank) && Ranked(twins, rank') && Mirror(nodes, order, ids, twins, num)
    requires d in rank && Below(rank, d, es) && k <= |es| && n in rank' && Below(rank', n, fs) && m <= |fs|
    requires AllIn(ids, Visible(nodes, es[k..])) && fs[m..] == Shown(nodes, ids, num, es[k..])
    requires Paired(ids, num, a, b)
    ensures Paired(ids, num, GoAll(nodes, order, rank, d, es, k, p, a), GoAll(twins, order, rank', n, fs, m, p, b))
    decreases rank[d], 0, |es| - k
  {
    if k == |es| {
      assert es[k..] == [] && m == |fs|;
    } else {
      MirrorNumbers(nodes, order, ids, twins, num);
      ShownFrom(nodes, ids, num, es, k, fs, m);
      assert es[k] in es && rank[es[k].1] == rank[es[k].1];
      var u := Go(nodes, order, rank, es[k].1, p + [es[k].0], a);
      if NotDevice(nodes)(es[k]) {
        assert fs[m] in fs;
        var v := Go(twins, order, rank', fs[m].1, p + [fs[m].0], b);
        GoMirror(nodes, order, rank, ids, twins, rank', num, es[k].1, fs[m].1, p + [es[k].0], a, b);
        GoAllMirror(nodes, order, rank, ids, twins, rank', num, d, es, k + 1, n, fs, m + 1, p, u, v);
      } else {
        GoAllMirror(nodes, order, rank, ids, twins, rank', num, d, es, k + 1, n, fs, m, p, u, b);
      }
    }
  }

  // --- the round trip

  lemma {:induction false} WhoRanked(nodes: seq<Node>, order: Name -> int, rank: map<nat, nat>, base: nat,
                                     ids: map<nat, nat>, es: seq<Entry>, who: seq<nat>, j: nat)
    requires Told(nodes, order, base, ids, es, who) && Ranked(nodes, rank) && base in rank && j < |es|
    ensures who[j] in rank
  {
    if j > 0 {
      var i := ToldParent(nodes, order, base, ids, es, who, j);
      WhoRanked(nodes, order, rank, base, ids, es, who, i);
      ToldListed(nodes, order, base, ids, es, who, i, j);
      assert rank[who[i]] == rank[who[i]];
    }
  }

  lemma AllRanked(nodes: seq<Node>, order: Name -> int, rank: map<nat, nat>, base: nat, ids: map<nat, nat>,
                  es: seq<Entry>, who: seq<nat>)
    requires Told(nodes, order, base, ids, es, who) && Ranked(nodes, rank) && base in rank
    ensures forall i {:trigger i in ids} :: i in ids ==> i in rank
  {
    forall i {:trigger i in ids} | i in ids ensures i in rank {
      assert i in who;
      var k :| 0 <= k < |who| && who[k] == i;
      WhoRanked(nodes, order, rank, base, ids, es, who, k);
    }
  }

  /** The loaded nodes, ranked like the dumped ones. */
  ghost function TwinRank(rank: map<nat, nat>, ids: map<nat, nat>, num: map<nat, nat>): map<nat, nat>
    requires OneToOne(ids) && OneToOne(num)
  {
    map i | i in ids && i in rank && ids[i] in num :: num[ids[i]] := rank[i]
  }

  lemma TwinsRanked(nodes: seq<Node>, order: Name -> int, rank: map<nat, nat>, ids: map<nat, nat>, twins: seq<Node>,
                    num: map<nat, nat>)
    requires Ranked(nodes, rank) && Mirror(nodes, order, ids, twins, num) && forall i {:trigger i in ids} ::
             i in ids ==> i in rank
    ensures Ranked(twins, TwinRank(rank, ids, num))
  {
    var rank' := TwinRank(rank, ids, num);
    forall n {:trigger rank'[n]} | n in rank'
      ensures n < |twins| && (twins[n].body.Dir? ==> Below(rank', n, twins[n].body.ent))
    {
      var i :| i in ids && i in rank && ids[i] in num && num[ids[i]] == n;
      assert MirrorAt(nodes, order, ids, twins, num, i) && rank'[n] == rank[i];
      if nodes[i].body.Dir? { TwinBelow(nodes, order, rank, ids, twins, num, rank', i, n); }
    }
  }

  lemma TwinBelow(nodes: seq<Node>, order: Name -> int, rank: map<nat, nat>, ids: map<nat, nat>, twins: seq<Node>,
                  num: map<nat, nat>, rank': map<nat, nat>, i: nat, n: nat)
    requires Ranked(nodes, rank) && Mirror(nodes, order, ids, twins, num) && forall c {:trigger c in ids} ::
             c in ids ==> c in rank
    requires MirrorAt(nodes, order, ids, twins, num, i) && nodes[i].body.Dir? && n == Twin(ids, num, i)
    requires rank' == TwinRank(rank, ids, num) && n in rank' && rank'[n] == rank[i]
    ensures Below(rank', n, twins[n].body.ent)
  {
    var es := Listing(nodes[i].body.ent, order);
    var shown := Visible(nodes, es);
    forall e {:trigger e in twins[n].body.ent} | e in twins[n].body.ent ensures e.1 in rank' && rank'[e.1] < rank'[n] {
      var k :| 0 <= k < |shown| && Shown(nodes, ids, num, es)[k] == e;
      var c := shown[k].1;
      assert shown[k] in shown;
      FilterKeeps(es, NotDevice(nodes));
      SortKeeps(nodes[i].body.ent, ByName(order));
      assert c in ids && MirrorAt(nodes, order, ids, twins, num, c);
      assert e.1 == Twin(ids, num, c) && rank[i] == rank[i];
      assert rank'[e.1] == rank[c];
    }
  }

  /** The tree that is dumped: no cycle, no name twice in a directory, no second
      name of a directory. */
  ghost predicate TreeAt(nodes: seq<Node>, rank: map<nat, nat>, base: nat) {
    Ranked(nodes, rank) && Plain(nodes, rank) && Treelike(nodes, base) && base in rank && IsDir(nodes, base)
  }

  lemma DumpSpells(nodes: seq<Node>, order: Name -> int, base: nat, ids: map<nat, nat>, es: seq<Entry>, who: seq<nat>)
    requires Told(nodes, order, base, ids, es, who) && Treelike(nodes, base)
    ensures Spelling(es)
  {
    DumpOnePath(nodes, order, base, ids, es, who);
    DumpOneNode(nodes, order, base, ids, es, who);
    DumpParentsFirst(nodes, order, base, ids, es, who);
  }

  /** What is loaded from a dump is a tree again ... */
  lemma LoadedRanked(nodes: seq<Node>, order: Name -> int, rank: map<nat, nat>, base: nat, host: seq<Node>, to: nat,
                     stamp: nat) returns (rank': map<nat, nat>)
    requires TreeAt(nodes, rank, base) && Sound(host) && IsDir(host, to)
    ensures Ranked(LoadedFrom(host, to, Dumped(nodes, order, rank, base), stamp).nodes, rank') && to in rank'
  {
    var es := Dumped(nodes, order, rank, base);
    var t := LoadedFrom(host, to, es, stamp);
    var ids, who := DumpTold(nodes, order, rank, base);
    DumpSpells(nodes, order, base, ids, es, who);
    DumpStands(host, to, es, stamp);
    StoodMirrors(nodes, order, base, ids, es, who, to, t);
    AllRanked(nodes, order, rank, base, ids, es, who);
    TwinsRanked(nodes, order, rank, ids, t.nodes, t.ids);
    rank' := TwinRank(rank, ids, t.ids);
  }

  /** ... and dumping it gives the same entries, numbers included. */
  lemma DumpLoadDump(nodes: seq<Node>, order: Name -> int, rank: map<nat, nat>, base: nat, host: seq<Node>, to: nat,
                     stamp: nat, rank': map<nat, nat>)
    requires TreeAt(nodes, rank, base) && Sound(host) && IsDir(host, to)
    requires Ranked(LoadedFrom(host, to, Dumped(nodes, order, rank, base), stamp).nodes, rank') && to in rank'
    ensures Dumped(LoadedFrom(host, to, Dumped(nodes, order, rank, base), stamp).nodes, order, rank', to) ==
            Dumped(nodes, order, rank, base)
  {
    var es := Dumped(nodes, order, rank, base);
    var t := LoadedFrom(host, to, es, stamp);
    var ids, who := DumpTold(nodes, order, rank, base);
    DumpSpells(nodes, order, base, ids, es, who);
    DumpStands(host, to, es, stamp);
    StoodMirrors(nodes, order, base, ids, es, who, to, t);
    GoMirror(nodes, order, rank, ids, t.nodes, rank', t.ids, base, to, [], START, START);
  }

  // --- names and links after loading

  /** The node that a path leads to from the directory `d`. */
  function NodeAt(nodes: seq<Node>, d: nat, p: Path, k: nat): Option<nat>
    requires k <= |p|
    decreases |p| - k
  {
    if k == |p| then Some(d)
    else if !IsDir(nodes, d) then None
    else
      var found := Find(nodes[d].body.ent, p[k]);
      if found.Some? then NodeAt(nodes, found.value, p, k + 1) else None
  }

  lemma NodeStep(nodes: seq<Node>, base: nat, p: Path, q: Path, d: nat, n: nat)
    requires p != [] && p <= q && IsDir(nodes, d) && Find(nodes[d].body.ent, p[|p| - 1]) == Some(n)
    requires NodeAt(nodes, base, q, 0) == NodeAt(nodes, d, q, |p| - 1)
    ensures NodeAt(nodes, base, q, 0) == NodeAt(nodes, n, q, |p|)
  {
  }

  lemma FindsListed(ent: seq<(Name, nat)>, e: (Name, nat))
    requires NamedOnce(ent) && e in ent
    ensures Find(ent, e.0) == Some(e.1)
  {
    forall f {:trigger f in ent} | f in ent && f.0 == e.0 ensures f.1 == e.1 {}
    FindsOnly(ent, e.0, e.1);
  }

  /** In the dumped tree, the path of an entry leads to its node ... */
  lemma {:induction false} DumpedAt(nodes: seq<Node>, order: Name -> int, rank: map<nat, nat>, base: nat,
                                    ids: map<nat, nat>, es: seq<Entry>, who: seq<nat>, j: nat, q: Path)
    requires Told(nodes, order, base, ids, es, who) && TreeAt(nodes, rank, base) && j < |es| && es[j].path <= q
    ensures NodeAt(nodes, base, q, 0) == NodeAt(nodes, who[j], q, |es[j].path|)
  {
    if j > 0 {
      var i := ToldParent(nodes, order, base, ids, es, who, j);
      DumpedAt(nodes, order, rank, base, ids, es, who, i, q);
      ToldListed(nodes, order, base, ids, es, who, i, j);
      WhoRanked(nodes, order, rank, base, ids, es, who, i);
      assert rank[who[i]] == rank[who[i]];
      FindsListed(nodes[who[i]].body.ent, (es[j].path[|es[j].path| - 1], who[j]));
      NodeStep(nodes, base, es[j].path, q, who[i], who[j]);
    }
  }

  /** A loaded directory lists the entries of the dump that it is the parent of. */
  lemma StoodLists(es: seq<Entry>, base: nat, t: State, x: Entry, y: Entry)
    requires Spelling(es) && Stood(es, base, t) && x in es && y in es && y.path != []
    requires x.shape == DirShape && x.path == Parent(y.path)
    ensures x.id in t.ids && y.id in t.ids && IsDir(t.nodes, t.ids[x.id])
    ensures Find(t.nodes[t.ids[x.id]].body.ent, y.path[|y.path| - 1]) == Some(t.ids[y.id])
  {
    assert StoodAt(es, t, x) && StoodAt(es, t, y);
    assert es[..|es|] == es;
    FindsKid(es, |es|, t.ids, y);
  }

  lemma StoodFirst(es: seq<Entry>, base: nat, t: State, q: Path)
    requires Spelling(es) && Stood(es, base, t)
    ensures es != [] && es[0].id in t.ids
    ensures NodeAt(t.nodes, base, q, 0) == NodeAt(t.nodes, t.ids[es[0].id], q, |es[0].path|)
  {
    assert es[0].path == [];
  }

  lemma StoodNext(es: seq<Entry>, base: nat, t: State, x: Entry, y: Entry, q: Path)
    requires Spelling(es) && Stood(es, base, t) && x in es && y in es && y.path != [] && y.path <= q
    requires x.shape == DirShape && x.path == Parent(y.path) && x.id in t.ids
    requires NodeAt(t.nodes, base, q, 0) == NodeAt(t.nodes, t.ids[x.id], q, |x.path|)
    ensures y.id in t.ids && NodeAt(t.nodes, base, q, 0) == NodeAt(t.nodes, t.ids[y.id], q, |y.path|)
  {
    StoodLists(es, base, t, x, y);
    NodeStep(t.nodes, base, y.path, q, t.ids[x.id], t.ids[y.id]);
  }

  /** ... and in the loaded one to the node of its number. */
  lemma {:induction false} LoadedAt(es: seq<Entry>, base: nat, t: State, j: nat, q: Path)
    requires Spelling(es) && Stood(es, base, t) && j < |es| && es[j].path <= q
    ensures es[j].id in t.ids && NodeAt(t.nodes, base, q, 0) == NodeAt(t.nodes, t.ids[es[j].id], q, |es[j].path|)
  {
    if j == 0 {
      StoodFirst(es, base, t, q);
    } else {
      var i := ParentBefore(es, j);
      LoadedAt(es, base, t, i, q);
      StoodNext(es, base, t, es[i], es[j], q);
    }
  }

  /** Two paths of the dump share a node after loading exactly when they did
      before, and every loaded node below the base has as many links as names. */
  lemma SharedAlike(nodes: seq<Node>, order: Name -> int, rank: map<nat, nat>, base: nat, host: seq<Node>, to: nat,
                    stamp: nat, x: Entry, y: Entry)
    requires TreeAt(nodes, rank, base) && Sound(host) && IsDir(host, to)
    requires x in Dumped(nodes, order, rank, base) && y in Dumped(nodes, order, rank, base)
    ensures var es := Dumped(nodes, order, rank, base);
      var now := LoadedFrom(host, to, es, stamp).nodes;
      var a, b := NodeAt(now, to, x.path, 0), NodeAt(now, to, y.path, 0);
      && a.Some? && b.Some? && a.value < |now|
      && (a == b <==> NodeAt(nodes, base, x.path, 0) == NodeAt(nodes, base, y.path, 0))
      && (x.path != [] ==> now[a.value].nlink == |Filter(es, NameOf(x.id))|)
  {
    var es := Dumped(nodes, order, rank, base);
    var t := LoadedFrom(host, to, es, stamp);
    var ids, who := DumpTold(nodes, order, rank, base);
    DumpSpells(nodes, order, base, ids, es, who);
    DumpStands(host, to, es, stamp);
    var i :| 0 <= i < |es| && es[i] == x;
    var j :| 0 <= j < |es| && es[j] == y;
    DumpedAt(nodes, order, rank, base, ids, es, who, i, x.path);
    DumpedAt(nodes, order, rank, base, ids, es, who, j, y.path);
    LoadedAt(es, to, t, i, x.path);
    LoadedAt(es, to, t, j, y.path);
    assert Entered(nodes, ids, es[i], who[i]) && Entered(nodes, ids, es[j], who[j]);
    assert StoodAt(es, t, x);
  }

  /** Dump, load into another file system, and dump that. */
  method ReturnTrip(nodes: seq<Node>, order: Name -> int, ghost rank: map<nat, nat>, base: nat, host: HostFiles,
                    to: nat,
                    stamp: nat)
    returns (first: seq<Entry>, second: seq<Entry>, r: Answer)
    requires TreeAt(nodes, rank, base) && host.Valid() && IsDir(host.nodes, to)
    modifies host
    ensures host.Valid() && (r == BadEntry <==> exists e :: e in first && !Checked(e))
    ensures r == Fine ==> second == first == Dumped(nodes, order, rank, base)
  {
    first := Dump(nodes, order, base, rank);
    second := [];
    ghost var rank' := LoadedRanked(nodes, order, rank, base, host.nodes, to, stamp);
    ghost var was := host.nodes;
    r := host.Load(to, first, stamp);
    if r == Fine {
      DumpLoadDump(nodes, order, rank, base, was, to, stamp, rank');
      second := Dump(host.nodes, order, to, rank');
    }
  }
}
