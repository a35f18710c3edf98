/** A file tree as a list of entries, one for each name.  Names of one node
    share the node's number in the list; the numbers count up as nodes are met. */
module HostTrees {
  import opened Frames
  import opened Sorting
  import VfsImages

  type Name = string
  type Path = seq<Name>

  datatype Option<T> = None | Some(value: T)

  datatype Attr = Attr(mode: nat, uid: nat, gid: nat, at: nat, mt: nat, ct: nat)

  /** Length and hash of the bytes of a file. */
  datatype Sum = Sum(length: nat, hash: nat)

  /** A file holds its bytes, or a source that gives them later. */
  datatype Content = Held(data: seq<Byte>) | Lazy(size: nat, sum: Sum)

  datatype Body = Dir(ent: seq<(Name, nat)>) | Reg(content: Content, sum: Option<Sum>) | Sym(to: string) | Chr

  datatype Node = Node(attr: Attr, body: Body, nlink: nat)

  datatype Shape = DirShape | FileShape(content: Content, sum: Option<Sum>, size: nat) | LinkShape(to: string)

  datatype Entry = Entry(path: Path, id: nat, attr: Attr, shape: Shape)

  function FileSum(data: seq<Byte>): Sum {
    Sum(|data|, VfsImages.Fnv(data, 0, |data|))
  }

  function SumOf(content: Content, sum: Option<Sum>): Sum {
    if sum.Some? then sum.value else if content.Lazy? then content.sum else FileSum(content.data)
  }

  function SizeOf(content: Content): nat {
    if content.Lazy? then content.size else |content.data|
  }

  function ShapeOf(body: Body): Shape
    requires !body.Chr?
  {
    match body
    case Dir(_) => DirShape
    case Reg(content, sum) => FileShape(content, Some(SumOf(content, sum)), SizeOf(content))
    case Sym(to) => LinkShape(to)
  }

  function ByName(order: Name -> int): ((Name, nat)) -> int {
    (e: (Name, nat)) => order(e.0)
  }

  // --- dumping

  datatype Trail = Trail(out: seq<Entry>, ids: map<nat, nat>, next: nat)

  /** The nodes that the entries name are ranked below `d`. */
  ghost predicate Below(rank: map<nat, nat>, d: nat, es: seq<(Name, nat)>)
    requires d in rank
  {
    forall e {:trigger e in es} :: e in es ==> e.1 in rank && rank[e.1] < rank[d]
  }

  /** Everything ranked is there, and the children of a directory are ranked below it. */
  ghost predicate Ranked(nodes: seq<Node>, rank: map<nat, nat>) {
    forall i {:trigger rank[i]} :: i in rank ==>
      i < |nodes| && (nodes[i].body.Dir? ==> Below(rank, i, nodes[i].body.ent))
  }

  function Listing(ent: seq<(Name, nat)>, order: Name -> int): seq<(Name, nat)> {
    StableSort(ent, ByName(order))
  }

  lemma ListingBelow(rank: map<nat, nat>, d: nat, ent: seq<(Name, nat)>, order: Name -> int)
    requires d in rank && Below(rank, d, ent)
    ensures Below(rank, d, Listing(ent, order))
  {
    SortKeeps(ent, ByName(order));
  }

  function Numbered(t: Trail, n: nat): Trail {
    if n in t.ids then t else t.(ids := t.ids[n := t.next], next := t.next + 1)
  }

  function EntryOf(node: Node, p: Path, id: nat): Entry
    requires !node.body.Chr?
  {
    Entry(p, id, node.attr, ShapeOf(node.body))
  }

  /** A node under the path `p`, then what is below it; devices are left out. */
  ghost function Go(nodes: seq<Node>, order: Name -> int, rank: map<nat, nat>, n: nat, p: Path, t: Trail): Trail
    requires Ranked(nodes, rank) && n in rank
    decreases rank[n], 1, 0
  {
    if nodes[n].body.Chr? then t
    else
      var u := Numbered(t, n);
      var v := u.(out := u.out + [EntryOf(nodes[n], p, u.ids[n])]);
      if nodes[n].body.Dir? then
        ListingBelow(rank, n, nodes[n].body.ent, order);
        GoAll(nodes, order, rank, n, Listing(nodes[n].body.ent, order), 0, p, v)
      else v
  }

  /** The entries of a directory from the `k`-th on. */
  ghost function GoAll(nodes: seq<Node>, order: Name -> int, rank: map<nat, nat>, d: nat, es: seq<(Name, nat)>, k: nat,
                       p: Path, t: Trail): Trail
    requires Ranked(nodes, rank) && d in rank && Below(rank, d, es) && k <= |es|
    decreases rank[d], 0, |es| - k
  {
    if k == |es| then t
    else
      assert es[k] in es;
      GoAll(nodes, order, rank, d, es, k + 1, p, Go(nodes, order, rank, es[k].1, p + [es[k].0], t))
  }

  const START := Trail([], map[], 1)

  ghost function Dumped(nodes: seq<Node>, order: Name -> int, rank: map<nat, nat>, base: nat): seq<Entry>
    requires Ranked(nodes, rank) && base in rank
  {
    Go(nodes, order, rank, base, [], START).out
  }

  class Dumper {
    const nodes: seq<Node>
    const order: Name -> int
    var out: seq<Entry>
    var ids: map<nat, nat>
    var next: nat

    constructor (files: seq<Node>, collation: Name -> int)
      ensures nodes == files && order == collation && Trail(out, ids, next) == START
    {
      nodes, order, out, ids, next := files, collation, [], map[], 1;
    }

    method Visit(n: nat, p: Path, ghost rank: map<nat, nat>)
      requires Ranked(nodes, rank) && n in rank
      modifies this
      ensures Trail(out, ids, next) == Go(nodes, order, rank, n, p, old(Trail(out, ids, next)))
      decreases rank[n], 1
    {
      var node := nodes[n];
      if node.body.Chr? { return; }
      if n !in ids {
        ids := ids[n := next];
        next := next + 1;
      }
      out := out + [EntryOf(node, p, ids[n])];
      if node.body.Dir? { VisitAll(n, p, rank); }
    }

    method VisitAll(d: nat, p: Path, ghost rank: map<nat, nat>)
      requires Ranked(nodes, rank) && d in rank && nodes[d].body.Dir?
      modifies this
      ensures Below(rank, d, Listing(nodes[d].body.ent, order))
      ensures Trail(out, ids, next) ==
              GoAll(nodes, order, rank, d, Listing(nodes[d].body.ent, order), 0, p, old(Trail(out, ids, next)))
      decreases rank[d], 0
    {
      ListingBelow(rank, d, nodes[d].body.ent, order);
      var es := Listing(nodes[d].body.ent, order);
      ghost var all := GoAll(nodes, order, rank, d, es, 0, p, Trail(out, ids, next));
      var k := 0;
      while k < |es|
        invariant 0 <= k <= |es| && GoAll(nodes, order, rank, d, es, k, p, Trail(out, ids, next)) == all
      {
        assert es[k] in es;
        Visit(es[k].1, p + [es[k].0], rank);
        k := k + 1;
      }
    }
  }

  method Dump(nodes: seq<Node>, order: Name -> int, base: nat, ghost rank: map<nat, nat>) returns (out: seq<Entry>)
    requires Ranked(nodes, rank) && base in rank
    ensures out == Dumped(nodes, order, rank, base)
  {
    var d := new Dumper(nodes, order);
    d.Visit(base, [], rank);
    out := d.out;
  }
}
