/** Changing the protection of an address range, splitting mappings as needed. */
module MapProtecting {
  import opened Mappings
  import opened MapCutting

  ghost function Repaint(o: Option<Rights>, protection: nat): Option<Rights> {
    match o
    case None => None
    case Some(r) => Some(r.(protection := protection))
  }

  /** `ns` owns what `ms` owns, with the new protection on [low, high). */
  ghost predicate Repainted(ms: seq<Mapping>, ns: seq<Mapping>, low: int, high: int, protection: nat) {
    forall a :: Owner(ns, a) == if low <= a < high then Repaint(Owner(ms, a), protection) else Owner(ms, a)
  }

  lemma PaintWhole(ms: seq<Mapping>, i: nat, p: nat)
    requires Disjoint(ms) && i < |ms|
    ensures var ns := ms[i := ms[i].(protection := p)];
            Disjoint(ns) && Repainted(ms, ns, ms[i].address, ms[i].end, p)
  {
    var ns := ms[i := ms[i].(protection := p)];
    assert Disjoint(ns);
    forall a ensures Owner(ns, a) == if ms[i].address <= a < ms[i].end then Repaint(Owner(ms, a), p) else Owner(ms, a) {
      OwnerUpdated(ms, i, ms[i].(protection := p), a);
      if Has(ms[i], a) { OwnerIs(ms, i, a); }
    }
  }

  lemma PaintFront(ms: seq<Mapping>, i: nat, high: nat, p: nat)
    requires Disjoint(ms) && i < |ms| && ms[i].address < high < ms[i].end && Aligned(high)
    ensures var ns := ms[i := Earlier(ms[i], high).(protection := p)] + [Later(ms[i], high)];
            Disjoint(ns) && Repainted(ms, ns, ms[i].address, high, p)
  {
    var ms' := ms[i := Earlier(ms[i], high).(protection := p)];
    var ns := ms' + [Later(ms[i], high)];
    assert Disjoint(ms') && Disjoint(ns);
    forall a ensures Owner(ns, a) == if ms[i].address <= a < high then Repaint(Owner(ms, a), p) else Owner(ms, a) {
      OwnerUpdated(ms, i, ms'[i], a);
      OwnerAppended(ms', Later(ms[i], high), a);
      if Has(ms[i], a) { OwnerIs(ms, i, a); }
    }
  }

  lemma PaintBack(ms: seq<Mapping>, i: nat, low: nat, p: nat)
    requires Disjoint(ms) && i < |ms| && ms[i].address < low < ms[i].end && Aligned(low)
    ensures var ns := ms[i := Earlier(ms[i], low)] + [Later(ms[i], low).(protection := p)];
            Disjoint(ns) && Repainted(ms, ns, low, ms[i].end, p)
  {
    var ms' := ms[i := Earlier(ms[i], low)];
    var ns := ms' + [Later(ms[i], low).(protection := p)];
    CutBack(ms, i, low);
    AppendDisjoint(ms', ns[|ms|]);
    forall a ensures Owner(ns, a) == if low <= a < ms[i].end then Repaint(Owner(ms, a), p) else Owner(ms, a) {
      OwnerUpdated(ms, i, ms'[i], a);
      OwnerAppended(ms', ns[|ms|], a);
      if Has(ms[i], a) { OwnerIs(ms, i, a); }
    }
  }

  lemma AppendDisjoint(ms: seq<Mapping>, m: Mapping)
    requires Disjoint(ms) && Tidy(m) && forall i :: 0 <= i < |ms| ==> Apart(ms[i], m)
    ensures Disjoint(ms + [m])
  {
  }

  lemma PaintMiddle(ms: seq<Mapping>, i: nat, low: nat, high: nat, p: nat)
    requires Disjoint(ms) && i < |ms| && ms[i].address < low < high < ms[i].end && Aligned(low) && Aligned(high)
    ensures var ns := ms[i := Earlier(ms[i], low)] + [Earlier(Later(ms[i], low), high).(protection := p)] +
            [Later(ms[i], high)];
            Disjoint(ns) && Repainted(ms, ns, low, high, p)
  {
    var changed, right := Earlier(Later(ms[i], low), high).(protection := p), Later(ms[i], high);
    var ms' := ms[i := Earlier(ms[i], low)];
    var ns := ms' + [changed] + [right];
    CutBack(ms, i, low);
    AppendDisjoint(ms', changed);
    AppendDisjoint(ms' + [changed], right);
    forall a ensures Owner(ns, a) == if low <= a < high then Repaint(Owner(ms, a), p) else Owner(ms, a) {
      OwnerUpdated(ms, i, ms'[i], a);
      OwnerAppended(ms', changed, a);
      OwnerAppended(ms' + [changed], right, a);
      if Has(ms[i], a) { OwnerIs(ms, i, a); }
    }
  }

  // --- A whole pass over the list

  function Needed(m: Mapping, low: nat, high: nat): nat {
    if Meets(m, low, high) then
      (if Low(m, low) > m.address then 1 else 0) + (if High(m, high) < m.end then 1 else 0)
    else 0
  }

  /** How many entries splitting the first `n` mappings adds. */
  ghost function NeededCount(ms: seq<Mapping>, low: nat, high: nat, n: nat): nat
    requires n <= |ms|
  {
    if n == 0 then 0 else NeededCount(ms, low, high, n - 1) + Needed(ms[n - 1], low, high)
  }

  lemma NeededGrows(ms: seq<Mapping>, low: nat, high: nat, n: nat, k: nat)
    requires n <= k <= |ms|
    ensures NeededCount(ms, low, high, n) <= NeededCount(ms, low, high, k)
  {
    if n < k { NeededGrows(ms, low, high, n, k - 1); }
  }

  ghost predicate OwnedBelow(ms: seq<Mapping>, n: nat, a: int)
    requires n <= |ms|
  {
    exists i :: 0 <= i < n && Has(ms[i], a)
  }

  /** The state of the pass before it looks at mapping `index`. */
  ghost predicate Painting(ms: seq<Mapping>, ns: seq<Mapping>, low: nat, high: nat, p: nat, index: nat) {
    && Disjoint(ms) && Disjoint(ns) && index <= |ms|
    && |ns| == |ms| + NeededCount(ms, low, high, index)
    && (forall i :: index <= i < |ms| ==> ns[i] == ms[i])
    && (forall a :: Owner(ns, a) == if low <= a < high && OwnedBelow(ms, index, a) then Repaint(Owner(ms, a), p)
        else Owner(ms, a))
  }

  lemma PaintStep(ms: seq<Mapping>, ns: seq<Mapping>, os: seq<Mapping>, low: nat, high: nat, p: nat, index: nat)
    requires Painting(ms, ns, low, high, p, index) && index < |ms| && Disjoint(os)
    requires |os| == |ns| + Needed(ms[index], low, high)
    requires forall i :: index < i < |ms| ==> os[i] == ns[i]
    requires if Meets(ms[index], low, high) then Repainted(ns, os, Low(ms[index], low), High(ms[index], high), p)
             else os == ns
    ensures Painting(ms, os, low, high, p, index + 1)
  {
    var m := ms[index];
    forall a ensures Owner(os, a) ==
      if low <= a < high && OwnedBelow(ms, index + 1, a) then Repaint(Owner(ms, a), p) else Owner(ms, a)
    {
      if Has(m, a) {
        assert OwnedBelow(ms, index + 1, a);
        forall i | 0 <= i < index ensures !Has(ms[i], a) { assert Apart(ms[i], m); }
      } else {
        assert OwnedBelow(ms, index + 1, a) <==> OwnedBelow(ms, index, a);
      }
    }
  }

  lemma PaintingDone(ms: seq<Mapping>, ns: seq<Mapping>, low: nat, high: nat, p: nat)
    requires Painting(ms, ns, low, high, p, |ms|)
    ensures Repainted(ms, ns, low, high, p)
  {
    forall a ensures OwnedBelow(ms, |ms|, a) <==> Owned(ms, a) {
    }
  }
}
