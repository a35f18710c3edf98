/** Taking an address range out of a mapping list, mapping by mapping. */
module MapCutting {
  import opened Mappings

  /** `ns` owns what `ms` owns, with the same rights, except [low, high). */
  ghost predicate CutOut(ms: seq<Mapping>, ns: seq<Mapping>, low: int, high: int) {
    forall a :: Owner(ns, a) == if low <= a < high then None else Owner(ms, a)
  }

  function Later(m: Mapping, start: nat): Mapping
    requires m.address <= start
  {
    m.(address := start, fileOffset := m.fileOffset + (start - m.address))
  }

  function Earlier(m: Mapping, end: nat): Mapping {
    m.(end := end)
  }

  lemma CutFront(ms: seq<Mapping>, i: nat, high: nat)
    requires Disjoint(ms) && i < |ms| && ms[i].address < high < ms[i].end && Aligned(high)
    ensures var ns := ms[i := Later(ms[i], high)];
            Disjoint(ns) && CutOut(ms, ns, ms[i].address, high)
  {
    var ns := ms[i := Later(ms[i], high)];
    assert Disjoint(ns);
    forall a ensures Owner(ns, a) == if ms[i].address <= a < high then None else Owner(ms, a) {
      OwnerUpdated(ms, i, Later(ms[i], high), a);
      if Has(ms[i], a) { OwnerIs(ms, i, a); }
    }
  }

  lemma CutBack(ms: seq<Mapping>, i: nat, low: nat)
    requires Disjoint(ms) && i < |ms| && ms[i].address < low < ms[i].end && Aligned(low)
    ensures var ns := ms[i := Earlier(ms[i], low)];
            Disjoint(ns) && CutOut(ms, ns, low, ms[i].end)
  {
    var ns := ms[i := Earlier(ms[i], low)];
    assert Disjoint(ns);
    forall a ensures Owner(ns, a) == if low <= a < ms[i].end then None else Owner(ms, a) {
      OwnerUpdated(ms, i, Earlier(ms[i], low), a);
      if Has(ms[i], a) { OwnerIs(ms, i, a); }
    }
  }

  lemma CutMiddle(ms: seq<Mapping>, i: nat, low: nat, high: nat)
    requires Disjoint(ms) && i < |ms| && ms[i].address < low < high < ms[i].end && Aligned(low) && Aligned(high)
    ensures var ns := ms[i := Earlier(ms[i], low)] + [Later(ms[i], high)];
            Disjoint(ns) && CutOut(ms, ns, low, high)
  {
    var ms' := ms[i := Earlier(ms[i], low)];
    var ns := ms' + [Later(ms[i], high)];
    CutBack(ms, i, low);
    assert Disjoint(ns);
    forall a ensures Owner(ns, a) == if low <= a < high then None else Owner(ms, a) {
      OwnerAppended(ms', Later(ms[i], high), a);
      if Has(ms[i], a) { OwnerIs(ms, i, a); }
    }
  }

  lemma CutWhole(ms: seq<Mapping>, i: nat)
    requires Disjoint(ms) && i < |ms|
    ensures Disjoint(Without(ms, i)) && CutOut(ms, Without(ms, i), ms[i].address, ms[i].end)
  {
    WithoutDisjoint(ms, i);
    forall a ensures Owner(Without(ms, i), a) == if ms[i].address <= a < ms[i].end then None else Owner(ms, a) {
      OwnerWithout(ms, i, a);
    }
  }

  // --- A whole pass over the list

  ghost predicate Splits(m: Mapping, low: int, high: int) {
    low > m.address && high < m.end
  }

  /** How many of the first `n` mappings reach beyond [low, high) on both sides. */
  ghost function SplitCount(ms: seq<Mapping>, low: int, high: int, n: nat): nat
    requires n <= |ms|
  {
    if n == 0 then 0 else SplitCount(ms, low, high, n - 1) + if Splits(ms[n - 1], low, high) then 1 else 0
  }

  lemma SplitCounted(ms: seq<Mapping>, low: int, high: int, n: nat, i: nat)
    requires i < n <= |ms| && Splits(ms[i], low, high)
    ensures SplitCount(ms, low, high, n) >= 1
  {
    if i < n - 1 { SplitCounted(ms, low, high, n - 1, i); }
  }

  /** The state of the pass before it looks at mapping `index`. */
  ghost predicate Cutting(ms: seq<Mapping>, ns: seq<Mapping>, low: int, high: int, index: nat) {
    && Disjoint(ms) && Disjoint(ns) && index <= |ns|
    && (forall i :: 0 <= i < index ==> !Meets(ns[i], low, high))
    && (forall a :: Owner(ns, a) == Owner(ms, a) || (low <= a < high && Owner(ns, a) == None))
    && (|ns| <= |ms| + 1)
    && (|ns| == |ms| + 1 ==> SplitCount(ms, low, high, |ms|) >= 1 && forall i :: 0 <= i < |ns| ==>
        !Meets(ns[i], low, high))
    && (|ns| <= |ms| ==> forall i :: index <= i < |ns| && Splits(ns[i], low, high) ==>
        SplitCount(ms, low, high, |ms|) >= 1)
  }

  lemma CuttingStart(ms: seq<Mapping>, low: int, high: int)
    requires Disjoint(ms)
    ensures Cutting(ms, ms, low, high, 0)
  {
    forall i | 0 <= i < |ms| && Splits(ms[i], low, high) ensures SplitCount(ms, low, high, |ms|) >= 1 {
      SplitCounted(ms, low, high, |ms|, i);
    }
  }

  lemma CuttingDone(ms: seq<Mapping>, ns: seq<Mapping>, low: int, high: int)
    requires Cutting(ms, ns, low, high, |ns|)
    ensures CutOut(ms, ns, low, high)
  {
    forall a | low <= a < high ensures !Owned(ns, a) {
      assert forall i :: 0 <= i < |ns| ==> !Meets(ns[i], low, high);
    }
  }

  /** The part of mapping `m` that lies in the range. */
  function Low(m: Mapping, low: nat): nat {
    if low > m.address then low else m.address
  }

  function High(m: Mapping, high: nat): nat {
    if high < m.end then high else m.end
  }

  lemma PassOver(ms: seq<Mapping>, ns: seq<Mapping>, low: nat, high: nat, index: nat)
    requires Cutting(ms, ns, low, high, index) && index < |ns| && !Meets(ns[index], low, high)
    ensures Cutting(ms, ns, low, high, index + 1)
  {
  }

  lemma CutStep(ms: seq<Mapping>, ns: seq<Mapping>, os: seq<Mapping>, low: nat, high: nat, index: nat, low': nat,
                high': nat)
    requires Cutting(ms, ns, low, high, index) && index < |ns| && low <= low' && high' <= high
    requires CutOut(ns, os, low', high')
    ensures forall a :: Owner(os, a) == Owner(ms, a) || (low <= a < high && Owner(os, a) == None)
  {
    forall a ensures Owner(os, a) == Owner(ms, a) || (low <= a < high && Owner(os, a) == None) {
      assert Owner(ns, a) == Owner(ms, a) || (low <= a < high && Owner(ns, a) == None);
    }
  }

  lemma RemoveWhole(ms: seq<Mapping>, ns: seq<Mapping>, low: nat, high: nat, index: nat)
    requires Cutting(ms, ns, low, high, index) && index < |ns|
    requires Meets(ns[index], low, high) && low <= ns[index].address && high >= ns[index].end
    ensures CutOut(ns, Without(ns, index), ns[index].address, ns[index].end)
    ensures Cutting(ms, Without(ns, index), low, high, index)
  {
    CutWhole(ns, index);
    CutStep(ms, ns, Without(ns, index), low, high, index, ns[index].address, ns[index].end);
  }

  lemma RemoveFront(ms: seq<Mapping>, ns: seq<Mapping>, low: nat, high: nat, index: nat)
    requires Cutting(ms, ns, low, high, index) && index < |ns| && Aligned(high)
    requires Meets(ns[index], low, high) && low <= ns[index].address && high < ns[index].end
    ensures CutOut(ns, ns[index := Later(ns[index], high)], ns[index].address, high)
    ensures Cutting(ms, ns[index := Later(ns[index], high)], low, high, index + 1)
  {
    CutFront(ns, index, high);
    CutStep(ms, ns, ns[index := Later(ns[index], high)], low, high, index, ns[index].address, high);
  }

  lemma RemoveBack(ms: seq<Mapping>, ns: seq<Mapping>, low: nat, high: nat, index: nat)
    requires Cutting(ms, ns, low, high, index) && index < |ns| && Aligned(low)
    requires Meets(ns[index], low, high) && low > ns[index].address && high >= ns[index].end
    ensures CutOut(ns, ns[index := Earlier(ns[index], low)], low, ns[index].end)
    ensures Cutting(ms, ns[index := Earlier(ns[index], low)], low, high, index + 1)
  {
    CutBack(ns, index, low);
    CutStep(ms, ns, ns[index := Earlier(ns[index], low)], low, high, index, low, ns[index].end);
  }

  lemma RemoveMiddle(ms: seq<Mapping>, ns: seq<Mapping>, low: nat, high: nat, index: nat)
    requires Cutting(ms, ns, low, high, index) && index < |ns| && Aligned(low) && Aligned(high)
    requires low < high && Splits(ns[index], low, high)
    ensures |ns| <= |ms| && SplitCount(ms, low, high, |ms|) >= 1
    ensures var os := ns[index := Earlier(ns[index], low)] + [Later(ns[index], high)];
            CutOut(ns, os, low, high) && Cutting(ms, os, low, high, index + 1)
  {
    var os := ns[index := Earlier(ns[index], low)] + [Later(ns[index], high)];
    CutMiddle(ns, index, low, high);
    CutStep(ms, ns, os, low, high, index, low, high);
    forall i | 0 <= i < |os| ensures !Meets(os[i], low, high) {
      assert i < |ns| && i != index ==> Apart(ns[i], ns[index]);
    }
  }

  // --- The bytes of removed mappings

  /** Memory while ownership goes from `ms` to `ns`: bytes that lost their owner are zero. */
  ghost predicate LostAreZero(m: seq<int>, r: seq<int>, ms: seq<Mapping>, ns: seq<Mapping>) {
    && |m| == |r|
    && forall a {:trigger r[a]} :: 0 <= a < |m| ==> r[a] == if Owner(ms, a).Some? && Owner(ns, a).None? then 0 else m[a]
  }

  lemma LoseRange(m: seq<int>, r: seq<int>, s: seq<int>, ms: seq<Mapping>, ns: seq<Mapping>, os: seq<Mapping>,
                  index: nat, low: nat, high: nat)
    requires LostAreZero(m, r, ms, ns) && |s| == |r|
    requires forall a :: 0 <= a < |r| ==> s[a] == if low <= a < high then 0 else r[a]
    requires CutOut(ns, os, low, high) && Disjoint(ns) && index < |ns| && ns[index].address <= low &&
             high <= ns[index].end
    requires forall a :: Owner(ns, a) == Owner(ms, a) || Owner(ns, a) == None
    ensures LostAreZero(m, s, ms, os)
  {
    forall a {:trigger s[a]} | 0 <= a < |m|
      ensures s[a] == if Owner(ms, a).Some? && Owner(os, a).None? then 0 else m[a]
    {
      assert r[a] == if Owner(ms, a).Some? && Owner(ns, a).None? then 0 else m[a];
      if low <= a < high { OwnerIs(ns, index, a); }
    }
  }

  // --- removing exactly the last mapping

  /** A mapping the range does not meet stays, and one it covers goes. */
  ghost predicate Stepped(ms: seq<Mapping>, ns: seq<Mapping>, low: nat, high: nat, index: nat, next: nat) {
    index < |ms| ==>
      && (!Meets(ms[index], low, high) ==> ns == ms && next == index + 1)
      && (low <= ms[index].address && ms[index].end <= high && Meets(ms[index], low, high) ==>
          ns == Without(ms, index) && next == index)
  }

  /** Where a pass stands that removes exactly the last mapping. */
  ghost predicate Nearing(ms: seq<Mapping>, ns: seq<Mapping>, low: nat, high: nat, index: nat) {
    EndsExactly(ms, low, high) ==>
      (ns == ms && index < |ms|) || (ns == Without(ms, |ms| - 1) && index == |ns|)
  }

  lemma NearingStep(ms: seq<Mapping>, ns: seq<Mapping>, os: seq<Mapping>, low: nat, high: nat, index: nat, next: nat)
    requires Disjoint(ms) && Nearing(ms, ns, low, high, index) && index < |ns| &&
             Stepped(ns, os, low, high, index, next)
    ensures Nearing(ms, os, low, high, next)
  {
    if EndsExactly(ms, low, high) {
      assert Tidy(ms[index]);
      if index < |ms| - 1 { assert Apart(ms[index], ms[|ms| - 1]); }
    }
  }
}
