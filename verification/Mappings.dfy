/** The anonymous mappings of a process as a value: an unordered list of
    page-aligned ranges that never meet.  `Owner` says what the list means at
    each address; the lemmas say what one change of the list means. */
module Mappings {

  const MAP_PAGE := 4096
  const MAP_GUARD := 1024 * 1024
  const MAP_SPACING := 16 * 1024 * 1024

  predicate Aligned(a: int) {
    a % 4096 == 0
  }

  datatype Option<T> = None | Some(value: T)

  datatype Mapping = Mapping(address: nat, end: nat, protection: nat, flags: nat, descriptor: int, fileOffset: nat,
                             backing: nat)

  /** What a mapping says about one of its addresses. */
  datatype Rights = Rights(protection: nat, flags: nat, descriptor: int, filePosition: int, backing: nat)

  predicate Has(m: Mapping, a: int) {
    m.address <= a < m.end
  }

  predicate Meets(m: Mapping, low: int, high: int) {
    low < m.end && high > m.address
  }

  ghost function RightsAt(m: Mapping, a: int): Rights {
    Rights(m.protection, m.flags, m.descriptor, m.fileOffset + (a - m.address), m.backing)
  }

  ghost predicate Owned(ms: seq<Mapping>, a: int) {
    exists i :: 0 <= i < |ms| && Has(ms[i], a)
  }

  ghost function Owner(ms: seq<Mapping>, a: int): Option<Rights> {
    if Owned(ms, a) then
      var i :| 0 <= i < |ms| && Has(ms[i], a);
      Some(RightsAt(ms[i], a))
    else None
  }

  ghost predicate Apart(m: Mapping, n: Mapping) {
    m.end <= n.address || n.end <= m.address
  }

  ghost predicate Tidy(m: Mapping) {
    m.address < m.end && Aligned(m.address) && Aligned(m.end) && m.fileOffset <= m.address
  }

  ghost predicate Disjoint(ms: seq<Mapping>) {
    && (forall i :: 0 <= i < |ms| ==> Tidy(ms[i]))
    && (forall i, j :: 0 <= i < |ms| && 0 <= j < |ms| && i != j ==> Apart(ms[i], ms[j]))
  }

  lemma OwnerIs(ms: seq<Mapping>, i: nat, a: int)
    requires Disjoint(ms) && i < |ms| && Has(ms[i], a)
    ensures Owner(ms, a) == Some(RightsAt(ms[i], a))
  {
    var j :| 0 <= j < |ms| && Has(ms[j], a) && Owner(ms, a) == Some(RightsAt(ms[j], a));
    if i != j { assert Apart(ms[i], ms[j]); }
  }

  lemma OwnerUpdated(ms: seq<Mapping>, i: nat, m: Mapping, a: int)
    requires Disjoint(ms) && i < |ms| && Disjoint(ms[i := m])
    ensures Owner(ms[i := m], a) ==
      if Has(m, a) then Some(RightsAt(m, a)) else if Has(ms[i], a) then None else Owner(ms, a)
  {
    var ns := ms[i := m];
    if Has(m, a) {
      OwnerIs(ns, i, a);
    } else if Owned(ns, a) {
      var j :| 0 <= j < |ns| && Has(ns[j], a);
      OwnerIs(ns, j, a);
      OwnerIs(ms, j, a);
      assert Apart(ms[i], ms[j]);
    } else {
      assert forall j :: 0 <= j < |ms| && j != i ==> ns[j] == ms[j] && !Has(ms[j], a);
    }
  }

  lemma OwnerAppended(ms: seq<Mapping>, m: Mapping, a: int)
    requires Disjoint(ms + [m]) && Disjoint(ms)
    ensures Owner(ms + [m], a) == if Has(m, a) then Some(RightsAt(m, a)) else Owner(ms, a)
  {
    var ns := ms + [m];
    if Has(m, a) {
      OwnerIs(ns, |ms|, a);
    } else if Owned(ns, a) {
      var j :| 0 <= j < |ns| && Has(ns[j], a);
      OwnerIs(ns, j, a);
      OwnerIs(ms, j, a);
    } else {
      assert forall j :: 0 <= j < |ms| ==> ns[j] == ms[j] && !Has(ms[j], a);
    }
  }

  ghost function Without(ms: seq<Mapping>, i: nat): (r: seq<Mapping>)
    requires i < |ms|
    ensures |r| == |ms| - 1
    ensures forall j :: 0 <= j < |r| ==> r[j] == if j < i then ms[j] else ms[j + 1]
  {
    seq(|ms| - 1, j requires 0 <= j < |ms| - 1 => if j < i then ms[j] else ms[j + 1])
  }

  /** The last mapping is exactly [low, high). */
  ghost predicate EndsExactly(ms: seq<Mapping>, low: nat, high: nat) {
    |ms| > 0 && ms[|ms| - 1].address == low && ms[|ms| - 1].end == high
  }

  lemma WithoutLast(ms: seq<Mapping>, m: Mapping)
    ensures Without(ms + [m], |ms|) == ms
  {
  }

  lemma WithoutDisjoint(ms: seq<Mapping>, i: nat)
    requires Disjoint(ms) && i < |ms|
    ensures Disjoint(Without(ms, i))
  {
  }

  lemma OwnerWithout(ms: seq<Mapping>, i: nat, a: int)
    requires Disjoint(ms) && i < |ms|
    ensures Owner(Without(ms, i), a) == if Has(ms[i], a) then None else Owner(ms, a)
  {
    WithoutDisjoint(ms, i);
    var ns := Without(ms, i);
    if Owned(ns, a) {
      var j :| 0 <= j < |ns| && Has(ns[j], a);
      var k := if j < i then j else j + 1;
      OwnerIs(ns, j, a);
      OwnerIs(ms, k, a);
      assert Apart(ms[i], ms[k]);
    } else {
      forall j | 0 <= j < |ms| && j != i ensures !Has(ms[j], a) {
        assert ms[j] == ns[if j < i then j else j - 1];
      }
    }
  }
}
