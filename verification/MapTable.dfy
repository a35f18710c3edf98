/** The mapping table of a process: an unordered array of records and a count. */
module MapTables {
  import opened Mappings
  import opened MapCutting
  import opened MapProtecting

  const MAP_CAPACITY := 256
  const NOT_OWNED := -4096
  const EMPTY := Mapping(0, 0, 0, 0, 0, 0, 0)

  /** Round up to a whole page: adding 4095 and clearing the low 12 bits. */
  function PageUp(x: nat): (r: nat)
    ensures Aligned(r) && x <= r < x + 4096
  {
    if Aligned(x) then x else x + 4096 - x % 4096
  }

  ghost predicate Free(ms: seq<Mapping>, low: nat, high: nat, except: int) {
    forall i :: 0 <= i < |ms| && i != except ==> !Meets(ms[i], low, high)
  }

  ghost predicate Covered(ms: seq<Mapping>, low: nat, high: nat) {
    forall a :: low <= a < high ==> Owned(ms, a)
  }

  /** What protecting a range answers. */
  ghost function ProtectAnswer(ms: seq<Mapping>, top: nat, address: nat, length: nat, protection: nat): int {
    if length == 0 || protection > 7 || !Aligned(address) || address >= top || PageUp(length) > top - address then -22
    else if Free(ms, address, address + PageUp(length), -1) then NOT_OWNED
    else if !Covered(ms, address, address + PageUp(length)) then -12
    else if |ms| + NeededCount(ms, address, address + PageUp(length), |ms|) > MAP_CAPACITY then -12
    else 0
  }

  /** What removing a range answers. */
  ghost function UnmapAnswer(ms: seq<Mapping>, top: nat, address: nat, length: nat): int {
    if length == 0 || !Aligned(address) || address >= top || PageUp(length) > top - address then -22
    else if Free(ms, address, address + PageUp(length), -1) then NOT_OWNED
    else if |ms| + SplitCount(ms, address, address + PageUp(length), |ms|) > MAP_CAPACITY then -12
    else 0
  }

  /** After a mapping that holds the whole range is split, nothing meets it. */
  lemma OthersMiss(ms: seq<Mapping>, low: nat, high: nat, index: nat)
    requires Disjoint(ms) && index < |ms| && low <= high && Splits(ms[index], low, high)
    ensures Free(ms[index := Earlier(ms[index], low)] + [Later(ms[index], high)], low, high, -1)
  {
    forall i | 0 <= i < |ms| && i != index ensures !Meets(ms[i], low, high) {
      assert Apart(ms[i], ms[index]);
    }
  }

  class MapTable {
    const maps: array<Mapping>
    var count: nat
    ghost var list: seq<Mapping>

    ghost predicate Valid()
      reads this, maps
    {
      && maps.Length == MAP_CAPACITY
      && |list| == count <= MAP_CAPACITY
      && (forall i :: 0 <= i < count ==> maps[i] == list[i])
      && Disjoint(list)
    }

    constructor ()
      ensures Valid() && list == [] && fresh(maps)
    {
      maps := new Mapping[MAP_CAPACITY](_ => EMPTY);
      count, list := 0, [];
    }

    method Clear()
      modifies `count, `list, maps
      requires Valid()
      ensures Valid() && list == []
    {
      forall i | 0 <= i < maps.Length { maps[i] := EMPTY; }
      count, list := 0, [];
    }

    /** Does a mapping other than number `except` meet the range? */
    method AnyMeets(low: nat, high: nat, except: int) returns (found: bool)
      requires Valid()
      ensures found <==> !Free(list, low, high, except)
    {
      var index := 0;
      while index < count
        invariant 0 <= index <= count
        invariant forall i :: 0 <= i < index && i != except ==> !Meets(list[i], low, high)
      {
        if index != except && low < maps[index].end && high > maps[index].address { return true; }
        index := index + 1;
      }
      return false;
    }

    method Covers(low: nat, high: nat) returns (all: bool)
      requires Valid()
      ensures all <==> Covered(list, low, high)
    {
      var cursor := low;
      while cursor < high
        invariant low <= cursor && forall a :: low <= a < high && a < cursor ==> Owned(list, a)
        decreases high - cursor
      {
        var found, index := false, 0;
        while index < count && !found
          invariant 0 <= index <= count
          invariant found ==> index < count && Has(list[index], cursor)
          invariant low <= cursor < high
          invariant !found ==> forall i :: 0 <= i < index ==> !Has(list[i], cursor)
          decreases !found, count - index
        {
          if cursor >= maps[index].address && cursor < maps[index].end { found := true; } else { index := index + 1; }
        }
        if !found {
          assert !Owned(list, cursor);
          return false;
        }
        var stop := if maps[index].end < high then maps[index].end else high;
        forall a | cursor <= a < stop ensures Owned(list, a) { assert Has(list[index], a); }
        cursor := stop;
      }
      return true;
    }

    method Append(m: Mapping)
      requires Valid() && count < MAP_CAPACITY && Disjoint(list + [m])
      modifies `count, `list, maps
      ensures Valid() && list == old(list) + [m]
    {
      maps[count] := m;
      count := count + 1;
      list := list + [m];
    }

    method Put(index: nat, m: Mapping)
      requires Valid() && index < count && Disjoint(list[index := m])
      modifies `list, maps
      ensures Valid() && list == old(list)[index := m]
    {
      maps[index] := m;
      list := list[index := m];
    }

    /** Remove a mapping; the ones after it move down by one. */
    method Remove(index: nat)
      requires Valid() && index < count
      modifies `count, `list, maps
      ensures Valid() && list == Without(old(list), index)
    {
      var move := index;
      while move + 1 < count
        invariant index <= move < count == old(count) && list == old(list)
        invariant forall i {:trigger maps[i]} :: 0 <= i < count ==> maps[i] == if index <= i < move then list[i + 1]
                  else list[i]
      {
        maps[move] := maps[move + 1];
        move := move + 1;
      }
      count := count - 1;
      maps[count] := EMPTY;
      WithoutDisjoint(list, index);
      list := Without(list, index);
    }

    /** Count the entries that protecting the range will add. */
    method CountNeeded(low: nat, high: nat) returns (hit: bool, needed: nat)
      requires Valid()
      ensures hit <==> !Free(list, low, high, -1)
      ensures needed == NeededCount(list, low, high, |list|)
    {
      hit, needed := false, 0;
      var index := 0;
      while index < count
        invariant 0 <= index <= count
        invariant hit <==> exists i :: 0 <= i < index && Meets(list[i], low, high)
        invariant needed == NeededCount(list, low, high, index)
      {
        var m := maps[index];
        if low < m.end && high > m.address {
          hit := true;
          if Low(m, low) > m.address { needed := needed + 1; }
          if High(m, high) < m.end { needed := needed + 1; }
        }
        index := index + 1;
      }
    }

    method ProtectStep(low: nat, high: nat, protection: nat, index: nat)
      requires Valid() && index < count && low < high && Aligned(low) && Aligned(high)
      requires count + Needed(list[index], low, high) <= MAP_CAPACITY
      modifies `count, `list, maps
      ensures Valid() && |list| == |old(list)| + Needed(old(list)[index], low, high)
      ensures forall i :: 0 <= i < |old(list)| && i != index ==> list[i] == old(list)[i]
      ensures var m := old(list)[index];
              if Meets(m, low, high) then Repainted(old(list), list, Low(m, low), High(m, high), protection)
                 else list == old(list)
    {
      var m := maps[index];
      if low >= m.end || high <= m.address {
      } else {
        var l, h := Low(m, low), High(m, high);
        if l == m.address && h == m.end {
          PaintWhole(list, index, protection);
          Put(index, m.(protection := protection));
        } else if l == m.address {
          PaintFront(list, index, h, protection);
          maps[count] := Later(m, h);
          maps[index] := Earlier(m, h).(protection := protection);
          count := count + 1;
          list := list[index := Earlier(m, h).(protection := protection)] + [Later(m, h)];
        } else if h == m.end {
          PaintBack(list, index, l, protection);
          maps[count] := Later(m, l).(protection := protection);
          maps[index] := Earlier(m, l);
          count := count + 1;
          list := list[index := Earlier(m, l)] + [Later(m, l).(protection := protection)];
        } else {
          PaintMiddle(list, index, l, h, protection);
          maps[count] := Earlier(Later(m, l), h).(protection := protection);
          maps[count + 1] := Later(m, h);
          maps[index] := Earlier(m, l);
          count := count + 2;
          list := list[index := Earlier(m, l)] + [Earlier(Later(m, l), h).(protection := protection)] + [Later(m, h)];
        }
      }
    }

    method Protect(top: nat, address: nat, length: nat, protection: nat) returns (r: int)
      requires Valid()
      modifies `count, `list, maps
      ensures Valid()
      ensures r == ProtectAnswer(old(list), top, address, length, protection)
      ensures r != 0 ==> list == old(list)
      ensures r == 0 ==> Repainted(old(list), list, address, address + PageUp(length), protection)
      ensures r == 0 ==> |list| == |old(list)| + NeededCount(old(list), address, address + PageUp(length), |old(list)|)
    {
      if length == 0 || protection > 7 || !Aligned(address) || address >= top || length > top - address { return -22; }
      var size := PageUp(length);
      if size == 0 || size > top - address { return -22; }
      var end := address + size;
      var original := count;
      var hit, needed := CountNeeded(address, end);
      if !hit { return NOT_OWNED; }
      var covered := Covers(address, end);
      if !covered { return -12; }
      if needed > MAP_CAPACITY - original { return -12; }
      Paint(address, end, protection);
      return 0;
    }

    method Paint(low: nat, high: nat, protection: nat)
      requires Valid() && low < high && Aligned(low) && Aligned(high)
      requires |list| + NeededCount(list, low, high, |list|) <= MAP_CAPACITY
      modifies `count, `list, maps
      ensures Valid() && Repainted(old(list), list, low, high, protection)
      ensures |list| == |old(list)| + NeededCount(old(list), low, high, |old(list)|)
    {
      var original := count;
      ghost var ms := list;
      var index := 0;
      while index < original
        invariant 0 <= index <= original == |ms|
        invariant Valid() && Painting(ms, list, low, high, protection, index)
      {
        NeededGrows(ms, low, high, index + 1, |ms|);
        ghost var ns := list;
        ProtectStep(low, high, protection, index);
        PaintStep(ms, ns, list, low, high, protection, index);
        index := index + 1;
      }
      PaintingDone(ms, list, low, high, protection);
    }
  }
}
