/** A stable sort by an integer key, and what stability keeps. */
module Sorting {

  /** Put `x` before the first element whose key is not smaller. */
  function Insert<T>(x: T, s: seq<T>, key: T -> int): (r: seq<T>)
    ensures |r| == |s| + 1
  {
    if s == [] || key(x) <= key(s[0]) then [x] + s else [s[0]] + Insert(x, s[1..], key)
  }

  function StableSort<T>(s: seq<T>, key: T -> int): (r: seq<T>)
    ensures |r| == |s|
  {
    if s == [] then [] else Insert(s[0], StableSort(s[1..], key), key)
  }

  ghost predicate Ascending<T(!new)>(s: seq<T>, key: T -> int) {
    forall i, j {:trigger s[i], s[j]} :: 0 <= i < j < |s| ==> key(s[i]) <= key(s[j])
  }

  lemma {:induction false} InsertKeeps<T(!new)>(x: T, s: seq<T>, key: T -> int)
    ensures forall y :: y in Insert(x, s, key) <==> y == x || y in s
    ensures Ascending(s, key) ==> Ascending(Insert(x, s, key), key)
  {
    if s != [] && key(x) > key(s[0]) {
      var rest, r := Insert(x, s[1..], key), Insert(x, s, key);
      InsertKeeps(x, s[1..], key);
      forall y ensures y in r <==> y == x || y in s {
        assert s == [s[0]] + s[1..] && r == [s[0]] + rest;
      }
      if Ascending(s, key) {
        forall i, j {:trigger r[i], r[j]} | 0 <= i < j < |r| ensures key(r[i]) <= key(r[j]) {
          assert r[j] == rest[j - 1] && (i > 0 ==> r[i] == rest[i - 1]);
          assert rest[j - 1] in rest;
        }
      }
    }
  }

  lemma {:induction false} SortKeeps<T(!new)>(s: seq<T>, key: T -> int)
    ensures forall y :: y in StableSort(s, key) <==> y in s
    ensures Ascending(StableSort(s, key), key)
  {
    if s != [] {
      SortKeeps(s[1..], key);
      InsertKeeps(s[0], StableSort(s[1..], key), key);
      assert s == [s[0]] + s[1..];
    }
  }

  /** What is in order already stays as it is. */
  lemma {:induction false} SortedStays<T(!new)>(s: seq<T>, key: T -> int)
    requires Ascending(s, key)
    ensures StableSort(s, key) == s
  {
    if s != [] {
      forall i, j {:trigger s[1..][i], s[1..][j]} | 0 <= i < j < |s[1..]| ensures key(s[1..][i]) <= key(s[1..][j]) {
        assert s[1..][i] == s[i + 1] && s[1..][j] == s[j + 1];
      }
      SortedStays(s[1..], key);
      if |s| > 1 { assert key(s[0]) <= key(s[1]); }
      assert s == [s[0]] + s[1..];
    }
  }

  function Filter<T>(s: seq<T>, p: T -> bool): (r: seq<T>)
    ensures |r| <= |s|
  {
    if s == [] then [] else (if p(s[0]) then [s[0]] else []) + Filter(s[1..], p)
  }

  lemma {:induction false} FilterKeeps<T(!new)>(s: seq<T>, p: T -> bool)
    ensures forall y :: y in Filter(s, p) <==> y in s && p(y)
  {
    if s != [] {
      FilterKeeps(s[1..], p);
      assert s == [s[0]] + s[1..];
    }
  }

  lemma JoinedRest<T>(a: seq<T>, b: seq<T>)
    requires a != []
    ensures (a + b)[0] == a[0] && (a + b)[1..] == a[1..] + b
  {
  }

  lemma {:induction false} FilterJoins<T>(a: seq<T>, b: seq<T>, p: T -> bool)
    ensures Filter(a + b, p) == Filter(a, p) + Filter(b, p)
  {
    if a == [] {
      assert a + b == b;
    } else {
      FilterJoins(a[1..], b, p);
      JoinedRest(a, b);
    }
  }

  lemma {:induction false} FilterNothing<T>(s: seq<T>, p: T -> bool)
    requires forall i :: 0 <= i < |s| ==> !p(s[i])
    ensures Filter(s, p) == []
  {
    if s != [] { FilterNothing(s[1..], p); }
  }

  lemma {:induction false} FilterAscending<T(!new)>(s: seq<T>, p: T -> bool, key: T -> int)
    requires Ascending(s, key)
    ensures Ascending(Filter(s, p), key)
  {
    if s != [] {
      forall i, j {:trigger s[1..][i], s[1..][j]} | 0 <= i < j < |s[1..]| ensures key(s[1..][i]) <= key(s[1..][j]) {
        assert s[1..][i] == s[i + 1] && s[1..][j] == s[j + 1];
      }
      FilterAscending(s[1..], p, key);
      FilterKeeps(s[1..], p);
      var r, rest := Filter(s, p), Filter(s[1..], p);
      forall i, j {:trigger r[i], r[j]} | 0 <= i < j < |r| ensures key(r[i]) <= key(r[j]) {
        if p(s[0]) {
          assert r[j] == rest[j - 1] && rest[j - 1] in s[1..];
          if i == 0 { AscendingFirst(s, key, rest[j - 1]); } else { assert r[i] == rest[i - 1]; }
        }
      }
    }
  }

  lemma AscendingFirst<T(!new)>(s: seq<T>, key: T -> int, y: T)
    requires s != [] && Ascending(s, key) && y in s[1..]
    ensures key(s[0]) <= key(y)
  {
    var k :| 0 <= k < |s[1..]| && s[1..][k] == y;
    assert s[k + 1] == y;
  }

  /** Elements of one key keep their order. */
  lemma {:induction false} InsertFilter<T(!new)>(x: T, s: seq<T>, key: T -> int, p: T -> bool, k: int)
    requires forall y :: p(y) ==> key(y) == k
    ensures Filter(Insert(x, s, key), p) == Filter([x] + s, p)
  {
    if s != [] && key(x) > key(s[0]) {
      InsertFilter(x, s[1..], key, p, k);
      assert ([s[0]] + Insert(x, s[1..], key))[1..] == Insert(x, s[1..], key);
      assert ([x] + s[1..])[1..] == s[1..] && ([x] + s)[1..] == s;
      assert !(p(x) && p(s[0]));
    }
  }

  lemma {:induction false} SortFilter<T(!new)>(s: seq<T>, key: T -> int, p: T -> bool, k: int)
    requires forall y :: p(y) ==> key(y) == k
    ensures Filter(StableSort(s, key), p) == Filter(s, p)
  {
    if s != [] {
      SortFilter(s[1..], key, p, k);
      var rest := StableSort(s[1..], key);
      InsertFilter(s[0], rest, key, p, k);
      assert ([s[0]] + rest)[1..] == rest;
    }
  }

  lemma {:induction false} InsertFilterSize<T(!new)>(x: T, s: seq<T>, key: T -> int, p: T -> bool)
    ensures |Filter(Insert(x, s, key), p)| == |Filter([x] + s, p)|
  {
    if s != [] && key(x) > key(s[0]) {
      InsertFilterSize(x, s[1..], key, p);
      assert ([s[0]] + Insert(x, s[1..], key))[1..] == Insert(x, s[1..], key);
      assert ([x] + s[1..])[1..] == s[1..] && ([x] + s)[1..] == s;
    }
  }

  lemma {:induction false} SortFilterSize<T(!new)>(s: seq<T>, key: T -> int, p: T -> bool)
    ensures |Filter(StableSort(s, key), p)| == |Filter(s, p)|
  {
    if s != [] {
      SortFilterSize(s[1..], key, p);
      var rest := StableSort(s[1..], key);
      InsertFilterSize(s[0], rest, key, p);
      assert ([s[0]] + rest)[1..] == rest;
    }
  }

  ghost predicate Distinct<T>(s: seq<T>) {
    s == [] || (s[0] !in s[1..] && Distinct(s[1..]))
  }

  lemma {:induction false} DistinctAt<T>(s: seq<T>, i: nat, j: nat)
    requires Distinct(s) && i < j < |s|
    ensures s[i] != s[j]
  {
    assert s[1..][j - 1] == s[j];
    if i > 0 { DistinctAt(s[1..], i - 1, j - 1); }
  }

  lemma {:induction false} DistinctWhen<T>(s: seq<T>)
    requires forall i, j {:trigger s[i], s[j]} :: 0 <= i < j < |s| ==> s[i] != s[j]
    ensures Distinct(s)
  {
    if s != [] {
      forall i, j {:trigger s[1..][i], s[1..][j]} | 0 <= i < j < |s[1..]| ensures s[1..][i] != s[1..][j] {
        assert s[1..][i] == s[i + 1] && s[1..][j] == s[j + 1];
      }
      DistinctWhen(s[1..]);
      forall k | 0 <= k < |s[1..]| ensures s[1..][k] != s[0] { assert s[1..][k] == s[k + 1]; }
    }
  }

  lemma {:induction false} InsertDistinct<T(!new)>(x: T, s: seq<T>, key: T -> int)
    requires Distinct(s) && x !in s
    ensures Distinct(Insert(x, s, key))
  {
    if s == [] || key(x) <= key(s[0]) {
      assert ([x] + s)[1..] == s;
    } else {
      var rest := Insert(x, s[1..], key);
      InsertDistinct(x, s[1..], key);
      InsertKeeps(x, s[1..], key);
      assert ([s[0]] + rest)[1..] == rest;
    }
  }

  /** What was distinct stays distinct. */
  lemma {:induction false} SortDistinct<T(!new)>(s: seq<T>, key: T -> int)
    requires Distinct(s)
    ensures Distinct(StableSort(s, key))
  {
    if s != [] {
      SortDistinct(s[1..], key);
      SortKeeps(s[1..], key);
      InsertDistinct(s[0], StableSort(s[1..], key), key);
    }
  }
}
