/** Python's `sorted(xs, key=f)` and `xs.sort(key=f)`: a stable sort by an
    integer key. `reverse=True` keeps stability in Python, so a descending
    sort is this sort on the negated key. Written as an insertion sort, so
    that sortedness, permutation and stability can be proved about it. */
module Sorting {

  predicate SortedBy<T>(s: seq<T>, key: T -> int) {
    forall i, j :: 0 <= i < j < |s| ==> key(s[i]) <= key(s[j])
  }

  /** the elements of `s` whose key is `k`, in their order in `s`;
      a sort is stable when it keeps every such class unchanged */
  function KeyClass<T>(s: seq<T>, key: T -> int, k: int): seq<T>
  {
    if s == [] then []
    else (if key(s[0]) == k then [s[0]] else []) + KeyClass(s[1..], key, k)
  }

  lemma SortedTail<T>(s: seq<T>, key: T -> int)
    requires s != [] && SortedBy(s, key)
    ensures SortedBy(s[1..], key)
  {
    forall i, j | 0 <= i < j < |s[1..]| ensures key(s[1..][i]) <= key(s[1..][j]) {
      assert s[1..][i] == s[i + 1] && s[1..][j] == s[j + 1];
    }
  }

  lemma SortedCons<T>(y: T, t: seq<T>, key: T -> int)
    requires SortedBy(t, key)
    requires t == [] || key(y) <= key(t[0])
    ensures SortedBy([y] + t, key)
  {
    var r := [y] + t;
    forall i, j | 0 <= i < j < |r| ensures key(r[i]) <= key(r[j]) {
      assert r[j] == t[j - 1];
      if i == 0 {
        assert key(t[0]) <= key(t[j - 1]);
      } else {
        assert r[i] == t[i - 1];
      }
    }
  }

  /** `x` placed before the first element whose key is not smaller */
  function Insert<T>(x: T, s: seq<T>, key: T -> int): (r: seq<T>)
    requires SortedBy(s, key)
    ensures multiset(r) == multiset(s) + multiset{x}
    ensures |r| == |s| + 1
    ensures r[0] == x || (s != [] && r[0] == s[0])
    ensures SortedBy(r, key)
    decreases |s|
  {
    if s == [] || key(x) <= key(s[0]) then
      SortedCons(x, s, key);
      [x] + s
    else
      SortedTail(s, key);
      var t := Insert(x, s[1..], key);
      assert s == [s[0]] + s[1..];
      assert key(s[0]) <= key(t[0]) by {
        if t[0] != x {
          assert key(s[0]) <= key(s[1]);
        }
      }
      SortedCons(s[0], t, key);
      [s[0]] + t
  }

  /** the stable sort of `s` by `key`, smallest key first */
  function SortBy<T>(s: seq<T>, key: T -> int): (r: seq<T>)
    ensures |r| == |s|
    ensures multiset(r) == multiset(s)
    ensures SortedBy(r, key)
  {
    if s == [] then []
    else
      assert s == [s[0]] + s[1..];
      Insert(s[0], SortBy(s[1..], key), key)
  }

  lemma {:induction false} InsertKeyClass<T>(x: T, s: seq<T>, key: T -> int, k: int)
    requires SortedBy(s, key)
    ensures KeyClass(Insert(x, s, key), key, k)
         == (if key(x) == k then [x] else []) + KeyClass(s, key, k)
    decreases |s|
  {
    var r := Insert(x, s, key);
    var xs := if key(x) == k then [x] else [];
    if s == [] || key(x) <= key(s[0]) {
      assert r == [x] + s;
      assert r[0] == x && r[1..] == s;
      assert KeyClass(r, key, k) == xs + KeyClass(r[1..], key, k);
    } else {
      var t := Insert(x, s[1..], key);
      var ys := if key(s[0]) == k then [s[0]] else [];
      assert r == [s[0]] + t;
      assert r[0] == s[0] && r[1..] == t;
      InsertKeyClass(x, s[1..], key, k);
      assert KeyClass(r, key, k) == ys + (xs + KeyClass(s[1..], key, k));
      assert KeyClass(s, key, k) == ys + KeyClass(s[1..], key, k);
      assert xs == [] || ys == [];
    }
  }

  /** the sort is stable: elements with equal keys keep their relative order */
  lemma {:induction false} SortByStable<T>(s: seq<T>, key: T -> int, k: int)
    ensures KeyClass(SortBy(s, key), key, k) == KeyClass(s, key, k)
    decreases |s|
  {
    if s != [] {
      SortByStable(s[1..], key, k);
      InsertKeyClass(s[0], SortBy(s[1..], key), key, k);
    }
  }

  /** the key class of a prefix is a prefix of the key class */
  lemma {:induction false} KeyClassOfPrefix<T>(s: seq<T>, n: nat, key: T -> int, k: int)
    requires n <= |s|
    ensures KeyClass(s[..n], key, k) <= KeyClass(s, key, k)
    decreases n
  {
    if n > 0 {
      assert s[..n][1..] == s[1..][..n - 1];
      KeyClassOfPrefix(s[1..], n - 1, key, k);
    }
  }
}
