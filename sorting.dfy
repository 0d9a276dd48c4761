/**
 * Python's `sorted(xs, key=k, reverse=True)`: a stable sort into
 * non-increasing key order. Stable means that elements with equal keys
 * keep the order they had in the input (which `reverse=True` preserves).
 * It is written as an insertion sort; the lemmas below pin it down as
 * the unique sequence that is sorted, a permutation of the input, and
 * stable.
 */
module Sorting {

  ghost predicate SortedDesc<T>(s: seq<T>, key: T -> int) {
    forall i, j :: 0 <= i < j < |s| ==> key(s[i]) >= key(s[j])
  }

  /** The elements of `s` whose key is `k`, in their order in `s`. */
  function WithKey<T>(s: seq<T>, key: T -> int, k: int): seq<T> {
    if s == [] then []
    else (if key(s[0]) == k then [s[0]] else []) + WithKey(s[1..], key, k)
  }

  /** Inserts `x` in front of the first element whose key is not above `key(x)`. */
  function Insert<T>(x: T, s: seq<T>, key: T -> int): (r: seq<T>)
    ensures |r| == |s| + 1
    ensures multiset(r) == multiset(s) + multiset{x}
  {
    if s == [] || key(x) >= key(s[0]) then [x] + s
    else
      assert s == [s[0]] + s[1..];
      [s[0]] + Insert(x, s[1..], key)
  }

  lemma {:induction false} InsertSorted<T>(x: T, s: seq<T>, key: T -> int)
    requires SortedDesc(s, key)
    ensures SortedDesc(Insert(x, s, key), key)
    ensures Insert(x, s, key)[0] == x || (s != [] && Insert(x, s, key)[0] == s[0])
  {
    if s != [] && key(x) < key(s[0]) {
      var t := Insert(x, s[1..], key);
      InsertSorted(x, s[1..], key);
      assert key(s[0]) >= key(t[0]);
      var r := [s[0]] + t;
      forall i, j | 0 <= i < j < |r| ensures key(r[i]) >= key(r[j]) {
        if i == 0 && j > 1 {
          assert key(t[0]) >= key(t[j - 1]);
        }
      }
    }
  }

  function SortDesc<T>(s: seq<T>, key: T -> int): (r: seq<T>)
    ensures |r| == |s|
    ensures multiset(r) == multiset(s)
    ensures SortedDesc(r, key)
  {
    if s == [] then []
    else
      assert s == [s[0]] + s[1..];
      assert multiset(s) == multiset{s[0]} + multiset(s[1..]);
      InsertSorted(s[0], SortDesc(s[1..], key), key);
      Insert(s[0], SortDesc(s[1..], key), key)
  }

  lemma {:induction false} InsertWithKey<T>(x: T, s: seq<T>, key: T -> int, k: int)
    ensures WithKey(Insert(x, s, key), key, k)
         == (if key(x) == k then [x] else []) + WithKey(s, key, k)
  {
    if s == [] || key(x) >= key(s[0]) {
      var r := [x] + s;
      assert r[0] == x && r[1..] == s;
    } else {
      InsertWithKey(x, s[1..], key, k);
      InsertPastHead(x, s, key, k);
    }
  }

  /** Inserting past the head: the head's share of `k` comes first, then the rest's. */
  lemma {:induction false} InsertPastHead<T>(x: T, s: seq<T>, key: T -> int, k: int)
    requires s != [] && key(x) < key(s[0])
    requires WithKey(Insert(x, s[1..], key), key, k)
          == (if key(x) == k then [x] else []) + WithKey(s[1..], key, k)
    ensures WithKey(Insert(x, s, key), key, k)
         == (if key(x) == k then [x] else []) + WithKey(s, key, k)
  {
    var mine := if key(x) == k then [x] else [];
    var head := if key(s[0]) == k then [s[0]] else [];
    var t := Insert(x, s[1..], key);
    assert Insert(x, s, key) == [s[0]] + t;
    WithKeyCons(s[0], t, key, k);
    SwapEmpty(head, mine, WithKey(s[1..], key, k));
  }

  /** The elements of key `k` in `[y] + t`. */
  lemma {:induction false} WithKeyCons<T>(y: T, t: seq<T>, key: T -> int, k: int)
    ensures WithKey([y] + t, key, k) == (if key(y) == k then [y] else []) + WithKey(t, key, k)
  {
    var r := [y] + t;
    assert r[0] == y && r[1..] == t;
  }

  lemma {:induction false} SwapEmpty<T>(a: seq<T>, b: seq<T>, c: seq<T>)
    requires a == [] || b == []
    ensures a + (b + c) == b + (a + c)
  {
    if a == [] {
      assert a + (b + c) == b + c == b + (a + c);
    } else {
      assert a + (b + c) == a + c == b + (a + c);
    }
  }

  /** The sort is stable: among equal keys the input order survives. */
  lemma {:induction false} SortDescIsStable<T>(s: seq<T>, key: T -> int, k: int)
    ensures WithKey(SortDesc(s, key), key, k) == WithKey(s, key, k)
  {
    if s != [] {
      SortDescIsStable(s[1..], key, k);
      InsertWithKey(s[0], SortDesc(s[1..], key), key, k);
    }
  }

  /** Sorting an already sorted sequence leaves it unchanged. */
  lemma {:induction false} SortDescOfSorted<T>(s: seq<T>, key: T -> int)
    requires SortedDesc(s, key)
    ensures SortDesc(s, key) == s
  {
    if s != [] {
      SortDescOfSorted(s[1..], key);
      assert [s[0]] + s[1..] == s;
    }
  }

  /** Sorting is idempotent. */
  lemma {:induction false} SortDescIdempotent<T>(s: seq<T>, key: T -> int)
    ensures SortDesc(SortDesc(s, key), key) == SortDesc(s, key)
  {
    SortDescOfSorted(SortDesc(s, key), key);
  }

  function IntKey(x: int): int { x }

  /** Integers sorted into non-increasing order are determined by their multiset. */
  lemma {:induction false} SortedIntsUnique(a: seq<int>, b: seq<int>)
    requires SortedDesc(a, IntKey) && SortedDesc(b, IntKey)
    requires multiset(a) == multiset(b)
    ensures a == b
    decreases |a|
  {
    if a != [] {
      SameHead(a, b);
      SortedIntsUnique(a[1..], b[1..]);
      assert a == [a[0]] + a[1..] && b == [b[0]] + b[1..];
    }
  }

  /** Two sorted permutations of each other start alike and continue as sorted permutations. */
  lemma {:induction false} SameHead(a: seq<int>, b: seq<int>)
    requires SortedDesc(a, IntKey) && SortedDesc(b, IntKey)
    requires multiset(a) == multiset(b) && a != []
    ensures b != [] && a[0] == b[0]
    ensures SortedDesc(a[1..], IntKey) && SortedDesc(b[1..], IntKey)
    ensures multiset(a[1..]) == multiset(b[1..])
  {
    assert |a| == |multiset(a)| == |multiset(b)| == |b|;
    assert b[0] in multiset(b) && a[0] in multiset(a);
    HeadIsMax(a, b[0]);
    HeadIsMax(b, a[0]);
    DropHead(a);
    DropHead(b);
  }

  lemma {:induction false} DropHead(a: seq<int>)
    requires a != [] && SortedDesc(a, IntKey)
    ensures multiset(a[1..]) == multiset(a) - multiset{a[0]}
    ensures SortedDesc(a[1..], IntKey)
  {
    assert a == [a[0]] + a[1..];
  }

  lemma {:induction false} HeadIsMax(a: seq<int>, x: int)
    requires SortedDesc(a, IntKey) && x in multiset(a)
    ensures a[0] >= x
  {
    var i :| 0 <= i < |a| && a[i] == x;
    if i > 0 {
      assert IntKey(a[0]) >= IntKey(a[i]);
    }
  }

  /** Count of the elements of `s` in the half-open range [lo, hi). */
  function CountInRange(s: seq<int>, lo: int, hi: int): nat {
    if s == [] then 0
    else (if lo <= s[0] < hi then 1 else 0) + CountInRange(s[1..], lo, hi)
  }

  lemma {:induction false} CountInRangeInsert(x: int, s: seq<int>, lo: int, hi: int)
    ensures CountInRange(Insert(x, s, IntKey), lo, hi)
         == (if lo <= x < hi then 1 else 0) + CountInRange(s, lo, hi)
  {
    if s == [] || x >= s[0] {
      assert ([x] + s)[1..] == s;
    } else {
      CountInRangeInsert(x, s[1..], lo, hi);
      assert ([s[0]] + Insert(x, s[1..], IntKey))[1..] == Insert(x, s[1..], IntKey);
    }
  }

  /** Sorting keeps the number of elements in any range. */
  lemma {:induction false} CountInRangeSorted(s: seq<int>, lo: int, hi: int)
    ensures CountInRange(SortDesc(s, IntKey), lo, hi) == CountInRange(s, lo, hi)
  {
    if s != [] {
      CountInRangeSorted(s[1..], lo, hi);
      CountInRangeInsert(s[0], SortDesc(s[1..], IntKey), lo, hi);
    }
  }

  predicate NoDup<T(==)>(s: seq<T>) {
    forall i, j :: 0 <= i < j < |s| ==> s[i] != s[j]
  }

  lemma {:induction false} NoDupMultiset<T>(s: seq<T>, x: T)
    requires NoDup(s)
    ensures multiset(s)[x] == if x in s then 1 else 0
  {
    if s != [] {
      assert s == [s[0]] + s[1..];
      assert NoDup(s[1..]);
      NoDupMultiset(s[1..], x);
      assert s[0] !in s[1..];
    }
  }

  /** Two duplicate-free sequences with the same elements are permutations of each other. */
  lemma {:induction false} SameElementsSameMultiset<T>(a: seq<T>, b: seq<T>)
    requires NoDup(a) && NoDup(b)
    requires forall x :: x in a <==> x in b
    ensures multiset(a) == multiset(b)
  {
    forall x ensures multiset(a)[x] == multiset(b)[x] {
      NoDupMultiset(a, x);
      NoDupMultiset(b, x);
    }
  }

  function Reverse<T>(s: seq<T>): (r: seq<T>)
    ensures |r| == |s|
    ensures forall i :: 0 <= i < |s| ==> r[i] == s[|s| - 1 - i]
  {
    if s == [] then [] else Reverse(s[1..]) + [s[0]]
  }

  /** Reversing a sequence permutes it. */
  lemma {:induction false} ReversePermutes<T>(s: seq<T>)
    ensures multiset(Reverse(s)) == multiset(s)
  {
    if s != [] {
      ReversePermutes(s[1..]);
      assert s == [s[0]] + s[1..];
    }
  }
}
