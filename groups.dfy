/**
 * Grouping the cards of a hand by rank value (`Main.get_valeurs_par_groupes`).
 *
 * The program counts the cards of each value in a dictionary, then sorts
 * the dictionary's (value, count) items by count, highest first, and
 * among equal counts by value, highest first. A dictionary keeps its keys
 * in insertion order, so it is modelled as the list of its items in that
 * order (`Items`); the sort is `Sorting.SortDesc` with a key that orders
 * by count and then by value.
 */
module Grouping {
  import opened Sorting

  datatype Group = Group(value: int, count: nat)

  /** Number of occurrences of `v` in `xs`. */
  function Count(xs: seq<int>, v: int): (n: nat)
    ensures n <= |xs|
  {
    if xs == [] then 0
    else Count(xs[..|xs| - 1], v) + (if xs[|xs| - 1] == v then 1 else 0)
  }

  /**
   * Position of the first item whose key is `v`, or `|items|` when there is
   * none: a dictionary lookup on the item list of a dictionary.
   */
  function FindBy<T>(items: seq<T>, key: T -> int, v: int): (k: nat)
    ensures k <= |items|
    ensures k < |items| ==> key(items[k]) == v
    ensures forall j :: 0 <= j < k ==> key(items[j]) != v
  {
    if items == [] then 0
    else if key(items[0]) == v then 0
    else 1 + FindBy(items[1..], key, v)
  }

  function GroupValue(g: Group): int {
    g.value
  }

  /** Position of the item for `v` in `items`, or `|items|` when there is none. */
  function Find(items: seq<Group>, v: int): (k: nat)
    ensures k <= |items|
    ensures k < |items| ==> items[k].value == v
    ensures forall j :: 0 <= j < k ==> items[j].value != v
  {
    FindBy(items, GroupValue, v)
  }

  /** `valeurs[v] = valeurs.get(v, 0) + 1` on the item list of the dictionary. */
  function Bump(items: seq<Group>, v: int): seq<Group> {
    var k := Find(items, v);
    if k < |items| then items[k := Group(v, items[k].count + 1)]
    else items + [Group(v, 1)]
  }

  /** The counting dictionary after the loop over `xs`, as its items in insertion order. */
  function Items(xs: seq<int>): seq<Group> {
    if xs == [] then [] else Bump(Items(xs[..|xs| - 1]), xs[|xs| - 1])
  }

  /** Sort key of an item: count first, then value (values are below 13). */
  function GroupKey(g: Group): int {
    13 * g.count + g.value
  }

  /** `get_valeurs_par_groupes`, on the values of the cards. */
  function Groups(xs: seq<int>): seq<Group> {
    SortDesc(Items(xs), GroupKey)
  }

  function SumCounts(gs: seq<Group>): nat {
    if gs == [] then 0 else gs[0].count + SumCounts(gs[1..])
  }

  predicate InRange(xs: seq<int>) {
    forall i :: 0 <= i < |xs| ==> 0 <= xs[i] < 13
  }

  /** Each item holds the number of occurrences of its value, which is positive. */
  ghost predicate CountsMatch(gs: seq<Group>, xs: seq<int>) {
    forall i :: 0 <= i < |gs| ==> 0 < gs[i].count == Count(xs, gs[i].value)
  }

  ghost predicate ValuesInRange(gs: seq<Group>) {
    forall i :: 0 <= i < |gs| ==> 0 <= gs[i].value < 13
  }

  ghost predicate DistinctValues(gs: seq<Group>) {
    forall i, j :: 0 <= i < j < |gs| ==> gs[i].value != gs[j].value
  }

  /** Every value that occurs in `xs` has an item. */
  ghost predicate Covers(gs: seq<Group>, xs: seq<int>) {
    forall v :: 0 <= v < 13 && Count(xs, v) > 0 ==> exists i :: 0 <= i < |gs| && gs[i].value == v
  }

  /**
   * `gs` is a count table of `xs`: one item per value that occurs in `xs`,
   * each holding that value's number of occurrences, and nothing else.
   */
  ghost predicate Tabulates(gs: seq<Group>, xs: seq<int>) {
    && CountsMatch(gs, xs)
    && ValuesInRange(gs)
    && DistinctValues(gs)
    && Covers(gs, xs)
    && SumCounts(gs) == |xs|
  }

  /** Items are ordered by count, highest first, and among equal counts by value, highest first. */
  ghost predicate Ordered(gs: seq<Group>) {
    forall i, j :: 0 <= i < j < |gs| ==>
      gs[i].count > gs[j].count || (gs[i].count == gs[j].count && gs[i].value > gs[j].value)
  }

  lemma {:induction false} CountSnoc(xs: seq<int>, x: int, v: int)
    ensures Count(xs + [x], v) == Count(xs, v) + (if x == v then 1 else 0)
  {
    assert (xs + [x])[..|xs|] == xs;
  }

  lemma {:induction false} CountPositive(xs: seq<int>, v: int)
    requires Count(xs, v) > 0
    ensures v in xs
  {
    var n := |xs| - 1;
    if xs[n] != v {
      CountPositive(xs[..n], v);
    }
  }

  lemma {:induction false} SumCountsAppend(a: seq<Group>, b: seq<Group>)
    ensures SumCounts(a + b) == SumCounts(a) + SumCounts(b)
  {
    if a == [] {
      assert a + b == b;
    } else {
      SumCountsAppend(a[1..], b);
      assert (a + b)[1..] == a[1..] + b;
    }
  }

  lemma {:induction false} SumCountsUpdate(gs: seq<Group>, k: nat, g: Group)
    requires k < |gs|
    ensures SumCounts(gs[k := g]) == SumCounts(gs) - gs[k].count + g.count
  {
    if k > 0 {
      SumCountsUpdate(gs[1..], k - 1, g);
      assert gs[k := g][1..] == gs[1..][k - 1 := g];
    }
  }

  lemma {:induction false} BumpTabulates(items: seq<Group>, xs: seq<int>, v: int)
    requires Tabulates(items, xs) && 0 <= v < 13
    ensures Tabulates(Bump(items, v), xs + [v])
  {
    var k := Find(items, v);
    if k < |items| {
      SumCountsUpdate(items, k, Group(v, items[k].count + 1));
    } else {
      SumCountsAppend(items, [Group(v, 1)]);
      assert SumCounts([Group(v, 1)]) == 1;
    }
    BumpCounts(items, xs, v);
    BumpCovers(items, xs, v);
    BumpDistinct(items, v);
  }

  lemma {:induction false} BumpDistinct(items: seq<Group>, v: int)
    requires ValuesInRange(items) && DistinctValues(items) && 0 <= v < 13
    ensures ValuesInRange(Bump(items, v)) && DistinctValues(Bump(items, v))
  {
    var k := Find(items, v);
    var r := Bump(items, v);
    forall i, j | 0 <= i < j < |r| ensures r[i].value != r[j].value {
      if k == |items| && j == |items| {
        assert r[i] == items[i];
      }
    }
  }

  lemma {:induction false} BumpCounts(items: seq<Group>, xs: seq<int>, v: int)
    requires CountsMatch(items, xs) && DistinctValues(items) && Covers(items, xs) && 0 <= v < 13
    ensures CountsMatch(Bump(items, v), xs + [v])
  {
    var ys := xs + [v];
    var k := Find(items, v);
    var r := Bump(items, v);
    CountSnoc(xs, v, v);
    if k == |items| {
      assert !exists i :: 0 <= i < |items| && items[i].value == v;
      assert Count(xs, v) == 0;
    }
    forall i | 0 <= i < |r| ensures 0 < r[i].count == Count(ys, r[i].value) {
      if r[i].value != v {
        assert r[i] == items[i];
        CountSnoc(xs, v, r[i].value);
      } else if k < |items| {
        assert i == k;
      }
    }
  }

  lemma {:induction false} BumpCovers(items: seq<Group>, xs: seq<int>, v: int)
    requires Covers(items, xs) && 0 <= v < 13
    ensures Covers(Bump(items, v), xs + [v])
  {
    var ys := xs + [v];
    var k := Find(items, v);
    var r := Bump(items, v);
    forall w | 0 <= w < 13 && Count(ys, w) > 0
      ensures exists i :: 0 <= i < |r| && r[i].value == w
    {
      if w == v {
        assert r[if k < |items| then k else |items|].value == w;
      } else {
        CountSnoc(xs, v, w);
        var i :| 0 <= i < |items| && items[i].value == w;
        assert r[i].value == w;
      }
    }
  }

  /** The counting loop builds a count table of the values. */
  lemma {:induction false} ItemsTabulate(xs: seq<int>)
    requires InRange(xs)
    ensures Tabulates(Items(xs), xs)
  {
    if xs == [] {
    } else {
      var n := |xs| - 1;
      assert InRange(xs[..n]);
      ItemsTabulate(xs[..n]);
      BumpTabulates(Items(xs[..n]), xs[..n], xs[n]);
      assert xs[..n] + [xs[n]] == xs;
    }
  }

  lemma {:induction false} SumCountsInsert(g: Group, s: seq<Group>)
    ensures SumCounts(Insert(g, s, GroupKey)) == g.count + SumCounts(s)
  {
    if s != [] && GroupKey(g) < GroupKey(s[0]) {
      SumCountsInsert(g, s[1..]);
      var r := Insert(g, s, GroupKey);
      assert r[1..] == Insert(g, s[1..], GroupKey);
    }
  }

  lemma {:induction false} SumCountsSorted(s: seq<Group>)
    ensures SumCounts(SortDesc(s, GroupKey)) == SumCounts(s)
  {
    if s != [] {
      SumCountsSorted(s[1..]);
      SumCountsInsert(s[0], SortDesc(s[1..], GroupKey));
    }
  }

  lemma {:induction false} TwoOccurrences<T>(s: seq<T>, i: nat, j: nat)
    requires i < j < |s| && s[i] == s[j]
    ensures multiset(s)[s[i]] >= 2
  {
    assert s == s[..j] + s[j..];
    assert s[..j][i] == s[i];
    assert s[j..][0] == s[i];
    assert multiset(s) == multiset(s[..j]) + multiset(s[j..]);
  }

  /** A permutation of a duplicate-free sequence is duplicate-free. */
  lemma {:induction false} NoDupPermutation<T>(a: seq<T>, b: seq<T>)
    requires NoDup(a) && multiset(a) == multiset(b)
    ensures NoDup(b)
  {
    forall i, j | 0 <= i < j < |b| ensures b[i] != b[j] {
      if b[i] == b[j] {
        TwoOccurrences(b, i, j);
        NoDupMultiset(a, b[i]);
      }
    }
  }

  lemma {:induction false} SameMembers<T>(a: seq<T>, b: seq<T>)
    requires multiset(a) == multiset(b)
    ensures forall g :: g in a <==> g in b
  {
    forall g ensures g in a <==> g in b {
      assert g in a <==> g in multiset(a);
      assert g in b <==> g in multiset(b);
    }
  }

  /** Sorting the items keeps them a count table and orders them by count, then value. */
  lemma {:induction false} SortedTable(items: seq<Group>, xs: seq<int>)
    requires Tabulates(items, xs)
    ensures Tabulates(SortDesc(items, GroupKey), xs)
    ensures Ordered(SortDesc(items, GroupKey))
  {
    var gs := SortDesc(items, GroupKey);
    SameMembers(items, gs);
    assert CountsMatch(gs, xs) && ValuesInRange(gs) by {
      forall i | 0 <= i < |gs|
        ensures 0 < gs[i].count == Count(xs, gs[i].value) && 0 <= gs[i].value < 13
      {
        assert gs[i] in items;
      }
    }
    SortedCovers(items, gs, xs);
    SortedDistinct(items, gs, xs);
    SortedOrdered(gs);
    SumCountsSorted(items);
  }

  lemma {:induction false} SortedCovers(items: seq<Group>, gs: seq<Group>, xs: seq<int>)
    requires Covers(items, xs) && forall g :: g in items <==> g in gs
    ensures Covers(gs, xs)
  {
    forall v | 0 <= v < 13 && Count(xs, v) > 0
      ensures exists i :: 0 <= i < |gs| && gs[i].value == v
    {
      var i :| 0 <= i < |items| && items[i].value == v;
      assert items[i] in gs;
    }
  }

  lemma {:induction false} SortedDistinct(items: seq<Group>, gs: seq<Group>, xs: seq<int>)
    requires CountsMatch(items, xs) && DistinctValues(items)
    requires CountsMatch(gs, xs) && multiset(items) == multiset(gs)
    ensures DistinctValues(gs)
  {
    assert NoDup(items);
    NoDupPermutation(items, gs);
    forall i, j | 0 <= i < j < |gs| ensures gs[i].value != gs[j].value {
      assert gs[i] != gs[j];
    }
  }

  lemma {:induction false} SortedOrdered(gs: seq<Group>)
    requires ValuesInRange(gs) && DistinctValues(gs) && SortedDesc(gs, GroupKey)
    ensures Ordered(gs)
  {
    forall i, j | 0 <= i < j < |gs|
      ensures gs[i].count > gs[j].count || (gs[i].count == gs[j].count && gs[i].value > gs[j].value)
    {
      assert GroupKey(gs[i]) >= GroupKey(gs[j]);
    }
  }

  /**
   * The groups of a sequence of values are its count table, ordered by
   * count and then value; their counts add up to the number of values.
   */
  lemma {:induction false} GroupsSpec(xs: seq<int>)
    requires InRange(xs)
    ensures Tabulates(Groups(xs), xs)
    ensures Ordered(Groups(xs))
  {
    ItemsTabulate(xs);
    SortedTable(Items(xs), xs);
  }

  /** The counts of the groups, in group order. */
  function Shape(gs: seq<Group>): seq<nat> {
    seq(|gs|, i requires 0 <= i < |gs| => gs[i].count)
  }

  /** The seven ways to write 5 as a sum of positive parts, largest part first. */
  predicate IsPartitionOfFive(cs: seq<nat>) {
    || cs == [5] || cs == [4, 1] || cs == [3, 2] || cs == [3, 1, 1]
    || cs == [2, 2, 1] || cs == [2, 1, 1, 1] || cs == [1, 1, 1, 1, 1]
  }

  lemma {:induction false} SumCountsAtLeastLength(gs: seq<Group>)
    requires forall i :: 0 <= i < |gs| ==> gs[i].count >= 1
    ensures SumCounts(gs) >= |gs|
  {
    if gs != [] {
      SumCountsAtLeastLength(gs[1..]);
    }
  }

  lemma {:induction false} PartitionOfFive(gs: seq<Group>)
    requires forall i :: 0 <= i < |gs| ==> gs[i].count >= 1
    requires forall i, j :: 0 <= i < j < |gs| ==> gs[i].count >= gs[j].count
    requires SumCounts(gs) == 5
    ensures IsPartitionOfFive(Shape(gs))
  {
    SumCountsAtLeastLength(gs);
    SumOfShape(gs);
    var cs := Shape(gs);
    assert forall i :: 0 <= i < |cs| ==> cs[i] >= 1;
    assert forall i :: 0 <= i < |cs| - 1 ==> cs[i] >= cs[i + 1];
    PartsOfFive(cs);
  }

  lemma {:induction false} PartsOfFive(cs: seq<nat>)
    requires 1 <= |cs| <= 5
    requires forall i :: 0 <= i < |cs| ==> cs[i] >= 1
    requires forall i :: 0 <= i < |cs| - 1 ==> cs[i] >= cs[i + 1]
    requires cs[0] + (if |cs| > 1 then cs[1] else 0) + (if |cs| > 2 then cs[2] else 0)
      + (if |cs| > 3 then cs[3] else 0) + (if |cs| > 4 then cs[4] else 0) == 5
    ensures IsPartitionOfFive(cs)
  {
    if |cs| == 1 {
      assert cs == [cs[0]];
    } else if |cs| == 2 {
      assert cs == [cs[0], cs[1]];
    } else if |cs| == 3 {
      assert cs == [cs[0], cs[1], cs[2]];
    } else if |cs| == 4 {
      assert cs == [cs[0], cs[1], cs[2], cs[3]];
    } else {
      assert cs == [cs[0], cs[1], cs[2], cs[3], cs[4]];
    }
  }

  /** The sum of the counts, written out for up to five groups. */
  lemma {:induction false} SumOfShape(gs: seq<Group>)
    requires 1 <= |gs| <= 5
    ensures var cs := Shape(gs);
      SumCounts(gs) == cs[0] + (if |gs| > 1 then cs[1] else 0) + (if |gs| > 2 then cs[2] else 0)
        + (if |gs| > 3 then cs[3] else 0) + (if |gs| > 4 then cs[4] else 0)
  {
    assert SumCounts(gs) == gs[0].count + SumCounts(gs[1..]);
    if |gs| > 1 {
      assert SumCounts(gs[1..]) == gs[1].count + SumCounts(gs[2..]);
      if |gs| > 2 {
        assert SumCounts(gs[2..]) == gs[2].count + SumCounts(gs[3..]);
        if |gs| > 3 {
          assert SumCounts(gs[3..]) == gs[3].count + SumCounts(gs[4..]);
          if |gs| > 4 {
            assert SumCounts(gs[4..]) == gs[4].count + SumCounts(gs[5..]);
          }
        }
      }
    }
  }

  /** The group counts of five values form one of the seven partitions of 5. */
  lemma {:induction false} ShapeOfFive(xs: seq<int>)
    requires InRange(xs) && |xs| == 5
    ensures Tabulates(Groups(xs), xs) && Ordered(Groups(xs))
    ensures IsPartitionOfFive(Shape(Groups(xs)))
  {
    GroupsSpec(xs);
    PartitionOfFive(Groups(xs));
  }

  /** In a count table, some value occurs `n >= 1` times exactly when some item has count `n`. */
  lemma {:induction false} CountInTable(gs: seq<Group>, xs: seq<int>, n: nat)
    requires Tabulates(gs, xs) && n >= 1
    ensures (exists v :: 0 <= v < 13 && Count(xs, v) == n) <==> n in Shape(gs)
  {
    if exists v :: 0 <= v < 13 && Count(xs, v) == n {
      var v :| 0 <= v < 13 && Count(xs, v) == n;
      OneItem(gs, xs, n, v);
      var i :| 0 <= i < |gs| && gs[i].count == n;
      assert Shape(gs)[i] == n;
    }
    if n in Shape(gs) {
      var i :| 0 <= i < |gs| && Shape(gs)[i] == n;
      OneValue(gs, xs, n, i);
    }
  }

  lemma {:induction false} OneItem(gs: seq<Group>, xs: seq<int>, n: nat, v: int)
    requires Tabulates(gs, xs) && n >= 1
    requires 0 <= v < 13 && Count(xs, v) == n
    ensures exists i :: 0 <= i < |gs| && gs[i].count == n
  {
    assert CountsMatch(gs, xs) && Covers(gs, xs);
    var i :| 0 <= i < |gs| && gs[i].value == v;
    assert gs[i].count == n;
  }

  lemma {:induction false} OneValue(gs: seq<Group>, xs: seq<int>, n: nat, i: int)
    requires Tabulates(gs, xs)
    requires 0 <= i < |gs| && gs[i].count == n
    ensures exists v :: 0 <= v < 13 && Count(xs, v) == n
  {
    assert CountsMatch(gs, xs) && ValuesInRange(gs);
    var v := gs[i].value;
    assert 0 <= v < 13 && Count(xs, v) == n;
  }

  /** In a count table, two values occur `n >= 1` times each exactly when two items have count `n`. */
  lemma {:induction false} TwoCountsInTable(gs: seq<Group>, xs: seq<int>, n: nat)
    requires Tabulates(gs, xs) && n >= 1
    ensures (exists v, w :: 0 <= v < w < 13 && Count(xs, v) == n && Count(xs, w) == n) <==> Twice(Shape(gs), n)
  {
    if exists v, w :: 0 <= v < w < 13 && Count(xs, v) == n && Count(xs, w) == n {
      TwoCountsGiveTwice(gs, xs, n);
    }
    if Twice(Shape(gs), n) {
      TwiceGivesTwoCounts(gs, xs, n);
    }
  }

  lemma {:induction false} TwoCountsGiveTwice(gs: seq<Group>, xs: seq<int>, n: nat)
    requires Tabulates(gs, xs) && n >= 1
    requires exists v, w :: 0 <= v < w < 13 && Count(xs, v) == n && Count(xs, w) == n
    ensures Twice(Shape(gs), n)
  {
    var v, w :| 0 <= v < w < 13 && Count(xs, v) == n && Count(xs, w) == n;
    var i, j := TwoItems(gs, xs, n, v, w);
    var cs := Shape(gs);
    assert cs[i] == n && cs[j] == n;
  }

  lemma {:induction false} TwiceGivesTwoCounts(gs: seq<Group>, xs: seq<int>, n: nat)
    requires Tabulates(gs, xs) && n >= 1
    requires Twice(Shape(gs), n)
    ensures exists v, w :: 0 <= v < w < 13 && Count(xs, v) == n && Count(xs, w) == n
  {
    var cs := Shape(gs);
    var i, j :| 0 <= i < j < |cs| && cs[i] == n && cs[j] == n;
    TwoValues(gs, xs, n, i, j);
  }

  lemma {:induction false} TwoItems(gs: seq<Group>, xs: seq<int>, n: nat, v: int, w: int) returns (i: int, j: int)
    requires Tabulates(gs, xs) && n >= 1
    requires 0 <= v < w < 13 && Count(xs, v) == n && Count(xs, w) == n
    ensures 0 <= i < j < |gs| && gs[i].count == n && gs[j].count == n
  {
    assert CountsMatch(gs, xs) && Covers(gs, xs);
    var a :| 0 <= a < |gs| && gs[a].value == v;
    var b :| 0 <= b < |gs| && gs[b].value == w;
    assert gs[a].count == n && gs[b].count == n;
    if a < b {
      i, j := a, b;
    } else {
      i, j := b, a;
    }
  }

  lemma {:induction false} TwoValues(gs: seq<Group>, xs: seq<int>, n: nat, i: int, j: int)
    requires Tabulates(gs, xs) && n >= 1
    requires 0 <= i < j < |gs| && gs[i].count == n && gs[j].count == n
    ensures exists v, w :: 0 <= v < w < 13 && Count(xs, v) == n && Count(xs, w) == n
  {
    assert CountsMatch(gs, xs) && ValuesInRange(gs) && DistinctValues(gs);
    var v, w := gs[i].value, gs[j].value;
    assert Count(xs, v) == n && Count(xs, w) == n && v != w;
    if v < w {
      assert 0 <= v < w < 13;
    } else {
      assert 0 <= w < v < 13;
    }
  }

  /** In a strictly decreasing sequence every value occurs at most once. */
  lemma {:induction false} CountInDecreasing(xs: seq<int>, v: int)
    requires forall i, j :: 0 <= i < j < |xs| ==> xs[i] > xs[j]
    ensures Count(xs, v) <= 1
  {
    if xs != [] {
      var n := |xs| - 1;
      if xs[n] == v {
        if Count(xs[..n], v) > 0 {
          CountPositive(xs[..n], v);
        }
      } else {
        CountInDecreasing(xs[..n], v);
      }
    }
  }

  /** `n` occurs at two positions of `cs`. */
  predicate Twice(cs: seq<nat>, n: nat) {
    exists i, j :: 0 <= i < j < |cs| && cs[i] == n && cs[j] == n
  }

  /**
   * On a partition of 5, the tests on the two largest parts that the
   * hand categories use say which parts occur.
   */
  lemma {:induction false} PartitionCases(cs: seq<nat>)
    requires IsPartitionOfFive(cs)
    ensures (|cs| >= 1 && cs[0] == 4) <==> 4 in cs
    ensures (|cs| >= 2 && cs[0] == 3 && cs[1] == 2) <==> (3 in cs && 2 in cs)
    ensures (|cs| >= 3 && cs[0] == 3 && cs[1] == 1) <==> (3 in cs && 2 !in cs)
    ensures (|cs| >= 3 && cs[0] == 2 && cs[1] == 2) <==> Twice(cs, 2)
    ensures (|cs| >= 4 && cs[0] == 2 && cs[1] == 1) <==> (2 in cs && 3 !in cs && !Twice(cs, 2))
  {
    if cs == [2, 2, 1] {
      assert cs[0] == 2 && cs[1] == 2;
    } else {
      assert !Twice(cs, 2) by {
        forall i, j | 0 <= i < j < |cs| ensures !(cs[i] == 2 && cs[j] == 2) {
        }
      }
    }
  }
}
