/**
 * The computer's discard rule (`JeuPoker.echanger_cartes_ordi`): which
 * positions of its hand it throws away, keyed by the hand's category.
 *
 * - Three of a kind: every card outside the triple.
 * - Two pair and one pair: every card whose value occurs once.
 * - High card: every card below a Queen (value 10), so a Jack goes.
 * - Straight and above: nothing (the caller returns before choosing).
 *
 * The program collects the positions of each value in a dictionary of
 * position lists, walks its items in insertion order, and finally sorts
 * the chosen positions highest first.
 */
module Strategy {
  import opened Cards
  import opened Sorting
  import opened Grouping
  import opened Hands
  import opened Deck

  /** Whether the item of a value with `n` cards is thrown away in a hand of `category` 1, 2 or 3. */
  predicate SelectsItem(category: int, n: nat) {
    if category == THREE_OF_A_KIND then n != 3 else n == 1
  }

  /** Whether the computer throws away the card at position `p`. */
  predicate Discards(h: Hand, category: int, p: int)
    requires 0 <= p < 5
  {
    if category in {THREE_OF_A_KIND, TWO_PAIR, PAIR} then SelectsItem(category, Count(Values(h), h[p].value))
    else h[p].value < 10
  }

  /** The discarded positions below `n`, highest first. */
  function DiscardsBelow(h: Hand, category: int, n: nat): (r: seq<int>)
    requires n <= 5
    ensures forall k :: 0 <= k < |r| ==> 0 <= r[k] < n
  {
    if n == 0 then []
    else (if Discards(h, category, n - 1) then [n - 1] else []) + DiscardsBelow(h, category, n - 1)
  }

  /** The positions the computer exchanges, in the order it exchanges them. */
  function DiscardOrder(h: Hand, category: int): seq<int> {
    DiscardsBelow(h, category, 5)
  }

  /** The positions the computer exchanges in its hand: none from a straight up. */
  function ComputerDiscards(main: Hand): (r: seq<int>)
    ensures forall k :: 0 <= k < |r| ==> 0 <= r[k] < 5
    ensures Draws(r, 5) == |r|
    ensures Evaluate(main).category >= STRAIGHT ==> r == []
  {
    var category := Evaluate(main).category;
    var r := if category >= STRAIGHT then [] else DiscardOrder(main, category);
    DrawsInRange(r, 5);
    r
  }

  /** Values strictly decreasing along a sequence. */
  ghost predicate Decreasing(s: seq<int>) {
    forall i, j :: 0 <= i < j < |s| ==> s[i] > s[j]
  }

  lemma {:induction false} DiscardsBelowSpec(h: Hand, category: int, n: nat)
    requires n <= 5
    ensures forall p :: p in DiscardsBelow(h, category, n) <==> 0 <= p < n && Discards(h, category, p)
    ensures Decreasing(DiscardsBelow(h, category, n))
  {
    if n > 0 {
      DiscardsBelowSpec(h, category, n - 1);
    }
  }

  /**
   * The exchanged positions are exactly the discarded ones, each once,
   * highest first.
   */
  lemma {:induction false} DiscardOrderSpec(h: Hand, category: int)
    ensures forall p :: p in DiscardOrder(h, category) <==> 0 <= p < 5 && Discards(h, category, p)
    ensures Decreasing(DiscardOrder(h, category))
    ensures NoDup(DiscardOrder(h, category))
    ensures SortedDesc(DiscardOrder(h, category), IntKey)
  {
    DiscardsBelowSpec(h, category, 5);
  }

  // Counting the discards.

  /** Number of elements of `xs` other than `v` and `w`. */
  function Others(xs: seq<int>, v: int, w: int): nat {
    if xs == [] then 0
    else Others(xs[..|xs| - 1], v, w) + (if xs[|xs| - 1] != v && xs[|xs| - 1] != w then 1 else 0)
  }

  lemma {:induction false} OthersCount(xs: seq<int>, v: int, w: int)
    ensures Others(xs, v, w) + Count(xs, v) + (if w != v then Count(xs, w) else 0) == |xs|
  {
    if xs != [] {
      OthersCount(xs[..|xs| - 1], v, w);
    }
  }

  /** When the discards are the cards of values other than `v` and `w`, there are `Others` of them. */
  lemma {:induction false} DiscardsBelowCount(h: Hand, category: int, n: nat, v: int, w: int)
    requires n <= 5
    requires forall p :: 0 <= p < 5 ==> (Discards(h, category, p) <==> h[p].value != v && h[p].value != w)
    ensures |DiscardsBelow(h, category, n)| == Others(Values(h)[..n], v, w)
  {
    if n > 0 {
      DiscardsBelowCount(h, category, n - 1, v, w);
      assert Values(h)[..n][..n - 1] == Values(h)[..n - 1];
    }
  }

  /** Two different values together occur at most `|xs|` times. */
  lemma {:induction false} CountOfTwo(xs: seq<int>, v: int, w: int)
    requires v != w
    ensures Count(xs, v) + Count(xs, w) <= |xs|
  {
    if xs != [] {
      CountOfTwo(xs[..|xs| - 1], v, w);
    }
  }

  /** Three different values together occur at most `|xs|` times. */
  lemma {:induction false} CountOfThree(xs: seq<int>, u: int, v: int, w: int)
    requires u != v && u != w && v != w
    ensures Count(xs, u) + Count(xs, v) + Count(xs, w) <= |xs|
  {
    if xs != [] {
      CountOfThree(xs[..|xs| - 1], u, v, w);
    }
  }

  /** A value held by a card of the hand occurs at least once. */
  lemma {:induction false} CountOfHeld(h: Hand, p: int)
    requires 0 <= p < 5
    ensures Count(Values(h), h[p].value) >= 1
  {
    var xs := Values(h);
    assert xs[p] == h[p].value;
    if Count(xs, xs[p]) == 0 {
      CountOfAbsent(xs, xs[p]);
    }
  }

  lemma {:induction false} CountOfAbsent(xs: seq<int>, v: int)
    requires Count(xs, v) == 0
    ensures v !in xs
  {
    if xs != [] {
      CountOfAbsent(xs[..|xs| - 1], v);
      assert xs == xs[..|xs| - 1] + [xs[|xs| - 1]];
    }
  }

  /**
   * With three of a kind, the computer exchanges the two cards outside the
   * triple: it keeps three cards, all of one value.
   */
  lemma {:induction false} ThreeDiscardsTwo(h: Hand)
    requires Evaluate(h).category == THREE_OF_A_KIND
    ensures |DiscardOrder(h, THREE_OF_A_KIND)| == 2
    ensures forall p, q ::
      (0 <= p < 5 && 0 <= q < 5 && p !in DiscardOrder(h, THREE_OF_A_KIND) && q !in DiscardOrder(h, THREE_OF_A_KIND))
      ==> h[p].value == h[q].value
  {
    ThreeByMultiplicity(h);
    var v :| 0 <= v < 13 && Count(Values(h), v) == 3;
    TripleDiscards(h, v);
  }

  lemma {:induction false} TripleDiscards(h: Hand, v: int)
    requires 0 <= v < 13 && Count(Values(h), v) == 3
    ensures |DiscardOrder(h, THREE_OF_A_KIND)| == 2
    ensures forall p :: 0 <= p < 5 ==> (p !in DiscardOrder(h, THREE_OF_A_KIND) <==> h[p].value == v)
  {
    var xs := Values(h);
    TripleIsolated(h, v);
    DiscardOrderSpec(h, THREE_OF_A_KIND);
    DiscardsBelowCount(h, THREE_OF_A_KIND, 5, v, v);
    OthersCount(xs, v, v);
    assert xs[..5] == xs;
  }

  /** Only the cards of the triple's value have three of a kind. */
  lemma {:induction false} TripleIsolated(h: Hand, v: int)
    requires Count(Values(h), v) == 3
    ensures forall p :: 0 <= p < 5 ==> (Discards(h, THREE_OF_A_KIND, p) <==> h[p].value != v)
  {
    forall p | 0 <= p < 5 && h[p].value != v
      ensures Count(Values(h), h[p].value) != 3
    {
      CountOfTwo(Values(h), v, h[p].value);
    }
  }

  /** With two pair, the computer exchanges the one card outside the pairs. */
  lemma {:induction false} TwoPairDiscardsOne(h: Hand)
    requires Evaluate(h).category == TWO_PAIR
    ensures |DiscardOrder(h, TWO_PAIR)| == 1
    ensures forall p :: 0 <= p < 5 ==>
      (p in DiscardOrder(h, TWO_PAIR) <==> Count(Values(h), h[p].value) == 1)
  {
    TwoPairByMultiplicity(h);
    var v, w :| 0 <= v < w < 13 && Count(Values(h), v) == 2 && Count(Values(h), w) == 2;
    TwoPairsDiscard(h, v, w);
  }

  lemma {:induction false} TwoPairsDiscard(h: Hand, v: int, w: int)
    requires 0 <= v < w < 13 && Count(Values(h), v) == 2 && Count(Values(h), w) == 2
    ensures |DiscardOrder(h, TWO_PAIR)| == 1
    ensures forall p :: 0 <= p < 5 ==>
      (p in DiscardOrder(h, TWO_PAIR) <==> Count(Values(h), h[p].value) == 1)
  {
    var xs := Values(h);
    forall p | 0 <= p < 5
      ensures Discards(h, TWO_PAIR, p) <==> h[p].value != v && h[p].value != w
    {
      if h[p].value != v && h[p].value != w {
        CountOfThree(xs, h[p].value, v, w);
        CountOfHeld(h, p);
      }
    }
    DiscardOrderSpec(h, TWO_PAIR);
    DiscardsBelowCount(h, TWO_PAIR, 5, v, w);
    OthersCount(xs, v, w);
    assert xs[..5] == xs;
  }

  /**
   * With a high card, the computer exchanges exactly the cards ranked
   * Jack or lower (value below 10), highest position first, and keeps
   * every Queen, King and Ace.
   */
  lemma {:induction false} HighCardDiscardsLow(h: Hand)
    ensures forall p :: p in DiscardOrder(h, HIGH_CARD) <==> 0 <= p < 5 && h[p].value < 10
    ensures Decreasing(DiscardOrder(h, HIGH_CARD))
  {
    DiscardOrderSpec(h, HIGH_CARD);
  }

  /** With one pair, the computer exchanges the three cards outside the pair. */
  lemma {:induction false} PairDiscardsThree(h: Hand)
    requires Evaluate(h).category == PAIR
    ensures |DiscardOrder(h, PAIR)| == 3
    ensures forall p :: 0 <= p < 5 ==>
      (p in DiscardOrder(h, PAIR) <==> Count(Values(h), h[p].value) == 1)
  {
    PairByMultiplicity(h);
    var v :| 0 <= v < 13 && Count(Values(h), v) == 2;
    OnePairDiscards(h, v);
  }

  lemma {:induction false} OnePairDiscards(h: Hand, v: int)
    requires 0 <= v < 13 && Count(Values(h), v) == 2 && !HasTwoPairs(h) && !HasMult(h, 3)
    ensures |DiscardOrder(h, PAIR)| == 3
    ensures forall p :: 0 <= p < 5 ==>
      (p in DiscardOrder(h, PAIR) <==> Count(Values(h), h[p].value) == 1)
  {
    var xs := Values(h);
    forall p | 0 <= p < 5
      ensures Discards(h, PAIR, p) <==> h[p].value != v
    {
      var u := h[p].value;
      if u != v {
        CountOfTwo(xs, v, u);
        CountOfHeld(h, p);
        assert Count(xs, u) != 2 by { assert !HasTwoPairs(h); }
        assert Count(xs, u) != 3 by { assert !HasMult(h, 3); }
      }
    }
    DiscardOrderSpec(h, PAIR);
    DiscardsBelowCount(h, PAIR, 5, v, v);
    OthersCount(xs, v, v);
    assert xs[..5] == xs;
  }

  // The program's computation of the discards.

  /** An item of the dictionary from a value to the positions of the cards holding it. */
  datatype Slot = Slot(value: int, positions: seq<int>)

  function SlotValue(item: Slot): int {
    item.value
  }

  /** Position of the item for `v` in `items`, or `|items|` when there is none. */
  function FindSlot(items: seq<Slot>, v: int): (k: nat)
    ensures k <= |items|
    ensures k < |items| ==> items[k].value == v
    ensures forall j :: 0 <= j < k ==> items[j].value != v
  {
    FindBy(items, SlotValue, v)
  }

  /** `valeurs[v] = valeurs.get(v, []) + [i]` on the item list of the dictionary. */
  function AddPosition(items: seq<Slot>, v: int, i: int): seq<Slot> {
    var k := FindSlot(items, v);
    if k < |items| then items[k := Slot(v, items[k].positions + [i])]
    else items + [Slot(v, [i])]
  }

  /** The positions below `n` of the cards of value `v`, in increasing order. */
  function PositionsOfValue(h: Hand, v: int, n: nat): seq<int>
    requires n <= 5
  {
    if n == 0 then []
    else PositionsOfValue(h, v, n - 1) + (if h[n - 1].value == v then [n - 1] else [])
  }

  /** The positions list of a value holds each of its cards once, and as many as it has cards. */
  lemma {:induction false} PositionsOfValueSpec(h: Hand, v: int, n: nat)
    requires n <= 5
    ensures forall q :: q in PositionsOfValue(h, v, n) <==> 0 <= q < n && h[q].value == v
    ensures NoDup(PositionsOfValue(h, v, n))
    ensures |PositionsOfValue(h, v, n)| == Count(Values(h)[..n], v)
    ensures PositionsOfValue(h, v, n) == [] <==> forall q :: 0 <= q < n ==> h[q].value != v
  {
    PositionsOfValueMembers(h, v, n);
    PositionsOfValueCount(h, v, n);
    var ps := PositionsOfValue(h, v, n);
    if ps != [] {
      var q := ps[0];
      assert q in ps;
      assert 0 <= q < n && h[q].value == v;
    }
  }

  lemma {:induction false} PositionsOfValueMembers(h: Hand, v: int, n: nat)
    requires n <= 5
    ensures forall q :: q in PositionsOfValue(h, v, n) <==> 0 <= q < n && h[q].value == v
  {
    if n > 0 {
      PositionsOfValueMembers(h, v, n - 1);
    }
  }

  lemma {:induction false} PositionsOfValueCount(h: Hand, v: int, n: nat)
    requires n <= 5
    ensures NoDup(PositionsOfValue(h, v, n))
    ensures |PositionsOfValue(h, v, n)| == Count(Values(h)[..n], v)
  {
    if n > 0 {
      PositionsOfValueCount(h, v, n - 1);
      PositionsOfValueMembers(h, v, n - 1);
      assert Values(h)[..n] == Values(h)[..n - 1] + [h[n - 1].value];
      CountSnoc(Values(h)[..n - 1], h[n - 1].value, v);
    }
  }

  /**
   * After the first `n` cards, `items` has one item per value seen, each
   * listing the positions below `n` of the cards of that value.
   */
  ghost predicate PositionsOf(items: seq<Slot>, h: Hand, n: nat)
    requires n <= 5
  {
    && (forall t, u :: 0 <= t < u < |items| ==> items[t].value != items[u].value)
    && (forall t :: 0 <= t < |items| ==> items[t].positions == PositionsOfValue(h, items[t].value, n))
    && (forall q :: 0 <= q < n ==> FindSlot(items, h[q].value) < |items|)
  }

  lemma {:induction false} AddPositionStep(items: seq<Slot>, h: Hand, n: nat, v: int)
    requires n < 5 && PositionsOf(items, h, n) && v == h[n].value
    ensures PositionsOf(AddPosition(items, v, n), h, n + 1)
  {
    AddPositionDistinct(items, h, n, v);
    AddPositionLists(items, h, n, v);
    AddPositionCovers(items, h, n, v);
  }

  /** After adding position `n`, the values of the items are still all different. */
  lemma {:induction false} AddPositionDistinct(items: seq<Slot>, h: Hand, n: nat, v: int)
    requires n < 5 && PositionsOf(items, h, n)
    ensures var next := AddPosition(items, v, n);
      forall t, u :: 0 <= t < u < |next| ==> next[t].value != next[u].value
  {
    var k := FindSlot(items, v);
    var next := AddPosition(items, v, n);
    forall t, u | 0 <= t < u < |next| ensures next[t].value != next[u].value {
      if k == |items| && u == |items| {
        assert next[t] == items[t];
      }
    }
  }

  /** After adding position `n`, every item lists the positions up to `n` of its value. */
  lemma {:induction false} AddPositionLists(items: seq<Slot>, h: Hand, n: nat, v: int)
    requires n < 5 && PositionsOf(items, h, n) && v == h[n].value
    ensures var next := AddPosition(items, v, n);
      forall t :: 0 <= t < |next| ==> next[t].positions == PositionsOfValue(h, next[t].value, n + 1)
  {
    var k := FindSlot(items, v);
    var next := AddPosition(items, v, n);
    if k == |items| {
      NewValue(items, h, n, v);
    }
    forall t | 0 <= t < |next|
      ensures next[t].positions == PositionsOfValue(h, next[t].value, n + 1)
    {
      if t != k {
        assert next[t] == items[t] && items[t].value != v;
      }
    }
  }

  /** After adding position `n`, every card up to `n` has an item. */
  lemma {:induction false} AddPositionCovers(items: seq<Slot>, h: Hand, n: nat, v: int)
    requires n < 5 && PositionsOf(items, h, n) && v == h[n].value
    ensures forall q :: 0 <= q < n + 1 ==> FindSlot(AddPosition(items, v, n), h[q].value) < |AddPosition(items, v, n)|
  {
    var k := FindSlot(items, v);
    var next := AddPosition(items, v, n);
    forall q | 0 <= q < n + 1 ensures FindSlot(next, h[q].value) < |next| {
      var j := if q < n then FindSlot(items, h[q].value) else k;
      assert next[j].value == h[q].value;
    }
  }

  /** A value with no item yet has no card among the first `n`. */
  lemma {:induction false} NewValue(items: seq<Slot>, h: Hand, n: nat, v: int)
    requires n <= 5 && PositionsOf(items, h, n)
    requires FindSlot(items, v) == |items|
    ensures PositionsOfValue(h, v, n) == []
  {
    PositionsOfValueSpec(h, v, n);
    forall q | 0 <= q < n ensures h[q].value != v {
      assert FindSlot(items, h[q].value) < |items|;
    }
  }

  /** The counting loop of `echanger_cartes_ordi`: the positions of each value, in a dictionary. */
  method PositionsByValue(h: Hand) returns (valeurs: seq<Slot>)
    ensures PositionsOf(valeurs, h, 5)
  {
    valeurs := [];
    for i := 0 to 5
      invariant PositionsOf(valeurs, h, i)
    {
      AddPositionStep(valeurs, h, i, h[i].value);
      valeurs := AddPosition(valeurs, h[i].value, i);
    }
  }

  /** The loop over the dictionary's items, gathering the positions of the selected values. */
  method SelectPositions(h: Hand, category: int, valeurs: seq<Slot>) returns (indices: seq<int>)
    requires category in {THREE_OF_A_KIND, TWO_PAIR, PAIR}
    requires PositionsOf(valeurs, h, 5)
    ensures NoDup(indices)
    ensures forall q :: q in indices <==> 0 <= q < 5 && Discards(h, category, q)
  {
    indices := [];
    for t := 0 to |valeurs|
      invariant NoDup(indices)
      invariant forall q :: q in indices ==> 0 <= q < 5 && FindSlot(valeurs, h[q].value) < t
      invariant forall q :: 0 <= q < 5 ==>
        (q in indices <==> FindSlot(valeurs, h[q].value) < t && Discards(h, category, q))
    {
      var slot := valeurs[t];
      SlotPositions(valeurs, h, category, t);
      if SelectsItem(category, |slot.positions|) {
        forall a, b | 0 <= a < |indices| && 0 <= b < |slot.positions|
          ensures indices[a] != slot.positions[b]
        {
          assert indices[a] in indices;
          assert slot.positions[b] in slot.positions;
        }
        indices := indices + slot.positions;
      }
    }
  }

  /** The positions listed in item `t` are those whose value's item is `t`. */
  lemma {:induction false} SlotPositions(valeurs: seq<Slot>, h: Hand, category: int, t: int)
    requires PositionsOf(valeurs, h, 5) && 0 <= t < |valeurs|
    requires category in {THREE_OF_A_KIND, TWO_PAIR, PAIR}
    ensures NoDup(valeurs[t].positions)
    ensures forall q :: q in valeurs[t].positions <==> 0 <= q < 5 && FindSlot(valeurs, h[q].value) == t
    ensures forall q :: q in valeurs[t].positions ==>
      (Discards(h, category, q) <==> SelectsItem(category, |valeurs[t].positions|))
  {
    assert Values(h)[..5] == Values(h);
    PositionsOfValueSpec(h, valeurs[t].value, 5);
    assert FindSlot(valeurs, valeurs[t].value) == t;
  }

  /** The high-card loop: the positions of the cards below a Queen. */
  method LowCards(h: Hand) returns (indices: seq<int>)
    ensures NoDup(indices)
    ensures forall q :: q in indices <==> 0 <= q < 5 && h[q].value < 10
  {
    indices := [];
    for i := 0 to 5
      invariant NoDup(indices)
      invariant forall q :: q in indices <==> 0 <= q < i && h[q].value < 10
    {
      if h[i].value < 10 {
        indices := indices + [i];
      }
    }
  }

  /**
   * `echanger_cartes_ordi` before the exchange: the positions to exchange
   * for a hand of the given category, built as the program builds them.
   */
  method ChooseDiscards(h: Hand, category: int) returns (ordre: seq<int>)
    ensures ordre == DiscardOrder(h, category)
  {
    var indices: seq<int>;
    if category in {THREE_OF_A_KIND, TWO_PAIR, PAIR} {
      var valeurs := PositionsByValue(h);
      indices := SelectPositions(h, category, valeurs);
    } else {
      indices := LowCards(h);
      assert forall q :: 0 <= q < 5 ==> (Discards(h, category, q) <==> h[q].value < 10);
    }
    ordre := SortDesc(indices, IntKey);
    DiscardOrderSpec(h, category);
    assert forall q :: q in indices <==> q in DiscardOrder(h, category);
    SameElementsSameMultiset(indices, DiscardOrder(h, category));
    SortedIntsUnique(ordre, DiscardOrder(h, category));
  }
}
