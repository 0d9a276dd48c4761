/**
 * Five-card hands (`Main`) and their evaluation (`Main.evaluer`).
 *
 * A hand keeps its five cards sorted by value, highest first. Its
 * category is the first of ten tests that succeeds, from the royal flush
 * (9) down to the high card (0), and comes with a tie-break key. The
 * tests are written as the program writes them: most of them look at the
 * groups of equal values (`Grouping.Groups`), the flush tests at the suits
 * and the straight tests at the sorted values.
 *
 * Nothing stops a hand from holding the same card twice (a player types
 * their cards in), so the lemmas below do not require distinct cards
 * unless they say so.
 */
module Hands {
  import opened Wrappers
  import opened Cards
  import opened Sorting
  import opened Grouping

  function CardValue(c: Card): int {
    c.value
  }

  /** The cards of a `Main`: exactly five, sorted by value, highest first. */
  type Hand = cs: seq<Card> | |cs| == 5 && SortedDesc(cs, CardValue)
    witness [Card(0, Coeur), Card(0, Coeur), Card(0, Coeur), Card(0, Coeur), Card(0, Coeur)]

  /** The `ValueError` raised for a card list of the wrong length. */
  datatype HandError = WrongCardCount(count: nat)

  /** `Main(cartes)`: the cards sorted by value, highest first; an error unless there are five. */
  function NewHand(cartes: seq<Card>): (r: Result<Hand, HandError>)
    ensures r.Ok? <==> |cartes| == 5
    ensures r.Err? ==> r.error == WrongCardCount(|cartes|)
    ensures r.Ok? ==> multiset(r.value) == multiset(cartes)
  {
    if |cartes| != 5 then Err(WrongCardCount(|cartes|))
    else Ok(SortDesc(cartes, CardValue))
  }

  /** Cards of equal value keep the order they were given in. */
  lemma {:induction false} NewHandIsStable(cartes: seq<Card>, v: int)
    requires |cartes| == 5
    ensures WithKey(NewHand(cartes).value, CardValue, v) == WithKey(cartes, CardValue, v)
  {
    SortDescIsStable(cartes, CardValue, v);
  }

  /** Building a hand from the cards of a hand gives the same hand. */
  lemma {:induction false} NewHandOfHand(h: Hand)
    ensures NewHand(h) == Ok(h)
  {
    SortDescOfSorted(h, CardValue);
  }

  /** The card values, highest first. */
  function Values(h: Hand): (vs: seq<int>)
    ensures |vs| == 5 && InRange(vs)
    ensures forall i, j :: 0 <= i < j < 5 ==> vs[i] >= vs[j]
  {
    assert forall i, j :: 0 <= i < j < 5 ==> CardValue(h[i]) >= CardValue(h[j]);
    seq(5, i requires 0 <= i < 5 => h[i].value)
  }

  /** `sorted(carte.valeur for carte in cartes)`: the card values, lowest first. */
  function AscendingValues(h: Hand): (vs: seq<int>)
    ensures |vs| == 5
    ensures forall i, j :: 0 <= i < j < 5 ==> vs[i] <= vs[j]
    ensures multiset(vs) == multiset(Values(h))
  {
    ReversePermutes(Values(h));
    Reverse(Values(h))
  }

  /** `max(carte.valeur for carte in cartes)`. */
  function MaxValue(h: Hand): (m: int)
    ensures m in Values(h)
    ensures forall i :: 0 <= i < 5 ==> Values(h)[i] <= m
  {
    Values(h)[0]
  }

  /** `list(range(lo, hi))`. */
  function Range(lo: int, hi: int): (r: seq<int>)
    ensures |r| == if lo <= hi then hi - lo else 0
    ensures forall i :: 0 <= i < |r| ==> r[i] == lo + i
  {
    if lo >= hi then [] else seq(hi - lo, i => lo + i)
  }

  /** Ace, 2, 3, 4, 5: the sorted values of the lowest straight. */
  const WHEEL: seq<int> := [0, 1, 2, 3, 12]

  /** `est_meme_couleur`: a single suit among the five cards. */
  predicate SameSuit(h: Hand) {
    forall i :: 0 <= i < 5 ==> h[i].suit == h[0].suit
  }

  /** `est_quinte`: the wheel, or sorted values forming a run from the lowest to the highest. */
  predicate IsStraight(h: Hand) {
    var vs := AscendingValues(h);
    vs == WHEEL || vs == Range(vs[0], vs[4] + 1)
  }

  /** `get_valeur_quinte`: 3 (the value of '5') for the wheel, otherwise the highest value. */
  function StraightValue(h: Hand): int {
    if AscendingValues(h) == WHEEL then 3 else MaxValue(h)
  }

  /** `get_valeurs_par_groupes` of the hand. */
  function HandGroups(h: Hand): seq<Group> {
    Groups(Values(h))
  }

  predicate IsStraightFlush(h: Hand) {
    SameSuit(h) && IsStraight(h)
  }

  predicate IsRoyalFlush(h: Hand) {
    SameSuit(h) && AscendingValues(h) == [8, 9, 10, 11, 12]
  }

  predicate IsFour(h: Hand) {
    var g := HandGroups(h);
    |g| >= 1 && g[0].count == 4
  }

  predicate IsFullHouse(h: Hand) {
    var g := HandGroups(h);
    |g| >= 2 && g[0].count == 3 && g[1].count == 2
  }

  predicate IsFlush(h: Hand) {
    SameSuit(h) && !IsStraight(h)
  }

  predicate IsThree(h: Hand) {
    var g := HandGroups(h);
    |g| >= 3 && g[0].count == 3 && g[1].count == 1
  }

  predicate IsTwoPair(h: Hand) {
    var g := HandGroups(h);
    |g| >= 3 && g[0].count == 2 && g[1].count == 2
  }

  predicate IsPair(h: Hand) {
    var g := HandGroups(h);
    |g| >= 4 && g[0].count == 2 && g[1].count == 1
  }

  const HIGH_CARD := 0
  const PAIR := 1
  const TWO_PAIR := 2
  const THREE_OF_A_KIND := 3
  const STRAIGHT := 4
  const FLUSH := 5
  const FULL_HOUSE := 6
  const FOUR_OF_A_KIND := 7
  const STRAIGHT_FLUSH := 8
  const ROYAL_FLUSH := 9

  /** The test of category `k`; the high card needs nothing. */
  predicate Holds(h: Hand, k: int) {
    if k == ROYAL_FLUSH then IsRoyalFlush(h)
    else if k == STRAIGHT_FLUSH then IsStraightFlush(h)
    else if k == FOUR_OF_A_KIND then IsFour(h)
    else if k == FULL_HOUSE then IsFullHouse(h)
    else if k == FLUSH then IsFlush(h)
    else if k == STRAIGHT then IsStraight(h)
    else if k == THREE_OF_A_KIND then IsThree(h)
    else if k == TWO_PAIR then IsTwoPair(h)
    else if k == PAIR then IsPair(h)
    else k == HIGH_CARD
  }

  /** A category and its tie-break key, the pair `evaluer` returns. */
  datatype Evaluation = Evaluation(category: int, key: seq<int>)

  /** The values of the groups, in group order. */
  function GroupValues(gs: seq<Group>): seq<int> {
    seq(|gs|, i requires 0 <= i < |gs| => gs[i].value)
  }

  /** A four of a kind leaves exactly one other group. */
  lemma {:induction false} FourHasTwoGroups(h: Hand)
    requires IsFour(h)
    ensures |HandGroups(h)| == 2
  {
    ShapeOfFive(Values(h));
    assert Shape(HandGroups(h))[0] == 4;
  }

  /**
   * `evaluer`: the category is the highest one whose test succeeds, which
   * is the first success in the order the program tries them.
   */
  function Evaluate(h: Hand): (e: Evaluation)
    ensures 0 <= e.category <= 9
    ensures Holds(h, e.category)
    ensures forall k :: e.category < k <= 9 ==> !Holds(h, k)
  {
    var g := HandGroups(h);
    if IsRoyalFlush(h) then Evaluation(ROYAL_FLUSH, [])
    else if IsStraightFlush(h) then Evaluation(STRAIGHT_FLUSH, [StraightValue(h)])
    else if IsFour(h) then
      FourHasTwoGroups(h);
      Evaluation(FOUR_OF_A_KIND, [g[0].value, g[1].value])
    else if IsFullHouse(h) then Evaluation(FULL_HOUSE, [g[0].value, g[1].value])
    else if IsFlush(h) then Evaluation(FLUSH, Values(h))
    else if IsStraight(h) then Evaluation(STRAIGHT, [StraightValue(h)])
    else if IsThree(h) then Evaluation(THREE_OF_A_KIND, [g[0].value] + [g[1].value, g[2].value])
    else if IsTwoPair(h) then Evaluation(TWO_PAIR, [g[0].value, g[1].value, g[2].value])
    else if IsPair(h) then Evaluation(PAIR, [g[0].value] + GroupValues(g[1..]))
    else Evaluation(HIGH_CARD, Values(h))
  }

  // Reference definitions by multiplicity: how many cards share a value.

  /** Some value is held by exactly `n` cards. */
  ghost predicate HasMult(h: Hand, n: nat) {
    exists v :: 0 <= v < 13 && Count(Values(h), v) == n
  }

  /** Two different values are held by exactly two cards each. */
  ghost predicate HasTwoPairs(h: Hand) {
    exists v, w :: 0 <= v < w < 13 && Count(Values(h), v) == 2 && Count(Values(h), w) == 2
  }

  /** The group counts of a hand form a partition of 5. */
  lemma {:induction false} HandShape(h: Hand)
    ensures IsPartitionOfFive(Shape(HandGroups(h)))
  {
    ShapeOfFive(Values(h));
  }

  /** Some value is held by `n` cards exactly when some group has count `n`. */
  lemma {:induction false} MultInShape(h: Hand, n: nat)
    requires n >= 1
    ensures HasMult(h, n) <==> n in Shape(HandGroups(h))
  {
    if HasMult(h, n) {
      var v :| 0 <= v < 13 && Count(Values(h), v) == n;
      MultGivesGroup(Values(h), n, v);
    }
    if n in Shape(HandGroups(h)) {
      GroupGivesMult(Values(h), n);
    }
  }

  lemma {:induction false} MultGivesGroup(xs: seq<int>, n: nat, v: int)
    requires InRange(xs) && n >= 1 && 0 <= v < 13 && Count(xs, v) == n
    ensures n in Shape(Groups(xs))
  {
    GroupsSpec(xs);
    CountInTable(Groups(xs), xs, n);
  }

  lemma {:induction false} GroupGivesMult(xs: seq<int>, n: nat)
    requires InRange(xs) && n >= 1 && n in Shape(Groups(xs))
    ensures exists v :: 0 <= v < 13 && Count(xs, v) == n
  {
    GroupsSpec(xs);
    CountInTable(Groups(xs), xs, n);
  }

  lemma {:induction false} TwoPairsInShape(h: Hand)
    ensures HasTwoPairs(h) <==> Twice(Shape(HandGroups(h)), 2)
  {
    var xs := Values(h);
    TwoPairsInGroups(xs);
    if HasTwoPairs(h) {
      var v, w :| 0 <= v < w < 13 && Count(xs, v) == 2 && Count(xs, w) == 2;
      assert exists v, w :: 0 <= v < w < 13 && Count(xs, v) == 2 && Count(xs, w) == 2;
    }
  }

  lemma {:induction false} TwoPairsInGroups(xs: seq<int>)
    requires InRange(xs)
    ensures (exists v, w :: 0 <= v < w < 13 && Count(xs, v) == 2 && Count(xs, w) == 2)
        <==> Twice(Shape(Groups(xs)), 2)
  {
    GroupsSpec(xs);
    TwoCountsInTable(Groups(xs), xs, 2);
  }

  /** Four of a kind: some value is held by four cards. */
  lemma {:induction false} FourByMultiplicity(h: Hand)
    ensures IsFour(h) <==> HasMult(h, 4)
  {
    HandShape(h);
    MultInShape(h, 4);
    PartitionCases(Shape(HandGroups(h)));
  }

  /** Full house: one value held by three cards and one by two. */
  lemma {:induction false} FullHouseByMultiplicity(h: Hand)
    ensures IsFullHouse(h) <==> HasMult(h, 3) && HasMult(h, 2)
  {
    HandShape(h);
    MultInShape(h, 3);
    MultInShape(h, 2);
    PartitionCases(Shape(HandGroups(h)));
  }

  /** Three of a kind: a value held by three cards and no value held by two. */
  lemma {:induction false} ThreeByMultiplicity(h: Hand)
    ensures IsThree(h) <==> HasMult(h, 3) && !HasMult(h, 2)
  {
    HandShape(h);
    MultInShape(h, 3);
    MultInShape(h, 2);
    PartitionCases(Shape(HandGroups(h)));
  }

  /** Two pair: two different values held by two cards each. */
  lemma {:induction false} TwoPairByMultiplicity(h: Hand)
    ensures IsTwoPair(h) <==> HasTwoPairs(h)
  {
    HandShape(h);
    TwoPairsInShape(h);
    PartitionCases(Shape(HandGroups(h)));
  }

  /** One pair: a value held by two cards, no second such value and none held by three. */
  lemma {:induction false} PairByMultiplicity(h: Hand)
    ensures IsPair(h) <==> HasMult(h, 2) && !HasMult(h, 3) && !HasTwoPairs(h)
  {
    HandShape(h);
    MultInShape(h, 3);
    MultInShape(h, 2);
    TwoPairsInShape(h);
    PartitionCases(Shape(HandGroups(h)));
  }

  // Straights, flushes and precedence.

  /** No two cards share a value: the values strictly decrease along the hand. */
  predicate RanksDiffer(h: Hand) {
    forall i :: 0 <= i < 4 ==> h[i].value > h[i + 1].value
  }

  /**
   * `est_quinte` by what it means: five different values that either
   * span exactly four steps or are Ace, 2, 3, 4, 5.
   */
  lemma {:induction false} StraightByValues(h: Hand)
    ensures IsStraight(h) <==>
      RanksDiffer(h) && (h[0].value - h[4].value == 4 || AscendingValues(h) == WHEEL)
  {
    var a := AscendingValues(h);
    AscendingOrder(h);
    StraightRun(a);
  }

  /** The sorted values run from the last card's value to the first's, rising strictly when no value repeats. */
  lemma {:induction false} AscendingOrder(h: Hand)
    ensures AscendingValues(h)[0] == h[4].value && AscendingValues(h)[4] == h[0].value
    ensures RanksDiffer(h) <==> var a := AscendingValues(h); a[0] < a[1] < a[2] < a[3] < a[4]
  {
    AscendingDisplay(h);
    RanksDifferUnrolled(h);
  }

  lemma {:induction false} RanksDifferUnrolled(h: Hand)
    ensures RanksDiffer(h) <==> h[0].value > h[1].value > h[2].value > h[3].value > h[4].value
  {
    if h[0].value > h[1].value > h[2].value > h[3].value > h[4].value {
      forall i | 0 <= i < 4 ensures h[i].value > h[i + 1].value {
        if i == 0 {
        } else if i == 1 {
        } else if i == 2 {
        } else {
        }
      }
    }
  }

  /** The straight test on sorted values, stated on the values alone. */
  lemma {:induction false} StraightRun(a: seq<int>)
    requires |a| == 5
    ensures (a == WHEEL || a == Range(a[0], a[4] + 1)) <==>
      a[0] < a[1] < a[2] < a[3] < a[4] && (a[4] - a[0] == 4 || a == WHEEL)
  {
    RunOfFive(a);
  }

  /** Five sorted values are `range(lowest, highest + 1)` exactly when they increase by one each time. */
  lemma {:induction false} RunOfFive(a: seq<int>)
    requires |a| == 5
    ensures a == Range(a[0], a[4] + 1) <==> a[0] < a[1] < a[2] < a[3] < a[4] == a[0] + 4
  {
    RangeOfFive(a[0]);
    if a == Range(a[0], a[4] + 1) {
      assert a[4] + 1 - a[0] == 5;
    }
    if a[0] < a[1] < a[2] < a[3] < a[4] == a[0] + 4 {
      assert a == [a[0], a[0] + 1, a[0] + 2, a[0] + 3, a[0] + 4];
    }
  }

  lemma {:induction false} AscendingDisplay(h: Hand)
    ensures AscendingValues(h) == [h[4].value, h[3].value, h[2].value, h[1].value, h[0].value]
  {
    var a := AscendingValues(h);
    assert forall i :: 0 <= i < 5 ==> a[i] == Values(h)[4 - i];
  }

  lemma {:induction false} RangeOfFive(lo: int)
    ensures Range(lo, lo + 5) == [lo, lo + 1, lo + 2, lo + 3, lo + 4]
  {
  }

  /** With every value different, no test on the groups succeeds. */
  lemma {:induction false} NoGroupTestWithoutRepeat(h: Hand)
    requires RanksDiffer(h)
    ensures !IsFour(h) && !IsFullHouse(h) && !IsThree(h) && !IsTwoPair(h) && !IsPair(h)
  {
    var xs := Values(h);
    var g := HandGroups(h);
    GroupsSpec(xs);
    assert forall i, j :: 0 <= i < j < 5 ==> xs[i] > xs[j] by {
      forall i, j | 0 <= i < j < 5 ensures xs[i] > xs[j] {
        assert xs[i] > xs[i + 1];
      }
    }
    if |g| >= 1 {
      CountInDecreasing(xs, g[0].value);
      assert g[0].count == Count(xs, g[0].value);
    }
  }

  /** Five different cards of one suit have five different values. */
  lemma {:induction false} SameSuitRanksDiffer(h: Hand)
    requires NoDup(h) && SameSuit(h)
    ensures RanksDiffer(h)
  {
    forall i | 0 <= i < 4 ensures h[i].value > h[i + 1].value {
      assert CardValue(h[i]) >= CardValue(h[i + 1]);
      assert h[i] != h[i + 1];
    }
  }

  /** The royal flush is exactly the straight flush whose top value is the Ace. */
  lemma {:induction false} RoyalIsAceHighStraightFlush(h: Hand)
    ensures IsRoyalFlush(h) <==> IsStraightFlush(h) && StraightValue(h) == 12
  {
    var a := AscendingValues(h);
    RangeOfFive(8);
    if a != WHEEL {
      RangeOfFive(a[0]);
      if a == Range(a[0], a[4] + 1) {
        assert a[4] + 1 - a[0] == 5;
      }
    }
  }

  /**
   * A same-suit straight is never ranked as a flush: it is the royal
   * flush when Ace-high (with an empty key) and a straight flush keyed
   * by its top value otherwise.
   */
  lemma {:induction false} StraightFlushEvaluation(h: Hand)
    requires IsStraightFlush(h)
    ensures Evaluate(h) == if StraightValue(h) == 12 then Evaluation(ROYAL_FLUSH, [])
                           else Evaluation(STRAIGHT_FLUSH, [StraightValue(h)])
  {
    RoyalIsAceHighStraightFlush(h);
  }

  /**
   * Ace, 2, 3, 4, 5 is a straight whose value is 3 (the value of '5'),
   * so it ranks below every other straight; of one suit it is a
   * straight flush, otherwise a straight.
   */
  lemma {:induction false} WheelEvaluation(h: Hand)
    requires AscendingValues(h) == WHEEL
    ensures IsStraight(h) && StraightValue(h) == 3
    ensures Evaluate(h) == Evaluation(if SameSuit(h) then STRAIGHT_FLUSH else STRAIGHT, [3])
  {
    StraightByValues(h);
    NoGroupTestWithoutRepeat(h);
    if IsRoyalFlush(h) {
    } else if IsStraightFlush(h) {
    } else if IsFour(h) {
    } else if IsFullHouse(h) {
    } else if IsFlush(h) {
    } else if IsStraight(h) {
    } else if IsThree(h) {
    } else if IsTwoPair(h) {
    } else if IsPair(h) {
    }
  }

  /**
   * Among five different cards the tests other than the straights never
   * overlap, so for them the order of the tests does not matter: the
   * category is any such test that succeeds.
   */
  lemma {:induction false} DistinctCardsCategory(h: Hand, k: int)
    requires NoDup(h)
    requires k in {PAIR, TWO_PAIR, THREE_OF_A_KIND, FLUSH, FULL_HOUSE, FOUR_OF_A_KIND}
    requires Holds(h, k)
    ensures Evaluate(h).category == k
  {
    StraightByValues(h);
    RoyalIsAceHighStraightFlush(h);
    if SameSuit(h) {
      SameSuitRanksDiffer(h);
    }
    if RanksDiffer(h) {
      NoGroupTestWithoutRepeat(h);
    }
  }

  /**
   * Suits matter only through `est_meme_couleur`: two hands with the same
   * values that are both, or both not, of a single suit evaluate alike.
   */
  lemma {:induction false} SuitsOnlyDecideFlushes(a: Hand, b: Hand)
    requires Values(a) == Values(b) && SameSuit(a) == SameSuit(b)
    ensures Evaluate(a) == Evaluate(b)
  {
    assert AscendingValues(a) == AscendingValues(b);
    assert HandGroups(a) == HandGroups(b);
    assert StraightValue(a) == StraightValue(b);
    assert IsStraight(a) == IsStraight(b);
    assert IsRoyalFlush(a) == IsRoyalFlush(b);
    assert IsStraightFlush(a) == IsStraightFlush(b);
    assert IsFlush(a) == IsFlush(b);
    assert IsFour(a) == IsFour(b) && IsFullHouse(a) == IsFullHouse(b);
    assert IsThree(a) == IsThree(b) && IsTwoPair(a) == IsTwoPair(b) && IsPair(a) == IsPair(b);
  }

  // Tie-break keys.

  /** Length of the key of each category. */
  function KeySize(category: int): nat {
    if category == ROYAL_FLUSH then 0
    else if category == STRAIGHT_FLUSH || category == STRAIGHT then 1
    else if category == FOUR_OF_A_KIND || category == FULL_HOUSE then 2
    else if category == THREE_OF_A_KIND || category == TWO_PAIR then 3
    else if category == PAIR then 4
    else 5
  }

  /**
   * For four of a kind, full house, three of a kind, two pair and pair the
   * key lists every value of the hand once, by number of cards and then by
   * value, highest first: the values of the groups.
   */
  lemma {:induction false} GroupedKey(h: Hand)
    requires Evaluate(h).category in {PAIR, TWO_PAIR, THREE_OF_A_KIND, FULL_HOUSE, FOUR_OF_A_KIND}
    ensures Evaluate(h).key == GroupValues(HandGroups(h))
    ensures |HandGroups(h)| == KeySize(Evaluate(h).category)
  {
    var g := HandGroups(h);
    GroupCountsFixSize(h);
    if |g| == 2 {
      assert GroupValues(g) == [g[0].value, g[1].value];
    } else if |g| == 3 {
      assert GroupValues(g) == [g[0].value, g[1].value, g[2].value];
    } else if |g| == 4 {
      assert GroupValues(g) == [g[0].value] + GroupValues(g[1..]);
    }
  }

  /** The first two group counts of a grouped category fix the number of groups. */
  lemma {:induction false} GroupCountsFixSize(h: Hand)
    ensures var g := HandGroups(h);
      && (IsFour(h) || IsFullHouse(h) ==> |g| == 2)
      && (IsThree(h) || IsTwoPair(h) ==> |g| == 3)
      && (IsPair(h) ==> |g| == 4)
  {
    var g := HandGroups(h);
    HandShape(h);
    var cs := Shape(g);
    assert |cs| == |g|;
    if |g| >= 1 {
      assert cs[0] == g[0].count;
    }
    if |g| >= 2 {
      assert cs[1] == g[1].count;
    }
  }

  /** Flushes and high cards are keyed by all five values, highest first. */
  lemma {:induction false} ValuesKey(h: Hand)
    requires Evaluate(h).category in {HIGH_CARD, FLUSH}
    ensures Evaluate(h).key == Values(h)
    ensures forall i, j :: 0 <= i < j < 5 ==> Evaluate(h).key[i] >= Evaluate(h).key[j]
  {
    if IsRoyalFlush(h) {
    } else if IsStraightFlush(h) {
    } else if IsFour(h) {
    } else if IsFullHouse(h) {
    } else if IsFlush(h) {
    } else if IsStraight(h) {
    } else if IsThree(h) {
    } else if IsTwoPair(h) {
    } else if IsPair(h) {
    }
  }

  /** An ordinary straight is keyed by its top value alone: 3 for the wheel, else the highest value. */
  lemma {:induction false} StraightKey(h: Hand)
    requires Evaluate(h).category == STRAIGHT
    ensures IsStraight(h) && !SameSuit(h)
    ensures Evaluate(h).key == [StraightValue(h)]
    ensures StraightValue(h) == if AscendingValues(h) == WHEEL then 3 else MaxValue(h)
  {
    if IsRoyalFlush(h) {
    } else if IsStraightFlush(h) {
    } else if IsFour(h) {
    } else if IsFullHouse(h) {
    } else if IsFlush(h) {
    } else if IsStraight(h) {
    } else if IsThree(h) {
    } else if IsTwoPair(h) {
    } else if IsPair(h) {
    }
  }

  /** The key length depends on the category alone, so keys of one category line up. */
  lemma {:induction false} KeyLength(h: Hand)
    ensures |Evaluate(h).key| == KeySize(Evaluate(h).category)
  {
    if IsRoyalFlush(h) || IsStraightFlush(h) {
    } else if IsFour(h) || IsFullHouse(h) {
      GroupedKey(h);
    } else if IsFlush(h) || IsStraight(h) {
    } else if IsThree(h) || IsTwoPair(h) || IsPair(h) {
      GroupedKey(h);
    }
  }

  /**
   * `get_valeurs_par_groupes` as the program runs it: a loop counting the
   * cards of each value into the dictionary, then a loop appending its
   * items in sorted order.
   */
  method ValuesByGroup(h: Hand) returns (groupes: seq<Group>)
    ensures groupes == HandGroups(h)
    ensures Tabulates(groupes, Values(h)) && Ordered(groupes)
  {
    var xs := Values(h);
    var valeurs: seq<Group> := [];
    var i := 0;
    while i < 5
      invariant 0 <= i <= 5
      invariant valeurs == Items(xs[..i])
    {
      assert xs[..i + 1][..i] == xs[..i];
      valeurs := Bump(valeurs, h[i].value);
      i := i + 1;
    }
    assert xs[..5] == xs;
    var triees := SortDesc(valeurs, GroupKey);
    groupes := [];
    var j := 0;
    while j < |triees|
      invariant 0 <= j <= |triees|
      invariant groupes == triees[..j]
    {
      groupes := groupes + [triees[j]];
      j := j + 1;
    }
    assert triees[..|triees|] == triees;
    GroupsSpec(xs);
  }
}
