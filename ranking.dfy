/**
 * Comparing two hands (`comparer_mains`) and naming categories
 * (`nom_combinaison`).
 *
 * Two hands are compared by category first and then by their tie-break
 * keys, position by position, the way `zip` walks two lists: the first
 * position where the keys differ decides, and if one key runs out the
 * hands tie. Keys of one category always have the same length, so within a
 * category this is the lexicographic order on keys.
 */
module Ranking {
  import opened Cards
  import opened Hands

  /** The loop over `zip(key1, key2)`: 1, -1, or 0 when every shared position agrees. */
  function CompareKeys(k1: seq<int>, k2: seq<int>): (r: int)
    ensures -1 <= r <= 1
  {
    if k1 == [] || k2 == [] then 0
    else if k1[0] > k2[0] then 1
    else if k1[0] < k2[0] then -1
    else CompareKeys(k1[1..], k2[1..])
  }

  /** `k1` is below `k2` in the lexicographic order: they agree up to a position where `k1` is smaller. */
  ghost predicate LexLess(k1: seq<int>, k2: seq<int>) {
    exists i :: 0 <= i < |k1| && i < |k2| && k1[..i] == k2[..i] && k1[i] < k2[i]
  }

  /** The shorter length, the number of pairs `zip` produces. */
  function Shorter(k1: seq<int>, k2: seq<int>): nat {
    if |k1| <= |k2| then |k1| else |k2|
  }

  /**
   * The key comparison is the lexicographic order on the positions both
   * keys have: -1 when the first key is below, 1 when above, and 0
   * exactly when they agree on every shared position.
   */
  lemma {:induction false} CompareKeysIsLexicographic(k1: seq<int>, k2: seq<int>)
    ensures CompareKeys(k1, k2) == -1 <==> LexLess(k1, k2)
    ensures CompareKeys(k1, k2) == 1 <==> LexLess(k2, k1)
    ensures CompareKeys(k1, k2) == 0 <==> k1[..Shorter(k1, k2)] == k2[..Shorter(k1, k2)]
  {
    if k1 == [] || k2 == [] {
      assert !LexLess(k1, k2) && !LexLess(k2, k1);
    } else if k1[0] != k2[0] {
      assert k1[..0] == k2[..0];
      assert k1[..Shorter(k1, k2)][0] == k1[0];
      assert k2[..Shorter(k1, k2)][0] == k2[0];
      if k1[0] < k2[0] {
        FirstPositionDecides(k1, k2);
      } else {
        FirstPositionDecides(k2, k1);
      }
    } else {
      var t1, t2 := k1[1..], k2[1..];
      CompareKeysIsLexicographic(t1, t2);
      LexLessTail(k1, k2);
      LexLessTail(k2, k1);
      var m := Shorter(k1, k2);
      assert Shorter(t1, t2) == m - 1;
      assert k1[..m] == [k1[0]] + t1[..m - 1];
      assert k2[..m] == [k2[0]] + t2[..m - 1];
    }
  }

  /** Keys whose first elements differ are ordered by them. */
  lemma {:induction false} FirstPositionDecides(k1: seq<int>, k2: seq<int>)
    requires k1 != [] && k2 != [] && k1[0] < k2[0]
    ensures LexLess(k1, k2) && !LexLess(k2, k1)
  {
    assert k1[..0] == k2[..0];
    forall i | 0 < i <= |k2| && i <= |k1|
      ensures k2[..i] != k1[..i]
    {
      assert k2[..i][0] != k1[..i][0];
    }
  }

  /** With equal first elements, one key is below the other exactly when its tail is. */
  lemma {:induction false} LexLessTail(k1: seq<int>, k2: seq<int>)
    requires k1 != [] && k2 != [] && k1[0] == k2[0]
    ensures LexLess(k1, k2) <==> LexLess(k1[1..], k2[1..])
  {
    if LexLess(k1, k2) {
      LexLessDropHead(k1, k2);
    }
    if LexLess(k1[1..], k2[1..]) {
      LexLessAddHead(k1, k2);
    }
  }

  lemma {:induction false} LexLessDropHead(k1: seq<int>, k2: seq<int>)
    requires k1 != [] && k2 != [] && k1[0] == k2[0] && LexLess(k1, k2)
    ensures LexLess(k1[1..], k2[1..])
  {
    var t1, t2 := k1[1..], k2[1..];
    var i :| 0 <= i < |k1| && i < |k2| && k1[..i] == k2[..i] && k1[i] < k2[i];
    assert i > 0;
    forall j | 0 <= j < i - 1 ensures t1[j] == t2[j] {
      assert t1[j] == k1[..i][j + 1] && t2[j] == k2[..i][j + 1];
    }
    assert t1[..i - 1] == t2[..i - 1];
    assert t1[i - 1] == k1[i] && t2[i - 1] == k2[i];
  }

  lemma {:induction false} LexLessAddHead(k1: seq<int>, k2: seq<int>)
    requires k1 != [] && k2 != [] && k1[0] == k2[0] && LexLess(k1[1..], k2[1..])
    ensures LexLess(k1, k2)
  {
    var t1, t2 := k1[1..], k2[1..];
    var j :| 0 <= j < |t1| && j < |t2| && t1[..j] == t2[..j] && t1[j] < t2[j];
    assert k1[..j + 1] == [k1[0]] + t1[..j];
    assert k2[..j + 1] == [k2[0]] + t2[..j];
    assert k1[j + 1] < k2[j + 1];
  }

  /** `comparer_mains`: the category decides, then the keys. */
  function Compare(a: Hand, b: Hand): (r: int)
    ensures -1 <= r <= 1
  {
    var e1, e2 := Evaluate(a), Evaluate(b);
    if e1.category > e2.category then 1
    else if e1.category < e2.category then -1
    else CompareKeys(e1.key, e2.key)
  }

  /** A better category always wins, whatever the keys. */
  lemma {:induction false} HigherCategoryWins(a: Hand, b: Hand)
    requires Evaluate(a).category > Evaluate(b).category
    ensures Compare(a, b) == 1 && Compare(b, a) == -1
  {
  }

  lemma {:induction false} CompareKeysAntisymmetric(k1: seq<int>, k2: seq<int>)
    ensures CompareKeys(k1, k2) == -CompareKeys(k2, k1)
  {
    if k1 != [] && k2 != [] && k1[0] == k2[0] {
      CompareKeysAntisymmetric(k1[1..], k2[1..]);
    }
  }

  /** Swapping the hands flips the result. */
  lemma {:induction false} CompareAntisymmetric(a: Hand, b: Hand)
    ensures Compare(a, b) == -Compare(b, a)
  {
    CompareKeysAntisymmetric(Evaluate(a).key, Evaluate(b).key);
  }

  lemma {:induction false} CompareKeysReflexive(k: seq<int>)
    ensures CompareKeys(k, k) == 0
  {
    if k != [] {
      CompareKeysReflexive(k[1..]);
    }
  }

  /** A hand ties with itself. */
  lemma {:induction false} CompareReflexive(a: Hand)
    ensures Compare(a, a) == 0
  {
    CompareKeysReflexive(Evaluate(a).key);
  }

  /** Keys of equal length compare as 0 only when they are equal. */
  lemma {:induction false} CompareKeysZero(k1: seq<int>, k2: seq<int>)
    requires |k1| == |k2|
    ensures CompareKeys(k1, k2) == 0 <==> k1 == k2
  {
    if k1 != [] {
      CompareKeysZero(k1[1..], k2[1..]);
      assert k1 == [k1[0]] + k1[1..] && k2 == [k2[0]] + k2[1..];
    } else {
      CompareKeysReflexive(k1);
    }
  }

  /** Two hands tie exactly when they have the same category and the same key. */
  lemma {:induction false} TieIffSameEvaluation(a: Hand, b: Hand)
    ensures Compare(a, b) == 0 <==> Evaluate(a) == Evaluate(b)
  {
    KeyLength(a);
    KeyLength(b);
    if Evaluate(a).category == Evaluate(b).category {
      CompareKeysZero(Evaluate(a).key, Evaluate(b).key);
    }
  }

  lemma {:induction false} CompareKeysTransitive(k1: seq<int>, k2: seq<int>, k3: seq<int>)
    requires |k1| == |k2| == |k3|
    requires CompareKeys(k1, k2) >= 0 && CompareKeys(k2, k3) >= 0
    ensures CompareKeys(k1, k3) >= 0
  {
    if k1 != [] && k1[0] == k2[0] == k3[0] {
      CompareKeysTransitive(k1[1..], k2[1..], k3[1..]);
    }
  }

  /** "At least as good as" is transitive, so the comparison ranks all hands consistently. */
  lemma {:induction false} CompareTransitive(a: Hand, b: Hand, c: Hand)
    requires Compare(a, b) >= 0 && Compare(b, c) >= 0
    ensures Compare(a, c) >= 0
  {
    KeyLength(a);
    KeyLength(b);
    KeyLength(c);
    var ea, eb, ec := Evaluate(a), Evaluate(b), Evaluate(c);
    if ea.category == eb.category == ec.category {
      CompareKeysTransitive(ea.key, eb.key, ec.key);
    }
  }

  /**
   * Suits never break a tie: hands with the same values that are both, or
   * both not, of a single suit compare equal.
   */
  lemma {:induction false} SuitsNeverBreakTies(a: Hand, b: Hand)
    requires Values(a) == Values(b) && SameSuit(a) == SameSuit(b)
    ensures Compare(a, b) == 0
  {
    SuitsOnlyDecideFlushes(a, b);
    CompareReflexive(a);
  }

  /**
   * `comparer_mains` as the program runs it: compare the categories, then
   * walk the two keys together and return at the first difference.
   */
  method CompareHands(main1: Hand, main2: Hand) returns (r: int)
    ensures r == Compare(main1, main2)
    ensures r == 0 <==> Evaluate(main1) == Evaluate(main2)
  {
    TieIffSameEvaluation(main1, main2);
    var eval1, eval2 := Evaluate(main1), Evaluate(main2);
    if eval1.category > eval2.category {
      return 1;
    } else if eval1.category < eval2.category {
      return -1;
    }
    var k1, k2 := eval1.key, eval2.key;
    var i := 0;
    while i < |k1| && i < |k2|
      invariant 0 <= i <= |k1| && 0 <= i <= |k2|
      invariant CompareKeys(k1[i..], k2[i..]) == CompareKeys(k1, k2)
    {
      assert k1[i..][0] == k1[i] && k2[i..][0] == k2[i];
      assert k1[i..][1..] == k1[i + 1..] && k2[i..][1..] == k2[i + 1..];
      if k1[i] > k2[i] {
        return 1;
      } else if k1[i] < k2[i] {
        return -1;
      }
      i := i + 1;
    }
    return 0;
  }

  /** The names `nom_combinaison` gives to categories 0 to 9. */
  const CATEGORY_NAMES: seq<string> := [
    "Carte Haute", "Paire", "Deux Paires", "Brelan", "Quinte",
    "Couleur", "Full", "Carré", "Quinte Flush", "Quinte Flush Royale"
  ]

  /** `nom_combinaison`: the name of a category, "Inconnu" for any other number. */
  function CategoryName(rang: int): (name: string)
    ensures name == "Inconnu" <==> !(0 <= rang <= 9)
    ensures 0 <= rang <= 9 ==> name == CATEGORY_NAMES[rang]
  {
    if 0 <= rang < |CATEGORY_NAMES| then CATEGORY_NAMES[rang] else "Inconnu"
  }

  /** Different categories get different names, so a name identifies its category. */
  lemma {:induction false} CategoryNamesDistinct(i: int, j: int)
    requires 0 <= i <= 9 && 0 <= j <= 9 && i != j
    ensures CategoryName(i) != CategoryName(j)
  {
    assert forall a, b :: 0 <= a < b < 10 ==> CATEGORY_NAMES[a] != CATEGORY_NAMES[b];
  }
}
