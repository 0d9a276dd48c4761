/**
 * The 52-card deck (`JeuPoker.creer_jeu`) and the card exchanges that
 * draw from it.
 *
 * The deck is a list used as a stack: cards are drawn with `pop()`, from
 * the end. An exchange walks a list of hand positions and replaces the
 * card at each position that lies inside the hand with the card drawn
 * from the deck; positions outside the hand are skipped without drawing.
 */
module Deck {
  import opened Cards
  import opened Sorting

  /** Position of a suit in `COULEURS`. */
  function SuitIndex(s: Suit): (i: nat)
    ensures i < 4 && SUITS[i] == s
  {
    match s
    case Coeur => 0
    case Carreau => 1
    case Trefle => 2
    case Pique => 3
  }

  /** `creer_jeu`: the suits in `COULEURS` order, each with its ranks in `RANGS` order. */
  function NewDeck(): (d: seq<Card>)
    ensures |d| == 52
  {
    seq(52, i requires 0 <= i < 52 => Card(i % 13, SUITS[i / 13]))
  }

  /** Every card sits in the fresh deck at 13 times its suit's position plus its value. */
  lemma {:induction false} NewDeckPosition(c: Card)
    ensures 13 * SuitIndex(c.suit) + c.value < 52
    ensures NewDeck()[13 * SuitIndex(c.suit) + c.value] == c
  {
    var i := 13 * SuitIndex(c.suit) + c.value;
    assert i % 13 == c.value && i / 13 == SuitIndex(c.suit);
  }

  /** The fresh deck holds all 52 cards, each exactly once. */
  lemma {:induction false} NewDeckIsComplete()
    ensures |NewDeck()| == 52
    ensures NoDup(NewDeck())
    ensures forall c: Card :: multiset(NewDeck())[c] == 1
  {
    var d := NewDeck();
    forall i, j | 0 <= i < j < 52 ensures d[i] != d[j] {
      if i / 13 == j / 13 {
        assert i % 13 != j % 13;
      } else {
        assert SUITS[i / 13] != SUITS[j / 13];
      }
    }
    forall c: Card ensures multiset(d)[c] == 1 {
      NewDeckPosition(c);
      NoDupMultiset(d, c);
    }
  }

  /** A collection of cards with each card at most once. */
  ghost predicate AtMostOnce(m: multiset<Card>) {
    forall c :: m[c] <= 1
  }

  /** Cards that fit inside a fresh deck appear at most once. */
  lemma {:induction false} WithinNewDeck(m: multiset<Card>)
    requires m <= multiset(NewDeck())
    ensures AtMostOnce(m)
  {
    NewDeckIsComplete();
  }

  /** Number of positions in `order` that lie inside a hand of `size` cards: the number of draws. */
  function Draws(order: seq<int>, size: nat): nat {
    CountInRange(order, 0, size)
  }

  /** `sorted(indices, reverse=True)`: the positions to exchange, highest first. */
  function HighestFirst(indices: seq<int>): (r: seq<int>)
    ensures SortedDesc(r, IntKey) && multiset(r) == multiset(indices)
    ensures Draws(r, 5) == Draws(indices, 5)
  {
    CountInRangeSorted(indices, 0, 5);
    SortDesc(indices, IntKey)
  }

  /**
   * `cartes.pop(i); cartes.insert(i, jeu.pop())` for each `i` of `order`
   * in turn, skipping positions outside the hand: the new hand and the
   * new deck.
   */
  function Exchange(cartes: seq<Card>, order: seq<int>, jeu: seq<Card>): (r: (seq<Card>, seq<Card>))
    requires Draws(order, |cartes|) <= |jeu|
    ensures |r.0| == |cartes|
    ensures r.1 == jeu[..|jeu| - Draws(order, |cartes|)]
    decreases |order|
  {
    if order == [] then (cartes, jeu)
    else if 0 <= order[0] < |cartes| then
      Exchange(cartes[order[0] := jeu[|jeu| - 1]], order[1..], jeu[..|jeu| - 1])
    else Exchange(cartes, order[1..], jeu)
  }

  /** Positions that no in-range entry of `order` names keep their card. */
  lemma {:induction false} ExchangeKeeps(cartes: seq<Card>, order: seq<int>, jeu: seq<Card>, p: int)
    requires Draws(order, |cartes|) <= |jeu|
    requires 0 <= p < |cartes| && p !in order
    ensures Exchange(cartes, order, jeu).0[p] == cartes[p]
    decreases |order|
  {
    if order != [] {
      var next := if 0 <= order[0] < |cartes| then cartes[order[0] := jeu[|jeu| - 1]] else cartes;
      var rest := if 0 <= order[0] < |cartes| then jeu[..|jeu| - 1] else jeu;
      ExchangeKeeps(next, order[1..], rest, p);
    }
  }

  /** A position named in `order` ends up holding one of the cards drawn from the deck. */
  lemma {:induction false} ExchangeDraws(cartes: seq<Card>, order: seq<int>, jeu: seq<Card>, p: int)
    requires Draws(order, |cartes|) <= |jeu|
    requires 0 <= p < |cartes| && p in order
    ensures Exchange(cartes, order, jeu).0[p] in jeu[|jeu| - Draws(order, |cartes|)..]
    decreases |order|
  {
    var n := Draws(order, |cartes|);
    if 0 <= order[0] < |cartes| {
      var next := cartes[order[0] := jeu[|jeu| - 1]];
      var rest := jeu[..|jeu| - 1];
      if p in order[1..] {
        ExchangeDraws(next, order[1..], rest, p);
        assert rest[|rest| - (n - 1)..] == jeu[|jeu| - n..|jeu| - 1];
      } else {
        assert p == order[0];
        ExchangeKeeps(next, order[1..], rest, p);
        assert jeu[|jeu| - 1] == jeu[|jeu| - n..][n - 1];
      }
    } else {
      assert p in order[1..];
      ExchangeDraws(cartes, order[1..], jeu, p);
    }
  }

  /**
   * A position whose last naming in `order` is entry `t` ends up holding the
   * card on top of the deck at that turn: the deck less the cards drawn by
   * the entries before `t`.
   */
  lemma {:induction false} ExchangeLastDraw(cartes: seq<Card>, order: seq<int>, jeu: seq<Card>, p: int, t: int)
    requires Draws(order, |cartes|) <= |jeu|
    requires 0 <= t < |order| && order[t] == p && 0 <= p < |cartes| && p !in order[t + 1..]
    ensures Draws(order[..t], |cartes|) < Draws(order, |cartes|)
    ensures Exchange(cartes, order, jeu).0[p] == jeu[|jeu| - 1 - Draws(order[..t], |cartes|)]
    decreases |order|
  {
    if t == 0 {
      assert order[..0] == [] && order[1..] == order[t + 1..];
      ExchangeKeeps(cartes[p := jeu[|jeu| - 1]], order[1..], jeu[..|jeu| - 1], p);
    } else {
      assert order[1..][t - 1] == p && order[1..][t..] == order[t + 1..];
      assert order[..t][0] == order[0] && order[..t][1..] == order[1..][..t - 1];
      if 0 <= order[0] < |cartes| {
        ExchangeLastDraw(cartes[order[0] := jeu[|jeu| - 1]], order[1..], jeu[..|jeu| - 1], p, t - 1);
      } else {
        ExchangeLastDraw(cartes, order[1..], jeu, p, t - 1);
      }
    }
  }

  /**
   * No card is created: the new hand and the new deck together hold at
   * most the cards of the old hand and the old deck (the discarded cards
   * leave the game).
   */
  lemma {:induction false} ExchangeConserves(cartes: seq<Card>, order: seq<int>, jeu: seq<Card>)
    requires Draws(order, |cartes|) <= |jeu|
    ensures var (c, d) := Exchange(cartes, order, jeu);
      multiset(c) + multiset(d) <= multiset(cartes) + multiset(jeu)
    decreases |order|
  {
    if order != [] && 0 <= order[0] < |cartes| {
      var i := order[0];
      var top := jeu[|jeu| - 1];
      var next := cartes[i := top];
      var rest := jeu[..|jeu| - 1];
      ExchangeConserves(next, order[1..], rest);
      assert jeu == rest + [top];
      assert multiset(next) == multiset(cartes) - multiset{cartes[i]} + multiset{top};
    } else if order != [] {
      ExchangeConserves(cartes, order[1..], jeu);
    }
  }

  /** Exchanging nothing changes nothing. */
  lemma {:induction false} ExchangeNothing(cartes: seq<Card>, order: seq<int>, jeu: seq<Card>)
    requires forall k :: 0 <= k < |order| ==> !(0 <= order[k] < |cartes|)
    ensures Draws(order, |cartes|) == 0
    ensures Exchange(cartes, order, jeu) == (cartes, jeu)
    decreases |order|
  {
    if order != [] {
      ExchangeNothing(cartes, order[1..], jeu);
    }
  }

  /** When every position lies inside the hand, each one draws a card. */
  lemma {:induction false} DrawsInRange(order: seq<int>, size: nat)
    requires forall k :: 0 <= k < |order| ==> 0 <= order[k] < size
    ensures Draws(order, size) == |order|
    decreases |order|
  {
    if order != [] {
      DrawsInRange(order[1..], size);
    }
  }

  /** Drawing from the top leaves a part of the deck. */
  lemma {:induction false} DrawnDeckShrinks(jeu: seq<Card>, n: nat)
    requires n <= |jeu|
    ensures multiset(jeu[..|jeu| - n]) <= multiset(jeu)
  {
    assert jeu == jeu[..|jeu| - n] + jeu[|jeu| - n..];
  }
}
