/**
 * Cards of the 52-card French deck (the `Carte` class).
 *
 * A card is a rank and a suit. The rank is kept as its value, the index of
 * its name in `RANGS` (2 is 0, Ace is 12): the rank name is always
 * `RANGS[value]`, since the value is looked up from the name through
 * `VALEURS`, the inverse of `RANGS`.
 */
module Cards {
  import opened Wrappers

  /** Rank names, lowest first. */
  const RANGS: seq<string> :=
    ["2", "3", "4", "5", "6", "7", "8", "9", "10", "Valet", "Dame", "Roi", "As"]

  /** A rank value: the position of the rank name in `RANGS`. */
  type Value = v: int | 0 <= v < 13

  datatype Suit = Coeur | Carreau | Trefle | Pique

  /** The four suits in the order the deck is built. */
  const SUITS: seq<Suit> := [Coeur, Carreau, Trefle, Pique]

  function SuitName(s: Suit): string {
    match s
    case Coeur => "Coeur"
    case Carreau => "Carreau"
    case Trefle => "Trèfle"
    case Pique => "Pique"
  }

  /** Suit names, in deck order. */
  const COULEURS: seq<string> := ["Coeur", "Carreau", "Trèfle", "Pique"]

  datatype Card = Card(value: Value, suit: Suit)

  /** The rank name of a card (the `rang` attribute). */
  function RankName(c: Card): string {
    RANGS[c.value]
  }

  /** `VALEURS[rang]`: the value of a rank name, `None` where the lookup fails. */
  function ValueOfRank(rang: string): (r: Option<Value>)
    ensures r.Some? <==> rang in RANGS
    ensures r.Some? ==> RANGS[r.value] == rang
  {
    IndexOf(RANGS, rang, 0)
  }

  function IndexOf(names: seq<string>, name: string, from: nat): (r: Option<Value>)
    requires |names| == 13 && from <= 13
    ensures r.Some? <==> name in names[from..]
    ensures r.Some? ==> from <= r.value && names[r.value] == name
    decreases 13 - from
  {
    if from == 13 then None
    else if names[from] == name then Some(from)
    else IndexOf(names, name, from + 1)
  }

  /** The suit with the given name, `None` for a name outside `COULEURS`. */
  function SuitOfName(couleur: string): (r: Option<Suit>)
    ensures r.Some? <==> couleur in COULEURS
    ensures r.Some? ==> SuitName(r.value) == couleur
  {
    if couleur == "Coeur" then Some(Coeur)
    else if couleur == "Carreau" then Some(Carreau)
    else if couleur == "Trèfle" then Some(Trefle)
    else if couleur == "Pique" then Some(Pique)
    else None
  }

  /** `Carte(rang, couleur)`: fails on a rank name outside `RANGS`. */
  function NewCard(rang: string, couleur: string): (r: Option<Card>)
    ensures r.Some? <==> rang in RANGS && couleur in COULEURS
    ensures r.Some? ==> RankName(r.value) == rang && SuitName(r.value.suit) == couleur
  {
    match (ValueOfRank(rang), SuitOfName(couleur))
    case (Some(v), Some(s)) => Some(Card(v, s))
    case _ => None
  }

  /** Building a card from its own rank and suit names gives the card back. */
  lemma {:induction false} NewCardOfNames(c: Card)
    ensures NewCard(RankName(c), SuitName(c.suit)) == Some(c)
  {
    IndexOfRank(c.value, 0);
    assert ValueOfRank(RankName(c)) == Some(c.value);
    assert SuitOfName(SuitName(c.suit)) == Some(c.suit) by {
      match c.suit
      case Coeur =>
      case Carreau =>
      case Trefle =>
      case Pique =>
    }
  }

  /** Rank names are pairwise distinct, so the lookup finds the rank's own position. */
  lemma {:induction false} IndexOfRank(v: Value, from: nat)
    requires from <= v
    ensures IndexOf(RANGS, RANGS[v], from) == Some(v)
    decreases 13 - from
  {
    if from < v {
      RankCodeOfName(from);
      RankCodeOfName(v);
      IndexOfRank(v, from + 1);
    }
  }

  /** Tells rank names apart by their length and first character. */
  function RankCode(rang: string): int {
    if rang == [] then -1
    else if |rang| == 1 then rang[0] as int - '2' as int
    else if rang[0] == '1' then 8
    else if rang[0] == 'V' then 9
    else if rang[0] == 'D' then 10
    else if rang[0] == 'R' then 11
    else 12
  }

  /** Each rank name decodes to its own value, so no two rank names are equal. */
  lemma {:induction false} RankCodeOfName(v: Value)
    ensures RankCode(RANGS[v]) == v
  {
    if v < 8 {
      assert RANGS[v] == [('2' as int + v) as char];
    }
  }

  /** `Carte.__lt__`: cards are ordered by value alone. */
  predicate Less(a: Card, b: Card) {
    a.value < b.value
  }

  /**
   * Equality of cards (`Carte.__eq__`) needs the same value and the same
   * suit, while the order ignores suits: two cards of one rank and
   * different suits are unequal, yet neither is below the other.
   */
  lemma {:induction false} OrderIgnoresSuit(a: Card, b: Card)
    requires a.value == b.value
    ensures !Less(a, b) && !Less(b, a)
    ensures a == b <==> a.suit == b.suit
  {
  }

  /** The order on cards is a strict weak order: irreflexive, transitive, total up to equal values. */
  lemma {:induction false} LessIsStrictWeakOrder(a: Card, b: Card, c: Card)
    ensures !Less(a, a)
    ensures Less(a, b) && Less(b, c) ==> Less(a, c)
    ensures Less(a, b) || Less(b, a) || a.value == b.value
  {
  }
}
