/**
 * A round of five-card draw between the player and the computer (the
 * `JeuPoker` class).
 *
 * The game holds the deck, popped from its end, and the two hands, which
 * are absent until dealt or set. The computer's hand is dealt from the
 * deck; the player's hand is typed in by the player and never taken from
 * the deck. The random shuffle is a parameter: the caller supplies the
 * shuffled deck, which must be a permutation of the deck it replaces.
 */
module Game {
  import opened Wrappers
  import opened Cards
  import opened Sorting
  import opened Hands
  import opened Ranking
  import opened Deck
  import opened Strategy

  /** The three answers of `determiner_gagnant`. */
  datatype Winner = Player | Computer | Tie

  /** The text the program returns for each answer. */
  function WinnerName(w: Winner): string {
    match w
    case Player => "joueur"
    case Computer => "ordinateur"
    case Tie => "égalité"
  }

  /** The errors the game raises. */
  datatype GameError =
    | WrongHandSize(count: nat)  // "une main doit contenir exactement 5 cartes"
    | HandsMissing               // "les mains ne sont pas initialisées"

  /** How `determiner_gagnant` reads the result of `comparer_mains`: by its sign. */
  function Verdict(resultat: int): (w: Winner)
    ensures w == Player <==> resultat > 0
    ensures w == Computer <==> resultat < 0
    ensures w == Tie <==> resultat == 0
  {
    if resultat > 0 then Player
    else if resultat < 0 then Computer
    else Tie
  }

  /** The three answers read differently. */
  lemma {:induction false} WinnerNamesDistinct(a: Winner, b: Winner)
    requires a != b
    ensures WinnerName(a) != WinnerName(b)
  {
    assert WinnerName(a)[0] != WinnerName(b)[0];
  }

  /** Swapping the two hands swaps the winner and keeps a tie. */
  lemma {:induction false} VerdictSwaps(a: Hand, b: Hand)
    ensures Verdict(Compare(a, b)) == Player <==> Verdict(Compare(b, a)) == Computer
    ensures Verdict(Compare(a, b)) == Tie <==> Verdict(Compare(b, a)) == Tie
  {
    CompareAntisymmetric(a, b);
  }

  class PokerGame {
    /** `jeu`: the deck; its last card is the top. */
    var deck: seq<Card>
    /** `main_joueur` */
    var playerHand: Option<Hand>
    /** `main_ordi` */
    var computerHand: Option<Hand>

    /** The cards of the computer's hand, none before it is dealt. */
    function ComputerCards(): seq<Card>
      reads this
    {
      if computerHand.Some? then computerHand.value else []
    }

    /**
     * The deck and the computer's hand together hold cards of one fresh
     * deck, each at most once.
     */
    ghost predicate Dealt()
      reads this
    {
      multiset(deck) + multiset(ComputerCards()) <= multiset(NewDeck())
    }

    /** Where `Dealt` holds, no card is in the deck twice or in both the deck and the computer's hand. */
    lemma {:induction false} DealtHasNoRepeat()
      requires Dealt()
      ensures AtMostOnce(multiset(deck) + multiset(ComputerCards()))
    {
      WithinNewDeck(multiset(deck) + multiset(ComputerCards()));
    }

    /** `JeuPoker()`: a fresh, unshuffled deck and no hands. */
    constructor ()
      ensures deck == NewDeck()
      ensures playerHand == None && computerHand == None
      ensures Dealt()
    {
      deck := NewDeck();
      playerHand := None;
      computerHand := None;
    }

    /** `melanger`: the deck becomes `shuffled`, some permutation of it. */
    method Shuffle(shuffled: seq<Card>)
      requires multiset(shuffled) == multiset(deck)
      modifies this
      ensures deck == shuffled
      ensures playerHand == old(playerHand) && computerHand == old(computerHand)
    {
      deck := shuffled;
    }

    /** Pops five cards off the deck, in the order they come off. */
    method PopFive() returns (cartes: seq<Card>)
      requires |deck| >= 5
      modifies this
      ensures deck == old(deck)[..|old(deck)| - 5]
      ensures cartes == Reverse(old(deck)[|old(deck)| - 5..])
      ensures playerHand == old(playerHand) && computerHand == old(computerHand)
    {
      ghost var d := deck;
      cartes := [];
      for k := 0 to 5
        invariant deck == d[..|d| - k]
        invariant cartes == Reverse(d[|d| - k..])
        invariant playerHand == old(playerHand) && computerHand == old(computerHand)
      {
        ghost var rest := d[|d| - k - 1..];
        assert rest[0] == deck[|deck| - 1] && rest[1..] == d[|d| - k..];
        cartes := cartes + [deck[|deck| - 1]];
        deck := deck[..|deck| - 1];
      }
    }

    /**
     * `distribuer_main`: with fewer than five cards left, the deck is
     * first replaced by a fresh deck shuffled into `shuffled`. Then five
     * cards are popped from the top and made into a hand.
     */
    method DealHand(shuffled: seq<Card>) returns (main: Hand)
      requires |deck| < 5 ==> multiset(shuffled) == multiset(NewDeck())
      modifies this
      ensures var d := if |old(deck)| < 5 then shuffled else old(deck);
        && |d| >= 5
        && deck == d[..|d| - 5]
        && main == NewHand(Reverse(d[|d| - 5..])).value
        && multiset(main) + multiset(deck) == multiset(d)
      ensures |old(deck)| < 5 ==> |deck| == 47
      ensures playerHand == old(playerHand) && computerHand == old(computerHand)
    {
      if |deck| < 5 {
        deck := NewDeck();
        Shuffle(shuffled);
        assert |deck| == |multiset(deck)| == 52;
      }
      ghost var d := deck;
      var cartes := PopFive();
      main := NewHand(cartes).value;
      TopFive(d, main);
    }

    /** A hand holding the top five cards of `d`, in any order, and the rest of `d` make up `d`. */
    static lemma {:induction false} TopFive(d: seq<Card>, main: Hand)
      requires |d| >= 5 && multiset(main) == multiset(Reverse(d[|d| - 5..]))
      ensures multiset(main) + multiset(d[..|d| - 5]) == multiset(d)
    {
      ReversePermutes(d[|d| - 5..]);
      assert d == d[..|d| - 5] + d[|d| - 5..];
    }

    /**
     * `nouvelle_partie`: a fresh deck shuffled into `shuffled`, and the
     * computer's hand dealt from its top. The player's hand is kept.
     */
    method NewRound(shuffled: seq<Card>)
      requires |shuffled| == 52 && multiset(shuffled) == multiset(NewDeck())
      modifies this
      ensures |deck| == 47 && deck == shuffled[..47]
      ensures computerHand == Some(NewHand(Reverse(shuffled[47..])).value)
      ensures multiset(deck) + multiset(ComputerCards()) == multiset(NewDeck())
      ensures Dealt()
      ensures playerHand == old(playerHand)
    {
      deck := NewDeck();
      Shuffle(shuffled);
      NewDeckIsComplete();
      var main := DealHand(shuffled);
      computerHand := Some(main);
    }

    /**
     * `definir_main_joueur`: the player's hand becomes the given cards,
     * sorted; anything but five cards is refused.
     */
    method SetPlayerHand(cartes: seq<Card>) returns (r: Outcome<GameError>)
      modifies this
      ensures r.Fail? <==> |cartes| != 5
      ensures r.Fail? ==> r.error == WrongHandSize(|cartes|) && playerHand == old(playerHand)
      ensures r.Pass? ==> playerHand.Some? && playerHand.value == NewHand(cartes).value
      ensures r.Pass? ==> multiset(playerHand.value) == multiset(cartes)
      ensures deck == old(deck) && computerHand == old(computerHand)
    {
      var main := NewHand(cartes);
      if main.Err? {
        return Fail(WrongHandSize(|cartes|));
      }
      playerHand := Some(main.value);
      return Pass;
    }

    /**
     * The exchange loop shared by both players: for each position of
     * `ordre` inside the hand, `cartes.pop(i)` then
     * `cartes.insert(i, jeu.pop())`, which puts the top card of the deck
     * at position `i`.
     */
    method DrawInto(cartes: seq<Card>, ordre: seq<int>) returns (nouvelles: seq<Card>)
      requires Draws(ordre, |cartes|) <= |deck|
      modifies this
      ensures nouvelles == Exchange(cartes, ordre, old(deck)).0
      ensures deck == Exchange(cartes, ordre, old(deck)).1
      ensures playerHand == old(playerHand) && computerHand == old(computerHand)
    {
      nouvelles := cartes;
      for k := 0 to |ordre|
        invariant |nouvelles| == |cartes|
        invariant Draws(ordre[k..], |cartes|) <= |deck|
        invariant Exchange(nouvelles, ordre[k..], deck) == Exchange(cartes, ordre, old(deck))
        invariant playerHand == old(playerHand) && computerHand == old(computerHand)
      {
        var i := ordre[k];
        assert ordre[k..][0] == i && ordre[k..][1..] == ordre[k + 1..];
        if 0 <= i < |nouvelles| {
          nouvelles := nouvelles[i := deck[|deck| - 1]];
          deck := deck[..|deck| - 1];
        }
      }
      assert ordre[|ordre|..] == [];
    }

    /**
     * `echanger_cartes_joueur`: the positions `indices` of the player's
     * hand, highest first, are replaced by cards from the deck, which is
     * required to hold enough of them. A position given twice draws twice;
     * one outside the hand draws nothing. Without indices or without a
     * hand nothing happens.
     */
    method ExchangePlayerCards(indices: seq<int>)
      requires indices != [] && playerHand.Some? ==> Draws(indices, 5) <= |deck|
      modifies this
      ensures indices == [] || old(playerHand).None? ==> deck == old(deck) && playerHand == old(playerHand)
      ensures indices != [] && old(playerHand).Some? ==>
        var e := Exchange(old(playerHand).value, HighestFirst(indices), old(deck));
        deck == e.1 && playerHand == Some(NewHand(e.0).value)
      ensures computerHand == old(computerHand)
      ensures old(Dealt()) ==> Dealt()
    {
      if indices == [] || playerHand.None? {
        return;
      }
      ReplacePlayerCards(playerHand.value, HighestFirst(indices));
    }

    /** Replaces the cards of the player's hand at the positions `ordre`, in that order, and re-sorts the hand. */
    method ReplacePlayerCards(main: Hand, ordre: seq<int>)
      requires Draws(ordre, 5) <= |deck|
      modifies this
      ensures var e := Exchange(main, ordre, old(deck));
        deck == e.1 && playerHand == Some(NewHand(e.0).value)
      ensures computerHand == old(computerHand)
      ensures old(Dealt()) ==> Dealt()
    {
      ghost var d := deck;
      ghost var dealt := Dealt();
      var cartes := DrawInto(main, ordre);
      playerHand := Some(NewHand(cartes).value);
      if dealt {
        DrawnDeckShrinks(d, Draws(ordre, 5));
        SmallerDeckKeepsDealt(d, deck, ComputerCards());
      }
    }

    /** Taking cards off a deck keeps the deck and a hand within one fresh deck. */
    static lemma {:induction false} SmallerDeckKeepsDealt(jeu: seq<Card>, reste: seq<Card>, main: seq<Card>)
      requires multiset(reste) <= multiset(jeu)
      requires multiset(jeu) + multiset(main) <= multiset(NewDeck())
      ensures multiset(reste) + multiset(main) <= multiset(NewDeck())
    {
      forall c ensures (multiset(reste) + multiset(main))[c] <= multiset(NewDeck())[c] {
        assert (multiset(jeu) + multiset(main))[c] <= multiset(NewDeck())[c];
      }
    }

    /**
     * `echanger_cartes_ordi`: with a hand below a straight, the computer
     * replaces the cards its rule discards, highest position first, with
     * cards from the deck, which is required to hold enough of them. With a
     * straight or better, or without a hand, nothing happens.
     */
    method ExchangeComputerCards()
      requires computerHand.Some? ==> |ComputerDiscards(computerHand.value)| <= |deck|
      modifies this
      ensures old(computerHand).None? ==> deck == old(deck) && computerHand == None
      ensures old(computerHand).Some? ==>
        var main := old(computerHand).value;
        var e := Exchange(main, ComputerDiscards(main), old(deck));
        deck == e.1 && computerHand == Some(NewHand(e.0).value)
      ensures old(computerHand).Some? && Evaluate(old(computerHand).value).category >= STRAIGHT ==>
        deck == old(deck) && computerHand == old(computerHand)
      ensures playerHand == old(playerHand)
      ensures old(Dealt()) ==> Dealt()
    {
      if computerHand.None? {
        return;
      }
      var main := computerHand.value;
      var evalMain := Evaluate(main).category;
      if evalMain >= STRAIGHT {
        ExchangeNothing(main, [], deck);
        NewHandOfHand(main);
        return;
      }
      var ordre := ChooseDiscards(main, evalMain);
      assert ordre == ComputerDiscards(main);
      ReplaceComputerCards(main, ordre);
    }

    /** Replaces the cards of the computer's hand at the positions `ordre`, in that order, and re-sorts the hand. */
    method ReplaceComputerCards(main: Hand, ordre: seq<int>)
      requires computerHand == Some(main)
      requires Draws(ordre, 5) <= |deck|
      modifies this
      ensures var e := Exchange(main, ordre, old(deck));
        deck == e.1 && computerHand == Some(NewHand(e.0).value)
      ensures playerHand == old(playerHand)
      ensures old(Dealt()) ==> Dealt()
    {
      ghost var d := deck;
      ghost var dealt := Dealt();
      var cartes := DrawInto(main, ordre);
      computerHand := Some(NewHand(cartes).value);
      if dealt {
        ExchangeKeepsDealt(main, ordre, d);
      }
    }

    /** An exchange into the computer's hand keeps the deck and that hand within one fresh deck. */
    static lemma {:induction false} ExchangeKeepsDealt(main: Hand, ordre: seq<int>, jeu: seq<Card>)
      requires Draws(ordre, 5) <= |jeu|
      requires multiset(jeu) + multiset(main) <= multiset(NewDeck())
      ensures var e := Exchange(main, ordre, jeu);
        multiset(e.1) + multiset(NewHand(e.0).value) <= multiset(NewDeck())
    {
      ExchangeConserves(main, ordre, jeu);
      var e := Exchange(main, ordre, jeu);
      assert multiset(e.0) + multiset(e.1) <= multiset(main) + multiset(jeu);
      assert multiset(NewHand(e.0).value) == multiset(e.0);
      var m, n := multiset(e.1) + multiset(e.0), multiset(jeu) + multiset(main);
      forall c ensures m[c] <= n[c] {
        assert (multiset(e.0) + multiset(e.1))[c] <= (multiset(main) + multiset(jeu))[c];
      }
    }

    /**
     * `determiner_gagnant`: who wins by `comparer_mains`, the player's
     * hand first; an error while either hand is missing.
     */
    method DetermineWinner() returns (r: Result<Winner, GameError>)
      ensures r.Err? <==> playerHand.None? || computerHand.None?
      ensures r.Err? ==> r.error == HandsMissing
      ensures r.Ok? ==> r.value == Verdict(Compare(playerHand.value, computerHand.value))
    {
      if playerHand.None? || computerHand.None? {
        return Err(HandsMissing);
      }
      var resultat := CompareHands(playerHand.value, computerHand.value);
      if resultat > 0 {
        return Ok(Player);
      } else if resultat < 0 {
        return Ok(Computer);
      }
      return Ok(Tie);
    }
  }
}
