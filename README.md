# Five-card draw poker, modelled in Dafny

This project models the engine of a small French five-card-draw poker game
(`poker.py` and `jeu_poker.py`). The player plays against the computer.

- **Cards** (`Carte`): a rank from `RANGS` ("2" … "10", "Valet", "Dame",
  "Roi", "As") and a suit from `COULEURS`. A card's value is the index of
  its rank.
- **Hands** (`Main`): five cards sorted by value, highest first, by a
  stable sort. `evaluer` gives a category from 0 (high card) to 9 (royal
  flush) and a tie-break key.
  - The key comes from the card values, or from the value groups of
    `get_valeurs_par_groupes`: values counted in a dictionary, then sorted
    by count and then by value.
- **Ranking**: `comparer_mains` compares the categories, then walks the two
  keys together. `nom_combinaison` names a category.
- **The game** (`JeuPoker`):
  - a 52-card deck, built suit by suit, shuffled, and popped from its end;
  - the computer's hand, dealt from the deck;
  - the player's hand, typed in by the player and not taken from the deck;
  - one exchange for each side: the player names positions; the computer
    follows a fixed rule per category;
  - the verdict ("joueur", "ordinateur" or "égalité").
- **Card input** (`parser_carte`): reads a card either as "rank suit" or as
  a rank followed by a suit letter or symbol, with rank letters as aliases.

Modules, one per file:

- `wrappers.dfy` (`Wrappers`): Option / Result / Outcome, where the program
  raises `ValueError`.
- `cards.dfy` (`Cards`)
- `sorting.dfy` (`Sorting`): Python's stable `sorted(..., reverse=True, key=...)`
  and related facts.
- `groups.dfy` (`Grouping`): the counting dictionary and
  `get_valeurs_par_groupes`.
- `hands.dfy` (`Hands`)
- `ranking.dfy` (`Ranking`)
- `deck.dfy` (`Deck`): `creer_jeu` and the pop/insert exchange.
- `strategy.dfy` (`Strategy`): the computer's discard rule and its loops.
- `game.dfy` (`Game`): class `PokerGame`.
- `parser.dfy` (`CardParser`)

Points where the code's behaviour is easy to misread:

- A position named twice in an exchange draws twice; it is not ignored.
- The player's hand is never checked for duplicate cards and never comes
  from the deck. The "no duplicates" invariant therefore covers the deck
  and the computer's hand only (`PokerGame.Dealt`).
- In the suit-letter table, 'S' is listed for both Trèfle and Pique. The
  later entry wins, so 'S' reads as Pique.

## Model

| member | source | states |
|---|---|---|
| Cards.ValueOfRank | poker.py:5 | `VALEURS` lookup: defined exactly on the names in `RANGS`, and returns the index of the name, so `VALEURS` inverts `RANGS` |
| Cards.NewCard | poker.py:8-11 | `Carte(rang, couleur)` yields a card exactly when the rank is in `RANGS` and the suit in `COULEURS`; the card carries those two names |
| Cards.NewCardOfNames | poker.py:8-11 | building a card from its own rank name and suit name gives back the same card |
| Cards.Less | poker.py:20-21 | definition of `__lt__` (by value alone); see `Cards.OrderIgnoresSuit` and `Cards.LessIsStrictWeakOrder` |
| Cards.OrderIgnoresSuit | poker.py:20-26 | two cards of equal value: neither is below the other, and they are equal exactly when their suits agree |
| Cards.LessIsStrictWeakOrder | poker.py:20-21 | `__lt__` is irreflexive and transitive, and two cards are either ordered or of equal value |
| Sorting.SortDesc | poker.py:32 | the sorted hand is a permutation of the input, of the same length, and sorted by key, highest first |
| Sorting.SortDescIsStable | poker.py:32 | the sort is stable: cards with the same key keep their input order |
| Sorting.InsertWithKey | poker.py:32 | inserting a card into a sorted list puts it before every card already there with the same key |
| Sorting.SortDescOfSorted | poker.py:32 | sorting an already sorted sequence leaves it unchanged |
| Sorting.SortDescIdempotent | poker.py:32 | sorting twice is the same as sorting once |
| Sorting.SortedIntsUnique | jeu_poker.py:96 | two descending integer lists with the same elements are equal, so the final exchange order does not depend on dictionary order |
| Sorting.CountInRangeSorted | jeu_poker.py:43-44 | sorting the indices does not change how many of them fall inside the hand |
| Sorting.Reverse | jeu_poker.py:22-24 | the i-th card popped is the i-th card from the top of the deck |
| Sorting.ReversePermutes | jeu_poker.py:22-24 | the popped cards are exactly the top five cards of the deck |
| Grouping.FindBy | poker.py:67 | `dict.get` on the item list of a dictionary: the position of the first item with the key, or the list's length when no item has it (also the lookup of jeu_poker.py:66) |
| Grouping.Bump | poker.py:67 | definition of one step of the counting loop; see `Grouping.BumpTabulates` |
| Grouping.BumpTabulates | poker.py:67 | one step of the counting loop keeps the dictionary a true count table of the values seen so far |
| Grouping.Items | poker.py:65-67 | definition of the counting dictionary as its items in insertion order; see `Grouping.ItemsTabulate` |
| Grouping.Groups | poker.py:64-73 | definition of `get_valeurs_par_groupes` (count the values, then sort the items); see `Grouping.GroupsSpec` and `Hands.ValuesByGroup` |
| Grouping.ItemsTabulate | poker.py:65-67 | the counting dictionary holds one item per value present, with that value's number of occurrences, and counts summing to the hand size |
| Grouping.GroupsSpec | poker.py:64-73 | `get_valeurs_par_groupes` is a count table of the values, ordered by count and then by value, both highest first |
| Grouping.ShapeOfFive | poker.py:64-73 | the group counts of five values are one of the seven partitions of 5 |
| Grouping.CountInTable | poker.py:64-73 | some value occurs exactly n times iff some group has count n |
| Grouping.TwoCountsInTable | poker.py:64-73 | two different values occur n times each iff two groups have count n |
| Grouping.PartitionCases | poker.py:98-119 | on a partition of 5, each test on the first two group counts holds iff the matching multiplicities occur (four; three and two; three and no two; two twos; one two and nothing more) |
| Hands.NewHand | poker.py:29-32 | `Main(cartes)` fails with the card count unless there are exactly five cards; otherwise it holds the same cards, sorted |
| Hands.NewHandIsStable | poker.py:32 | cards of equal value keep the order in which they were given |
| Hands.NewHandOfHand | poker.py:32 | rebuilding a hand from its own cards gives the same hand |
| Hands.AscendingValues | poker.py:79 | the values, lowest first, hold the same values as the hand |
| Hands.MaxValue | poker.py:89 | the highest value of the hand |
| Hands.SameSuit | poker.py:75-76 | definition of `est_meme_couleur`; see `Hands.SameSuitRanksDiffer` and `Hands.SuitsOnlyDecideFlushes` |
| Hands.IsStraight | poker.py:78-83 | definition of `est_quinte`; see `Hands.StraightByValues` and `Hands.WheelEvaluation` |
| Hands.StraightValue | poker.py:85-89 | definition of `get_valeur_quinte`; see `Hands.StraightFlushEvaluation` and `Hands.WheelEvaluation` |
| Hands.IsStraightFlush | poker.py:91-92 | definition of `est_quinte_flush`; see `Hands.RoyalIsAceHighStraightFlush` and `Hands.StraightFlushEvaluation` |
| Hands.IsRoyalFlush | poker.py:94-96 | definition of `est_quinte_flush_royale`; see `Hands.RoyalIsAceHighStraightFlush` |
| Hands.IsFour | poker.py:98-100 | definition of `est_carre`; see `Hands.FourByMultiplicity` |
| Hands.IsFullHouse | poker.py:102-104 | definition of `est_full`; see `Hands.FullHouseByMultiplicity` |
| Hands.IsFlush | poker.py:106-107 | definition of `est_couleur`; see `Hands.SuitsOnlyDecideFlushes` and `Hands.DistinctCardsCategory` |
| Hands.IsThree | poker.py:109-111 | definition of `est_brelan`; see `Hands.ThreeByMultiplicity` |
| Hands.IsTwoPair | poker.py:113-115 | definition of `est_deux_paires`; see `Hands.TwoPairByMultiplicity` |
| Hands.IsPair | poker.py:117-119 | definition of `est_paire`; see `Hands.PairByMultiplicity` |
| Hands.Evaluate | poker.py:37-62 | the category is between 0 and 9, its test holds, and no higher category's test holds (the `elif` chain) |
| Hands.HandShape | poker.py:64-73 | a hand's group counts form a partition of 5 |
| Hands.FourByMultiplicity | poker.py:98-100 | `est_carre` iff some value occurs four times |
| Hands.FullHouseByMultiplicity | poker.py:102-104 | `est_full` iff some value occurs three times and another twice |
| Hands.ThreeByMultiplicity | poker.py:109-111 | `est_brelan` iff some value occurs three times and none twice |
| Hands.TwoPairByMultiplicity | poker.py:113-115 | `est_deux_paires` iff two different values occur twice each |
| Hands.PairByMultiplicity | poker.py:117-119 | `est_paire` iff some value occurs twice, none three times, and there is no second pair |
| Hands.StraightByValues | poker.py:78-83 | `est_quinte` iff the five values differ and either span exactly four steps or are A-2-3-4-5 |
| Hands.NoGroupTestWithoutRepeat | poker.py:98-119 | a hand whose values all differ passes none of the group tests |
| Hands.SameSuitRanksDiffer | poker.py:75-76 | five distinct cards of a single suit have five different values |
| Hands.RoyalIsAceHighStraightFlush | poker.py:91-96 | a royal flush is exactly a straight flush whose top value is the Ace |
| Hands.StraightFlushEvaluation | poker.py:38-41 | a straight flush evaluates as royal (empty key) when Ace-high, otherwise as category 8 keyed by its top value |
| Hands.WheelEvaluation | poker.py:78-89 | A-2-3-4-5 is a straight whose top value is 3 (the Five), keyed so whether or not it is suited |
| Hands.DistinctCardsCategory | poker.py:37-62 | for distinct cards, passing the pair, two-pair, three, flush, full-house or four test decides the category |
| Hands.SuitsOnlyDecideFlushes | poker.py:37-62 | hands with the same values that agree on being single-suited get the same category and key |
| Hands.GroupedKey | poker.py:42-60 | for the grouped categories the key is the list of group values, and its length is fixed by the category |
| Hands.GroupCountsFixSize | poker.py:98-119 | the first two group counts of each grouped category fix the number of groups (two, three or four) |
| Hands.ValuesKey | poker.py:48-62 | for a flush and a high card the key is the five values, highest first |
| Hands.StraightKey | poker.py:50-51 | an ordinary straight (category 4) is not single-suited and is keyed by its top value alone: 3 for A-2-3-4-5, otherwise the highest value (poker.py:85-89) |
| Hands.KeyLength | poker.py:37-62 | every category has a fixed key length (0, 1, 2, 3, 4 or 5) |
| Hands.ValuesByGroup | poker.py:64-73 | the two loops (count into a dictionary, then append the sorted items) produce the count table ordered by count and value |
| Ranking.CompareKeysIsLexicographic | poker.py:130-136 | the `zip` loop gives -1 or 1 exactly as one key is lexicographically below or above the other, and 0 iff the keys agree on their common length |
| Ranking.LexLessTail | poker.py:130-136 | with equal first elements, one key is below the other exactly when its tail is |
| Ranking.CompareKeys | poker.py:130-136 | definition of the `zip` loop over the two keys; see `Ranking.CompareKeysIsLexicographic` |
| Ranking.Compare | poker.py:121-136 | `comparer_mains` answers -1, 0 or 1; see `Ranking.HigherCategoryWins`, `Ranking.CompareKeysIsLexicographic`, `Ranking.CompareAntisymmetric`, `Ranking.CompareTransitive` and `Ranking.TieIffSameEvaluation` |
| Ranking.HigherCategoryWins | poker.py:125-128 | a better category wins whatever the keys |
| Ranking.CompareAntisymmetric | poker.py:121-136 | swapping the hands negates the result |
| Ranking.CompareReflexive | poker.py:121-136 | every hand ties with itself |
| Ranking.CompareTransitive | poker.py:121-136 | "at least as good as" is transitive |
| Ranking.TieIffSameEvaluation | poker.py:121-136 | two hands tie exactly when category and key are equal |
| Ranking.SuitsNeverBreakTies | poker.py:121-136 | hands with the same values that agree on being single-suited tie |
| Ranking.CompareHands | poker.py:121-136 | the loop with early returns computes the comparison, and returns 0 exactly when the evaluations are equal |
| Ranking.CategoryName | poker.py:138-151 | categories 0 to 9 get their names; any other number gets "Inconnu" |
| Ranking.CategoryNamesDistinct | poker.py:139-150 | no two categories share a name |
| Deck.NewDeckPosition | jeu_poker.py:11-12 | every card sits in the fresh deck at 13 × its suit's position + its value (suit-major, rank order) |
| Deck.NewDeck | jeu_poker.py:11-12 | `creer_jeu` gives 52 cards; see `Deck.NewDeckPosition` and `Deck.NewDeckIsComplete` |
| Deck.NewDeckIsComplete | jeu_poker.py:11-12 | the fresh deck has 52 cards, no duplicates, and every card exactly once |
| Deck.HighestFirst | jeu_poker.py:43 | the sorted indices are a descending permutation of the given ones, and draw as many cards |
| Deck.Exchange | jeu_poker.py:43-46 | the hand keeps its size and the deck loses exactly its top cards, one per in-range position |
| Deck.ExchangeKeeps | jeu_poker.py:43-46 | a position not named keeps its card |
| Deck.ExchangeDraws | jeu_poker.py:43-46 | a named position ends up holding one of the cards taken from the top of the deck |
| Deck.ExchangeLastDraw | jeu_poker.py:43-46 | a position last named at entry t of the order ends up with the card then on top of the deck: the deck less the cards drawn by the entries before t |
| Deck.ExchangeConserves | jeu_poker.py:43-46 | no card is created: new hand plus new deck is contained in old hand plus old deck |
| Deck.ExchangeNothing | jeu_poker.py:43-44 | indices all outside the hand draw nothing and change nothing |
| Deck.DrawsInRange | jeu_poker.py:96-98 | when every position is inside the hand, each one draws one card |
| Strategy.DiscardOrderSpec | jeu_poker.py:61-96 | the computer exchanges exactly the positions its rule selects, in strictly decreasing order, each once |
| Strategy.Discards | jeu_poker.py:61-94 | definition of the rule: for three of a kind, two pair and one pair, whether the card's value occurs as the rule wants (not three times, or once); otherwise whether it is below 10; see `Strategy.DiscardOrderSpec` |
| Strategy.DiscardOrder | jeu_poker.py:61-96 | definition of the discarded positions, highest first; see `Strategy.DiscardOrderSpec` and `Strategy.ChooseDiscards` |
| Strategy.ThreeDiscardsTwo | jeu_poker.py:63-71 | three of a kind: exactly two cards go, and the three kept cards share one value |
| Strategy.TripleDiscards | jeu_poker.py:63-71 | with a value held three times, exactly the two cards of other values are exchanged |
| Strategy.TwoPairDiscardsOne | jeu_poker.py:73-80 | two pair: exactly one card goes, the one whose value is unpaired |
| Strategy.TwoPairsDiscard | jeu_poker.py:73-80 | with two values held twice each, exactly the one card held once is exchanged |
| Strategy.PairDiscardsThree | jeu_poker.py:82-89 | one pair: exactly three cards go, those whose value occurs once |
| Strategy.OnePairDiscards | jeu_poker.py:82-89 | with one value held twice and no triple or second pair, exactly the three single cards are exchanged |
| Strategy.HighCardDiscardsLow | jeu_poker.py:91-94 | high card: exactly the cards of value below 10 go |
| Strategy.ComputerDiscards | jeu_poker.py:55-61 | the computer's exchange positions are all inside the hand and each draws one card; from a straight up there are none |
| Strategy.PositionsOfValueSpec | jeu_poker.py:64-66 | the positions recorded for a value are exactly the positions holding it, each once, one per occurrence |
| Strategy.PositionsByValue | jeu_poker.py:64-66 | the loop builds a dictionary mapping each value in the hand to its positions |
| Strategy.SelectPositions | jeu_poker.py:68-71 | the loop over the dictionary collects exactly the positions the rule discards, each once |
| Strategy.LowCards | jeu_poker.py:91-94 | the loop collects exactly the positions of cards valued below 10, each once |
| Strategy.ChooseDiscards | jeu_poker.py:61-96 | the positions chosen and sorted by the program are the rule's positions, highest first |
| Game.Verdict | jeu_poker.py:108-113 | "joueur", "ordinateur" and "égalité" exactly when the comparison is positive, negative or zero |
| Game.WinnerName | jeu_poker.py:108-113 | the string returned for each winner; see `Game.WinnerNamesDistinct` and `Game.Verdict` |
| Game.WinnerNamesDistinct | jeu_poker.py:109-113 | the three answers are different strings |
| Game.VerdictSwaps | jeu_poker.py:102-113 | swapping the hands swaps the winner and keeps a tie |
| Game.PokerGame.DealtHasNoRepeat | jeu_poker.py:28-31 | while the deal invariant holds, no card is twice in the deck and computer's hand together |
| Game.PokerGame.constructor | jeu_poker.py:6-9 | a fresh, unshuffled deck and no hands |
| Game.PokerGame.Shuffle | jeu_poker.py:14-15 | the deck becomes the given permutation of itself |
| Game.PokerGame.PopFive | jeu_poker.py:22-24 | the five pops take the top five cards, in the order they come off, and leave the rest of the deck |
| Game.PokerGame.TopFive | jeu_poker.py:22-26 | a hand made of the top five cards, in any order, and the rest of the deck together are the whole deck |
| Game.PokerGame.DealHand | jeu_poker.py:17-26 | a deck below five cards is first replaced by a fresh shuffled one; the hand is the top five cards, sorted, and hand plus remaining deck is the deck dealt from |
| Game.PokerGame.NewRound | jeu_poker.py:28-31 | 47 cards stay in the deck; the computer's hand is the other five; together they are exactly the 52-card deck |
| Game.PokerGame.SetPlayerHand | jeu_poker.py:33-36 | anything but five cards is refused, leaving the hand unchanged; otherwise the player's hand is those cards, sorted |
| Game.PokerGame.DrawInto | jeu_poker.py:43-46 | the pop/insert loop computes the exchange: new hand and new deck |
| Game.PokerGame.ExchangePlayerCards | jeu_poker.py:38-48 | no indices or no hand: nothing changes; otherwise the hand and deck are the exchange at the indices sorted highest first, hand re-sorted; the computer's hand and the deal invariant are kept |
| Game.PokerGame.ReplacePlayerCards | jeu_poker.py:43-48 | the player's hand and the deck become the exchange at the given positions, hand re-sorted; the computer's hand and the deal invariant are kept |
| Game.PokerGame.ExchangeComputerCards | jeu_poker.py:50-100 | the computer's hand and the deck become the exchange at the rule's positions; from a straight up the hand and the deck are left unchanged; the deal invariant is kept |
| Game.PokerGame.ReplaceComputerCards | jeu_poker.py:96-100 | the computer's hand and the deck become the exchange at the given positions, hand re-sorted; the player's hand is kept and the deal invariant preserved |
| Game.PokerGame.ExchangeKeepsDealt | jeu_poker.py:96-100 | an exchange into the computer's hand keeps deck and hand inside one fresh deck |
| Game.PokerGame.DetermineWinner | jeu_poker.py:102-113 | an error exactly when a hand is missing; otherwise the verdict of comparing the player's hand with the computer's |
| CardParser.StripStart | jeu_poker.py:138 | removes exactly the leading whitespace |
| CardParser.StripEnd | jeu_poker.py:138 | removes exactly the trailing whitespace |
| CardParser.Strip | jeu_poker.py:138 | `str.strip()`: a contiguous slice of the text that neither starts nor ends with whitespace, and empty for all-whitespace text; see `CardParser.StripOfPadded` for what it removes |
| CardParser.StripOfPadded | jeu_poker.py:138 | stripping text padded with whitespace on both sides gives back the text, when the text itself neither starts nor ends with whitespace |
| CardParser.Split | jeu_poker.py:140 | every word is non-empty and free of whitespace |
| CardParser.SplitKeepsText | jeu_poker.py:140 | the words put back together are the text with its whitespace removed |
| CardParser.ShortTextSplit | jeu_poker.py:140-145 | text shorter than two characters never splits into two words |
| CardParser.SplitOfTwoWords | jeu_poker.py:140-142 | two words separated by whitespace split into those two words |
| CardParser.SplitOfWordThenRest | jeu_poker.py:140 | a word followed by whitespace splits into that word followed by the split of what comes after the whitespace |
| CardParser.SplitOfThreeWords | jeu_poker.py:140-141 | three words separated by whitespace split into exactly those three words, never two |
| CardParser.ParseNotTwoWords | jeu_poker.py:140-159 | stripped text of at least two characters that does not split into two words is read as rank text plus a final suit letter, and refused when that letter is no suit |
| CardParser.ParseThreeWords | jeu_poker.py:137-159 | three words are read by their last character as suit letter, with everything before it as rank text |
| CardParser.LastMatchAt | jeu_poker.py:149-157 | a dictionary literal maps a key to the value of its last entry |
| CardParser.SuitOfLetter | jeu_poker.py:149-157 | every suit abbreviation stands for a suit name of `COULEURS` |
| CardParser.Alias | jeu_poker.py:161-168 | text that is not a rank letter is returned unchanged; see `CardParser.AliasesAreRanks` and `CardParser.AliasKeepsRankNames` |
| CardParser.LetterSIsPique | jeu_poker.py:152-153 | 'S' reads as Pique |
| CardParser.AliasKeepsRankNames | jeu_poker.py:161-168 | full rank names are left unchanged by the aliases |
| CardParser.AliasesAreRanks | jeu_poker.py:161-168 | each rank letter (A, J, V, Q, D, K, R) becomes its rank name from `RANGS` |
| CardParser.AliasOfOtherText | jeu_poker.py:167-168 | any text other than a rank letter is left unchanged |
| CardParser.Pieces | jeu_poker.py:140-159 | the two-word form or the abbreviation form; failure only for too-short text or an unknown suit letter; an abbreviated suit is always valid |
| CardParser.ParseCard | jeu_poker.py:137-176 | a result is always a valid card; each error names its cause (too short, unknown letter, rank outside `RANGS`, suit name outside `COULEURS`, the last only in the two-word form) |
| CardParser.Validate | jeu_poker.py:170-176 | accepts exactly a rank in `RANGS` with a suit in `COULEURS`; an invalid rank is reported as `BadRank` whatever the suit, and only a valid rank with an invalid suit as `BadSuit` |
| CardParser.ShortTextRefused | jeu_poker.py:144-145 | text that strips to fewer than two characters is refused as malformed |
| CardParser.ParseTwoWords | jeu_poker.py:140-176 | "rank suit", with any whitespace around and between, reads as the aliased rank and the suit, or is refused for the rank first and then the suit |
| CardParser.ParseAbbreviated | jeu_poker.py:143-176 | a single word reads as rank plus suit letter: an unknown letter, then an unknown rank, is refused |
| CardParser.ParseCardOfNames | jeu_poker.py:137-176 | every card written "rank suit" reads back as the same card |
| CardParser.SuitLetter | jeu_poker.py:149-154 | each suit has a letter that reads back as that suit |
| CardParser.ParseCardOfAbbreviation | jeu_poker.py:137-176 | every card written as rank name plus suit letter reads back as the same card |
| CardParser.NotARankName | jeu_poker.py:170-171 | text not starting like a rank name is not in `RANGS` |
| CardParser.NotASuitName | jeu_poker.py:173-174 | text not starting with C, T or P is not in `COULEURS` |
| CardParser.ExampleFullNames | test_poker.py:243-245 | "As Coeur" reads as ("As", "Coeur") |
| CardParser.ExampleRankLetter | test_poker.py:255-257 | "A Pique" reads as ("As", "Pique") |
| CardParser.ExampleLetterK | test_poker.py:259-261 | "K Trèfle" reads as ("Roi", "Trèfle") |
| CardParser.ExamplePadded | test_poker.py:263-265 | "  Dame  Carreau  " reads as ("Dame", "Carreau") |
| CardParser.ExampleSuitLetter | test_poker.py:247-249 | "10C" reads as ("10", "Coeur") |
| CardParser.ExampleSuitSymbol | test_poker.py:251-253 | "V♠" reads as ("Valet", "Pique") |
| CardParser.ExampleEmpty | test_poker.py:268-269 | "" is refused as malformed |
| CardParser.ExampleUnknownLetter | jeu_poker.py:156-159 | "10X" is refused for its unknown suit letter |
| CardParser.ExampleUnknownRank | test_poker.py:271-272 | "Z Coeur" is refused for its rank |
| CardParser.ExampleUnknownSuitName | test_poker.py:274-275 | "As Jaune" is refused for its suit |

## Left out

- Randomness: `melanger` calls `random.shuffle`. The model takes the shuffled deck as a parameter and requires only that it is a permutation of the deck. Uniformity is not modelled.
- Console I/O: `saisir_carte`, `jouer`, `afficher_main` and `afficher_resultat` (input loops, retries and printing), and the `__main__` demo in `poker.py`.
- Display: `Carte.__str__`/`__repr__` and `Main.__str__`, which only format text.
- Cards.NewCard: `Carte` accepts any suit string; the model's suits are the four of `COULEURS`. Every card the program builds comes from the deck or from `parser_carte`, which checks the suit.
- Game.PokerGame.ExchangePlayerCards and Game.PokerGame.ExchangeComputerCards require the deck to hold enough cards. The program would fail with `IndexError` on an empty deck; that failure is not modelled.
- Game.PokerGame.DealHand: the invariant that deck and computer's hand fit in one deck (`Dealt`) is not claimed here. The reset branch can break it while an old computer hand is still held; `nouvelle_partie` never reaches that case.
- Game.PokerGame.DetermineWinner: "a hand is missing" is `None`. A `Main` is always truthy because it defines neither `__len__` nor `__bool__`.
- Ranking.SuitsNeverBreakTies: stated only for hands that agree on being single-suited. A flush and a non-flush with the same values do not tie, so no stronger claim holds.
- CardParser.IsSpace: covers the characters Python's `str.isspace` accepts. Unicode normalisation and case folding are not involved, since the program does neither.
- Hand size: `Main` is modelled as a type of exactly five cards. `Main` with another count is the error value of Hands.NewHand.
