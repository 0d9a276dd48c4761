/**
 * Reading a card typed by the player (`parser_carte`).
 *
 * The text is stripped of surrounding whitespace. Two whitespace-separated
 * words are read as a rank name and a suit name. Anything else is read as
 * a rank followed by a one-character suit abbreviation. Rank letters are
 * then turned into rank names, and both names are checked against `RANGS`
 * and `COULEURS`. Whitespace is what Python's `str.strip` and `str.split`
 * treat as such.
 */
module CardParser {
  import opened Wrappers
  import opened Cards

  /** The characters Python's `str.isspace` accepts. */
  predicate IsSpace(c: char) {
    || c == ' ' || '\t' <= c <= '\r' || '\U{1c}' <= c <= '\U{1f}'
    || c == '\U{85}' || c == '\U{a0}' || c == '\U{1680}'
    || '\U{2000}' <= c <= '\U{200a}' || c == '\U{2028}' || c == '\U{2029}'
    || c == '\U{202f}' || c == '\U{205f}' || c == '\U{3000}'
  }

  /** A string made of whitespace only. */
  predicate AllSpace(s: string) {
    forall i :: 0 <= i < |s| ==> IsSpace(s[i])
  }

  /** A non-empty string without whitespace: what `split()` produces. */
  predicate Word(w: string) {
    w != [] && forall i :: 0 <= i < |w| ==> !IsSpace(w[i])
  }

  /** The number of whitespace characters that start `s`. */
  function LeadingSpaces(s: string): (n: nat)
    ensures n <= |s|
    ensures forall i :: 0 <= i < n ==> IsSpace(s[i])
    ensures n == |s| || !IsSpace(s[n])
  {
    if s == [] || !IsSpace(s[0]) then 0 else 1 + LeadingSpaces(s[1..])
  }

  /** The number of whitespace characters that end `s`. */
  function TrailingSpaces(s: string): (n: nat)
    ensures n <= |s|
    ensures forall i :: |s| - n <= i < |s| ==> IsSpace(s[i])
    ensures n == |s| || !IsSpace(s[|s| - n - 1])
  {
    if s == [] || !IsSpace(s[|s| - 1]) then 0 else 1 + TrailingSpaces(s[..|s| - 1])
  }

  /** `str.lstrip()`: the longest suffix that does not start with whitespace. */
  function StripStart(s: string): (r: string)
    ensures |r| <= |s| && r == s[|s| - |r|..]
    ensures AllSpace(s[..|s| - |r|])
    ensures r == [] || !IsSpace(r[0])
  {
    s[LeadingSpaces(s)..]
  }

  /** `str.rstrip()`: the longest prefix that does not end with whitespace. */
  function StripEnd(s: string): (r: string)
    ensures |r| <= |s| && r == s[..|r|]
    ensures AllSpace(s[|r|..])
    ensures r == [] || !IsSpace(r[|r| - 1])
  {
    s[..|s| - TrailingSpaces(s)]
  }

  /** `str.strip()` */
  function Strip(s: string): (r: string)
    ensures |r| <= |s|
    ensures exists i :: 0 <= i <= |s| && r <= s[i..]
    ensures r == [] || (!IsSpace(r[0]) && !IsSpace(r[|r| - 1]))
    ensures AllSpace(s) ==> r == []
  {
    var u := StripStart(s);
    var r := StripEnd(u);
    var i := |s| - |u|;
    assert r <= s[i..];
    assert r != [] ==> r[0] == u[0] == s[i];
    r
  }

  /** Length of the run of non-whitespace characters that starts `s`. */
  function WordEnd(s: string): (n: nat)
    ensures n <= |s|
    ensures forall i :: 0 <= i < n ==> !IsSpace(s[i])
    ensures n == |s| || IsSpace(s[n])
  {
    if s == [] || IsSpace(s[0]) then 0 else 1 + WordEnd(s[1..])
  }

  /** `str.split()`: the maximal runs of non-whitespace characters, in order. */
  function Split(s: string): (words: seq<string>)
    ensures forall k :: 0 <= k < |words| ==> Word(words[k])
    decreases |s|
  {
    var t := StripStart(s);
    if t == [] then []
    else
      var n := WordEnd(t);
      assert !IsSpace(t[0]) && 0 < n;
      WordsCons(t[..n], Split(t[n..]));
      [t[..n]] + Split(t[n..])
  }

  /** A word put in front of a list of words gives a list of words. */
  lemma {:induction false} WordsCons(w: string, rest: seq<string>)
    requires Word(w) && forall k :: 0 <= k < |rest| ==> Word(rest[k])
    ensures forall k :: 0 <= k < |rest| + 1 ==> Word(([w] + rest)[k])
  {
    forall k | 0 <= k < |rest| + 1 ensures Word(([w] + rest)[k]) {
      if k > 0 {
        assert ([w] + rest)[k] == rest[k - 1];
      }
    }
  }

  /** The words laid end to end. */
  function Concat(words: seq<string>): string {
    if words == [] then [] else words[0] + Concat(words[1..])
  }

  /** The text with its whitespace removed. */
  function NonSpace(s: string): string {
    if s == [] then []
    else (if IsSpace(s[0]) then [] else [s[0]]) + NonSpace(s[1..])
  }

  lemma {:induction false} NonSpaceAppend(a: string, b: string)
    ensures NonSpace(a + b) == NonSpace(a) + NonSpace(b)
  {
    if a != [] {
      assert (a + b)[1..] == a[1..] + b;
      NonSpaceAppend(a[1..], b);
    } else {
      assert a + b == b;
    }
  }

  lemma {:induction false} NonSpaceOfSpaces(s: string)
    requires AllSpace(s)
    ensures NonSpace(s) == []
  {
    if s != [] {
      NonSpaceOfSpaces(s[1..]);
    }
  }

  lemma {:induction false} NonSpaceOfWord(s: string)
    requires forall i :: 0 <= i < |s| ==> !IsSpace(s[i])
    ensures NonSpace(s) == s
  {
    if s != [] {
      NonSpaceOfWord(s[1..]);
      assert s == [s[0]] + s[1..];
    }
  }

  /** Leading whitespace holds no text. */
  lemma {:induction false} NonSpaceOfStripped(s: string)
    ensures NonSpace(s) == NonSpace(StripStart(s))
  {
    var t := StripStart(s);
    var lead := s[..|s| - |t|];
    assert s == lead + t;
    NonSpaceAppend(lead, t);
    NonSpaceOfSpaces(lead);
  }

  lemma {:induction false} ConcatCons(w: string, words: seq<string>)
    ensures Concat([w] + words) == w + Concat(words)
  {
    assert ([w] + words)[1..] == words;
  }

  /** Splitting loses only whitespace: the words put back together are the text without its whitespace. */
  lemma {:induction false} SplitKeepsText(s: string)
    ensures Concat(Split(s)) == NonSpace(s)
    decreases |s|
  {
    var t := StripStart(s);
    NonSpaceOfStripped(s);
    if t != [] {
      var n := WordEnd(t);
      assert t == t[..n] + t[n..];
      NonSpaceAppend(t[..n], t[n..]);
      NonSpaceOfWord(t[..n]);
      SplitKeepsText(t[n..]);
      ConcatCons(t[..n], Split(t[n..]));
    }
  }

  lemma {:induction false} NonSpaceLength(s: string)
    ensures |NonSpace(s)| <= |s|
  {
    if s != [] {
      NonSpaceLength(s[1..]);
    }
  }

  lemma {:induction false} ConcatLength(words: seq<string>)
    requires forall k :: 0 <= k < |words| ==> Word(words[k])
    ensures |Concat(words)| >= |words|
  {
    if words != [] {
      ConcatLength(words[1..]);
    }
  }

  /** A text of fewer than two characters splits into fewer than two words. */
  lemma {:induction false} ShortTextSplit(s: string)
    requires |s| < 2
    ensures |Split(s)| < 2
  {
    SplitKeepsText(s);
    NonSpaceLength(s);
    ConcatLength(Split(s));
  }

  lemma {:induction false} LeadingSpacesOfPadded(lead: string, t: string)
    requires AllSpace(lead) && (t == [] || !IsSpace(t[0]))
    ensures LeadingSpaces(lead + t) == |lead|
    decreases |lead|
  {
    if lead == [] {
      assert lead + t == t;
    } else {
      assert (lead + t)[1..] == lead[1..] + t;
      assert AllSpace(lead[1..]) by {
        forall i | 0 <= i < |lead| - 1 ensures IsSpace(lead[1..][i]) {
          assert lead[1..][i] == lead[i + 1];
        }
      }
      LeadingSpacesOfPadded(lead[1..], t);
    }
  }

  lemma {:induction false} TrailingSpacesOfPadded(t: string, trail: string)
    requires AllSpace(trail) && (t == [] || !IsSpace(t[|t| - 1]))
    ensures TrailingSpaces(t + trail) == |trail|
    decreases |trail|
  {
    if trail == [] {
      assert t + trail == t;
    } else {
      var s := t + trail;
      var rest := trail[..|trail| - 1];
      assert s[..|s| - 1] == t + rest;
      assert AllSpace(rest) by {
        forall i | 0 <= i < |rest| ensures IsSpace(rest[i]) {
          assert rest[i] == trail[i];
        }
      }
      assert s[|s| - 1] == trail[|trail| - 1];
      TrailingSpacesOfPadded(t, rest);
    }
  }

  lemma {:induction false} StripStartOfSpaces(lead: string, t: string)
    requires AllSpace(lead) && (t == [] || !IsSpace(t[0]))
    ensures StripStart(lead + t) == t
  {
    LeadingSpacesOfPadded(lead, t);
    assert (lead + t)[|lead|..] == t;
  }

  lemma {:induction false} StripEndOfSpaces(t: string, trail: string)
    requires AllSpace(trail) && (t == [] || !IsSpace(t[|t| - 1]))
    ensures StripEnd(t + trail) == t
  {
    TrailingSpacesOfPadded(t, trail);
    assert (t + trail)[..|t|] == t;
  }

  /** Stripping removes exactly the whitespace around a text that neither starts nor ends with whitespace. */
  lemma {:induction false} StripOfPadded(lead: string, t: string, trail: string)
    requires AllSpace(lead) && AllSpace(trail)
    requires t != [] && !IsSpace(t[0]) && !IsSpace(t[|t| - 1])
    ensures Strip(lead + t + trail) == t
  {
    assert lead + t + trail == lead + (t + trail);
    StripStartOfSpaces(lead, t + trail);
    StripEndOfSpaces(t, trail);
  }

  lemma {:induction false} WordEndOfWord(w: string, rest: string)
    requires Word(w) && (rest == [] || IsSpace(rest[0]))
    ensures WordEnd(w + rest) == |w|
    decreases |w|
  {
    if |w| > 1 {
      assert (w + rest)[1..] == w[1..] + rest;
      WordEndOfWord(w[1..], rest);
    } else {
      assert (w + rest)[1..] == rest;
    }
  }

  /** A word followed by whitespace or nothing is split off as the first word. */
  lemma {:induction false} SplitOfLeadingWord(w: string, rest: string)
    requires Word(w) && (rest == [] || IsSpace(rest[0]))
    ensures Split(w + rest) == [w] + Split(rest)
  {
    var s := w + rest;
    StripStartOfSpaces([], s);
    assert [] + s == s;
    WordEndOfWord(w, rest);
    assert s[..|w|] == w && s[|w|..] == rest;
  }

  /** A word splits into itself. */
  lemma {:induction false} SplitOfWord(w: string)
    requires Word(w)
    ensures Split(w) == [w]
  {
    SplitOfLeadingWord(w, []);
    assert w + [] == w;
  }

  /** Leading whitespace does not change the words. */
  lemma {:induction false} SplitSkipsSpaces(lead: string, t: string)
    requires AllSpace(lead) && (t == [] || !IsSpace(t[0]))
    ensures Split(lead + t) == Split(t)
  {
    StripStartOfSpaces(lead, t);
    StripStartOfSpaces([], t);
    assert [] + t == t;
  }

  /** Two words with whitespace between them split into those two words. */
  lemma {:induction false} SplitOfTwoWords(x: string, gap: string, y: string)
    requires Word(x) && Word(y) && gap != [] && AllSpace(gap)
    ensures Split(x + gap + y) == [x, y]
  {
    var rest := gap + y;
    assert x + gap + y == x + rest;
    SplitOfLeadingWord(x, rest);
    SplitSkipsSpaces(gap, y);
    SplitOfWord(y);
    assert Split(x + rest) == [x] + Split(rest);
    PairOfSingletons(x, y);
  }

  /**
   * A word followed by whitespace is the first word, whatever follows: in
   * particular three words or more never split into two.
   */
  lemma {:induction false} SplitOfWordThenRest(x: string, gap: string, rest: string)
    requires Word(x) && gap != [] && AllSpace(gap)
    requires rest == [] || !IsSpace(rest[0])
    ensures Split(x + gap + rest) == [x] + Split(rest)
  {
    assert x + gap + rest == x + (gap + rest);
    SplitOfLeadingWord(x, gap + rest);
    SplitSkipsSpaces(gap, rest);
  }

  /** Three words with whitespace between them split into those three words. */
  lemma {:induction false} SplitOfThreeWords(x: string, g1: string, y: string, g2: string, z: string)
    requires Word(x) && Word(y) && Word(z)
    requires g1 != [] && AllSpace(g1) && g2 != [] && AllSpace(g2)
    ensures Split(x + g1 + (y + g2 + z)) == [x, y, z]
  {
    var rest := y + g2 + z;
    assert rest[0] == y[0];
    SplitOfWordThenRest(x, g1, rest);
    SplitOfTwoWords(y, g2, z);
    assert [x] + [y, z] == [x, y, z];
  }

  /** Two singletons joined are the pair literal; stated apart to keep the proof above small. */
  lemma {:induction false} PairOfSingletons<T>(a: T, b: T)
    ensures [a] + [b] == [a, b]
  {
  }

  /**
   * `dict(pairs)[key]` for a dict literal: the value of the last pair
   * with that key, since a repeated key overwrites the earlier one.
   */
  function LastMatch<K(==), V>(pairs: seq<(K, V)>, key: K): (r: Option<V>)
    ensures r.None? <==> forall i :: 0 <= i < |pairs| ==> pairs[i].0 != key
  {
    if pairs == [] then None
    else if pairs[|pairs| - 1].0 == key then Some(pairs[|pairs| - 1].1)
    else LastMatch(pairs[..|pairs| - 1], key)
  }

  /** The pair found is the last one with the key. */
  lemma {:induction false} LastMatchAt<K, V>(pairs: seq<(K, V)>, key: K, i: nat)
    requires i < |pairs| && pairs[i].0 == key
    requires forall j :: i < j < |pairs| ==> pairs[j].0 != key
    ensures LastMatch(pairs, key) == Some(pairs[i].1)
  {
    if i < |pairs| - 1 {
      LastMatchAt(pairs[..|pairs| - 1], key, i);
    }
  }

  /** The suit abbreviations, in the order the program lists them; 'S' is listed twice. */
  const SUIT_ABBREVIATIONS: seq<(char, string)> := [
    ('C', "Coeur"), ('H', "Coeur"), ('♥', "Coeur"),
    ('K', "Carreau"), ('D', "Carreau"), ('♦', "Carreau"),
    ('T', "Trèfle"), ('S', "Trèfle"), ('♣', "Trèfle"),
    ('P', "Pique"), ('S', "Pique"), ('♠', "Pique")
  ]

  /** The rank letters and the rank names they stand for. */
  const RANK_ALIASES: seq<(string, string)> := [
    ("A", "As"), ("J", "Valet"), ("V", "Valet"),
    ("Q", "Dame"), ("D", "Dame"),
    ("K", "Roi"), ("R", "Roi")
  ]

  /** The suit an abbreviation stands for. */
  function SuitOfLetter(c: char): (r: Option<string>)
    ensures r.Some? ==> r.value in COULEURS
  {
    var r := LastMatch(SUIT_ABBREVIATIONS, c);
    if r.Some? then
      LastMatchAmong(SUIT_ABBREVIATIONS, c);
      r
    else r
  }

  /** A value found in a table is one of the table's values. */
  lemma {:induction false} LastMatchAmong<K, V>(pairs: seq<(K, V)>, key: K)
    requires LastMatch(pairs, key).Some?
    ensures exists i :: 0 <= i < |pairs| && pairs[i].1 == LastMatch(pairs, key).value
  {
    if pairs[|pairs| - 1].0 != key {
      LastMatchAmong(pairs[..|pairs| - 1], key);
      var i :| 0 <= i < |pairs| - 1 && pairs[..|pairs| - 1][i].1 == LastMatch(pairs, key).value;
      assert pairs[i].1 == LastMatch(pairs, key).value;
    }
  }

  /** 'S' is read as Pique: the later of its two entries wins. */
  lemma {:induction false} LetterSIsPique()
    ensures SuitOfLetter('S') == Some("Pique")
  {
    LastMatchAt(SUIT_ABBREVIATIONS, 'S', 10);
  }

  /** A rank letter becomes its rank name; any other text is kept. */
  function Alias(rang: string): (r: string)
    ensures LastMatch(RANK_ALIASES, rang).None? ==> r == rang
  {
    match LastMatch(RANK_ALIASES, rang)
    case Some(nom) => nom
    case None => rang
  }

  /** Full rank names are left alone by the aliases. */
  lemma {:induction false} AliasKeepsRankNames(v: Value)
    ensures Alias(RANGS[v]) == RANGS[v]
  {
    forall i | 0 <= i < |RANK_ALIASES| ensures RANK_ALIASES[i].0 != RANGS[v] {
      assert |RANK_ALIASES[i].0| == 1;
      if |RANGS[v]| == 1 {
        assert RANGS[v][0] in "23456789";
      }
    }
  }

  /** Every rank letter stands for a rank name of `RANGS`. */
  lemma {:induction false} AliasesAreRanks(i: nat)
    requires i < |RANK_ALIASES|
    ensures Alias(RANK_ALIASES[i].0) == RANK_ALIASES[i].1 && RANK_ALIASES[i].1 in RANGS
  {
    var key := RANK_ALIASES[i].0;
    assert forall j :: i < j < |RANK_ALIASES| ==> RANK_ALIASES[j].0 != key;
    LastMatchAt(RANK_ALIASES, key, i);
  }

  /** The reasons `parser_carte` raises `ValueError`. */
  datatype ParseError =
    | BadFormat(texte: string)   // fewer than two characters, and not two words
    | UnknownSuit(abbr: char)    // the last character is no suit abbreviation
    | BadRank(rang: string)      // the rank, after the aliases, is not in RANGS
    | BadSuit(couleur: string)   // the suit name is not in COULEURS

  /** The rank and suit read from stripped text, before validation. */
  function Pieces(texte: string): (r: Result<(string, string), ParseError>)
    ensures r.Err? && r.error.BadFormat? ==> |texte| < 2 && r.error.texte == texte
    ensures r.Err? && r.error.UnknownSuit? ==> SuitOfLetter(r.error.abbr).None?
    ensures r.Err? ==> r.error.BadFormat? || r.error.UnknownSuit?
    ensures r.Ok? && |Split(texte)| != 2 ==> r.value.1 in COULEURS
  {
    var parties := Split(texte);
    if |parties| == 2 then Ok((parties[0], parties[1]))
    else if |texte| < 2 then Err(BadFormat(texte))
    else
      match SuitOfLetter(texte[|texte| - 1])
      case Some(couleur) => Ok((texte[..|texte| - 1], couleur))
      case None => Err(UnknownSuit(texte[|texte| - 1]))
  }

  /** The last two checks of `parser_carte`: the rank first, then the suit. */
  function Validate(nom: string, couleur: string): (r: Result<(string, string), ParseError>)
    ensures r.Ok? ==> nom in RANGS && couleur in COULEURS && r.value == (nom, couleur)
    ensures r.Ok? ==> NewCard(nom, couleur).Some?
    ensures r.Err? ==> r.error.BadRank? || r.error.BadSuit?
    ensures nom !in RANGS ==> r == Err(BadRank(nom))
    ensures r.Err? && r.error.BadRank? ==> r.error.rang == nom && nom !in RANGS
    ensures r.Err? && r.error.BadSuit? ==> r.error.couleur == couleur && couleur !in COULEURS
  {
    if nom !in RANGS then Err(BadRank(nom))
    else if couleur !in COULEURS then Err(BadSuit(couleur))
    else Ok((nom, couleur))
  }

  /**
   * `parser_carte`: the rank name and the suit name of the card the text
   * names, or why the text names no card.
   */
  function ParseCard(texte: string): (r: Result<(string, string), ParseError>)
    ensures r.Ok? ==> r.value.0 in RANGS && r.value.1 in COULEURS
    ensures r.Ok? ==> NewCard(r.value.0, r.value.1).Some?
    ensures r.Err? && r.error.BadFormat? ==> |Strip(texte)| < 2
    ensures r.Err? && r.error.UnknownSuit? ==> SuitOfLetter(r.error.abbr).None?
    ensures r.Err? && r.error.BadRank? ==> r.error.rang !in RANGS
    ensures r.Err? && r.error.BadSuit? ==> r.error.couleur !in COULEURS && |Split(Strip(texte))| == 2
  {
    var t := Strip(texte);
    var pieces := Pieces(t);
    if pieces.Err? then
      assert pieces.error.UnknownSuit? ==> SuitOfLetter(pieces.error.abbr).None?;
      Err(pieces.error)
    else Validate(Alias(pieces.value.0), pieces.value.1)
  }

  /** Text that strips to fewer than two characters is refused as malformed. */
  lemma {:induction false} ShortTextRefused(texte: string)
    requires |Strip(texte)| < 2
    ensures ParseCard(texte) == Err(BadFormat(Strip(texte)))
  {
    ShortTextSplit(Strip(texte));
  }

  /**
   * A rank word and a suit word, with whitespace between and around them,
   * are read as those two names, with a rank letter turned into its name.
   */
  lemma {:induction false} ParseTwoWords(lead: string, rang: string, gap: string, couleur: string, trail: string)
    requires AllSpace(lead) && AllSpace(trail) && gap != [] && AllSpace(gap)
    requires Word(rang) && Word(couleur)
    ensures ParseCard(lead + rang + gap + couleur + trail) ==
      if Alias(rang) !in RANGS then Err(BadRank(Alias(rang)))
      else if couleur !in COULEURS then Err(BadSuit(couleur))
      else Ok((Alias(rang), couleur))
  {
    var t := rang + gap + couleur;
    assert lead + rang + gap + couleur + trail == lead + t + trail;
    assert t[0] == rang[0] && t[|t| - 1] == couleur[|couleur| - 1];
    StripOfPadded(lead, t, trail);
    SplitOfTwoWords(rang, gap, couleur);
  }

  /**
   * A single word is read as a rank followed by a suit abbreviation: its
   * last character names the suit and the rest the rank.
   */
  lemma {:induction false} ParseAbbreviated(lead: string, rang: string, lettre: char, trail: string)
    requires AllSpace(lead) && AllSpace(trail) && Word(rang) && !IsSpace(lettre)
    ensures ParseCard(lead + rang + [lettre] + trail) ==
      match SuitOfLetter(lettre)
      case None => Err(UnknownSuit(lettre))
      case Some(couleur) =>
        if Alias(rang) !in RANGS then Err(BadRank(Alias(rang))) else Ok((Alias(rang), couleur))
  {
    var w := rang + [lettre];
    assert Word(w) && w[..|w| - 1] == rang && w[|w| - 1] == lettre;
    assert lead + rang + [lettre] + trail == lead + w + trail;
    StripOfPadded(lead, w, trail);
    SplitOfWord(w);
  }

  /** A card written as its rank name and suit name reads back as that card. */
  lemma {:induction false} ParseCardOfNames(c: Card)
    ensures ParseCard(RankName(c) + " " + SuitName(c.suit)) == Ok((RankName(c), SuitName(c.suit)))
    ensures NewCard(RankName(c), SuitName(c.suit)) == Some(c)
  {
    RankNamesAreWords(c.value);
    AliasKeepsRankNames(c.value);
    assert Word(SuitName(c.suit));
    assert [] + RankName(c) + " " + SuitName(c.suit) + [] == RankName(c) + " " + SuitName(c.suit);
    ParseTwoWords([], RankName(c), " ", SuitName(c.suit), []);
    NewCardOfNames(c);
  }

  lemma {:induction false} RankNamesAreWords(v: Value)
    ensures Word(RANGS[v])
  {
  }

  /** The letter the program's table lists first for each suit. */
  function SuitLetter(s: Suit): (c: char)
    ensures SuitOfLetter(c) == Some(SuitName(s))
  {
    match s
    case Coeur => LastMatchAt(SUIT_ABBREVIATIONS, 'C', 0); 'C'
    case Carreau => LastMatchAt(SUIT_ABBREVIATIONS, 'K', 3); 'K'
    case Trefle => LastMatchAt(SUIT_ABBREVIATIONS, 'T', 6); 'T'
    case Pique => LastMatchAt(SUIT_ABBREVIATIONS, 'P', 9); 'P'
  }

  /** A card written as its rank name and suit letter reads back as that card. */
  lemma {:induction false} ParseCardOfAbbreviation(c: Card)
    ensures ParseCard(RankName(c) + [SuitLetter(c.suit)]) == Ok((RankName(c), SuitName(c.suit)))
  {
    var w := RankName(c) + [SuitLetter(c.suit)];
    RankNamesAreWords(c.value);
    AliasKeepsRankNames(c.value);
    assert [] + RankName(c) + [SuitLetter(c.suit)] + [] == w;
    ParseAbbreviated([], RankName(c), SuitLetter(c.suit), []);
  }

  /** Text other than a single rank letter is left alone by the aliases. */
  lemma {:induction false} AliasOfOtherText(r: string)
    requires |r| != 1 || r[0] !in "AJVQDKR"
    ensures Alias(r) == r
  {
    forall i | 0 <= i < |RANK_ALIASES| ensures RANK_ALIASES[i].0 != r {
      var key := RANK_ALIASES[i].0;
      assert |key| == 1 && key[0] in "AJVQDKR";
    }
  }

  /** The first characters of rank names: a digit, or the initial of a face or the ace. */
  predicate RankInitial(c: char) {
    '1' <= c <= '9' || c == 'V' || c == 'D' || c == 'R' || c == 'A'
  }

  /** Text that does not start like a rank name is no rank name. */
  lemma {:induction false} NotARankName(r: string)
    requires r != [] && !RankInitial(r[0])
    ensures r !in RANGS
  {
    forall v: Value ensures RANGS[v] != r {
      assert RankInitial(RANGS[v][0]);
    }
  }

  /** Suit names start with C, T or P. */
  lemma {:induction false} NotASuitName(c: string)
    requires c != [] && c[0] !in "CTP"
    ensures c !in COULEURS
  {
    forall i | 0 <= i < 4 ensures COULEURS[i] != c {
      assert COULEURS[i][0] in "CTP";
    }
  }

  // The examples below take the text as a parameter equal to the
  // literal, which keeps the verifier from evaluating the parser on the
  // literal itself.

  /** "As Coeur": a full rank name and a full suit name. */
  lemma {:induction false} ExampleFullNames(t: string)
    requires t == "As Coeur"
    ensures ParseCard(t) == Ok(("As", "Coeur"))
  {
    AliasKeepsRankNames(12);
    assert t == [] + "As" + " " + "Coeur" + [];
    ParseTwoWords([], "As", " ", "Coeur", []);
  }

  /** "A Pique": a rank letter. */
  lemma {:induction false} ExampleRankLetter(t: string)
    requires t == "A Pique"
    ensures ParseCard(t) == Ok(("As", "Pique"))
  {
    AliasesAreRanks(0);
    assert t == [] + "A" + " " + "Pique" + [];
    ParseTwoWords([], "A", " ", "Pique", []);
  }

  /** "K Trèfle": the letter K read as a rank, not as a suit. */
  lemma {:induction false} ExampleLetterK(t: string)
    requires t == "K Trèfle"
    ensures ParseCard(t) == Ok(("Roi", "Trèfle"))
  {
    AliasesAreRanks(5);
    assert t == [] + "K" + " " + "Trèfle" + [];
    ParseTwoWords([], "K", " ", "Trèfle", []);
  }

  /** "  Dame  Carreau  ": extra whitespace around and between the words. */
  lemma {:induction false} ExamplePadded(t: string)
    requires t == "  Dame  Carreau  "
    ensures ParseCard(t) == Ok(("Dame", "Carreau"))
  {
    AliasKeepsRankNames(10);
    assert t == "  " + "Dame" + "  " + "Carreau" + "  ";
    ParseTwoWords("  ", "Dame", "  ", "Carreau", "  ");
  }

  /** "10C": a rank followed by a suit letter. */
  lemma {:induction false} ExampleSuitLetter(t: string)
    requires t == "10C"
    ensures ParseCard(t) == Ok(("10", "Coeur"))
  {
    LastMatchAt(SUIT_ABBREVIATIONS, 'C', 0);
    assert SuitOfLetter('C') == Some("Coeur");
    AliasKeepsRankNames(8);
    RankNamesAreWords(8);
    assert t == [] + RANGS[8] + ['C'] + [];
    ParseAbbreviated([], RANGS[8], 'C', []);
  }

  /** "V♠": a rank letter followed by a suit symbol. */
  lemma {:induction false} ExampleSuitSymbol(t: string)
    requires t == "V♠"
    ensures ParseCard(t) == Ok(("Valet", "Pique"))
  {
    LastMatchAt(SUIT_ABBREVIATIONS, '♠', 11);
    assert SuitOfLetter('♠') == Some("Pique");
    AliasesAreRanks(2);
    var rang := RANK_ALIASES[2].0;
    assert Word(rang);
    assert t == [] + rang + ['♠'] + [];
    ParseAbbreviated([], rang, '♠', []);
  }

  /** "": empty text. */
  lemma {:induction false} ExampleEmpty(t: string)
    requires t == ""
    ensures ParseCard(t) == Err(BadFormat(""))
  {
    var s := Strip(t);
    assert |StripStart(t)| == 0;
    assert s == [];
    ShortTextRefused(t);
  }

  /** "10X": an unknown suit letter. */
  lemma {:induction false} ExampleUnknownLetter(t: string)
    requires t == "10X"
    ensures ParseCard(t) == Err(UnknownSuit('X'))
  {
    assert forall i :: 0 <= i < |SUIT_ABBREVIATIONS| ==> SUIT_ABBREVIATIONS[i].0 != 'X';
    RankNamesAreWords(8);
    assert t == [] + RANGS[8] + ['X'] + [];
    ParseAbbreviated([], RANGS[8], 'X', []);
  }

  /**
   * Text that does not split into two words is read as a rank followed by a
   * suit letter: an unknown letter is refused first, then the rank and suit
   * are checked.
   */
  lemma {:induction false} ParseNotTwoWords(texte: string)
    requires |Split(Strip(texte))| != 2 && |Strip(texte)| >= 2
    ensures var t := Strip(texte);
      ParseCard(texte) ==
        match SuitOfLetter(t[|t| - 1])
        case None => Err(UnknownSuit(t[|t| - 1]))
        case Some(couleur) => Validate(Alias(t[..|t| - 1]), couleur)
  {
    PiecesOfOneWord(Strip(texte));
  }

  /** Text that does not split into two words is cut before its last character. */
  lemma {:induction false} PiecesOfOneWord(t: string)
    requires |Split(t)| != 2 && |t| >= 2
    ensures Pieces(t) ==
      match SuitOfLetter(t[|t| - 1])
      case None => Err(UnknownSuit(t[|t| - 1]))
      case Some(couleur) => Ok((t[..|t| - 1], couleur))
  {
  }

  /**
   * Three words are never read as a rank and a suit name: the whole text is
   * read as a rank followed by a suit letter, the last letter of the third
   * word.
   */
  lemma {:induction false} ParseThreeWords(x: string, g1: string, y: string, g2: string, z: string)
    requires Word(x) && Word(y) && Word(z)
    requires g1 != [] && AllSpace(g1) && g2 != [] && AllSpace(g2)
    ensures var t := x + g1 + (y + g2 + z);
      ParseCard(t) ==
        match SuitOfLetter(z[|z| - 1])
        case None => Err(UnknownSuit(z[|z| - 1]))
        case Some(couleur) => Validate(Alias(t[..|t| - 1]), couleur)
  {
    var t := x + g1 + (y + g2 + z);
    StripOfWordBounded(x, g1, y + g2 + z);
    SplitOfThreeWords(x, g1, y, g2, z);
    ParseNotTwoWords(t);
  }

  /** A text that starts and ends with a word strips to itself. */
  lemma {:induction false} StripOfWordBounded(x: string, g1: string, rest: string)
    requires Word(x) && rest != [] && !IsSpace(rest[|rest| - 1])
    ensures var t := x + g1 + rest;
      Strip(t) == t && |t| >= 2 && t[|t| - 1] == rest[|rest| - 1]
  {
    var t := x + g1 + rest;
    assert |t| == |x| + |g1| + |rest| && |x| >= 1;
    assert t[0] == x[0] && t[|t| - 1] == rest[|rest| - 1];
    assert [] + t + [] == t;
    StripOfPadded([], t, []);
  }

  /** "Z Coeur": an unknown rank. */
  lemma {:induction false} ExampleUnknownRank(t: string)
    requires t == "Z Coeur"
    ensures ParseCard(t) == Err(BadRank("Z"))
  {
    AliasOfOtherText("Z");
    NotARankName("Z");
    assert t == [] + "Z" + " " + "Coeur" + [];
    ParseTwoWords([], "Z", " ", "Coeur", []);
  }

  /** "As Jaune": an unknown suit name. */
  lemma {:induction false} ExampleUnknownSuitName(t: string)
    requires t == "As Jaune"
    ensures ParseCard(t) == Err(BadSuit("Jaune"))
  {
    var couleur := "Jaune";
    NotASuitName(couleur);
    AliasKeepsRankNames(12);
    RankNamesAreWords(12);
    assert Word(couleur);
    assert t == [] + RANGS[12] + " " + couleur + [];
    ParseTwoWords([], RANGS[12], " ", couleur, []);
  }
}
