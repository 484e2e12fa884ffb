/** The first revision of the engine, `src/lib.rs`: the command-line
    configuration, cards built through a getter type that carries the score
    and name tables, the unshuffled deck, the kitty size and the score fold.
    Cards here store their name and score as fields, filled in by the getter
    type the caller passes; trump 1 is called "Petit" and trump 22 "Joker". */
module LibVariant {
  import opened Wrappers
  import opened CardModel
  import opened Decimal
  import opened Utils
  import opened DeckModel
  import opened Scoring
  import opened KittyRules

  /** `Config`: the number of players asked for on the command line. */
  datatype Config = Config(nPlayers: U8)

  /** `Config::default`. */
  const DefaultPlayers: U8 := 4

  /** The ways `Config::build` can end without a configuration; the last is
      the `todo!` panic for an unexpected argument count. */
  datatype BuildError = InvalidNumber | CouldNotParse | NotImplemented

  /** The text each error carries. */
  function Message(e: BuildError): string {
    match e
    case InvalidNumber => "Invalid number of players"
    case CouldNotParse => "Could not parse the number of players"
    case NotImplemented => "not yet implemented"
  }

  /** The characters `str::trim` strips: those with the Unicode White_Space
      property. */
  predicate IsWhiteSpace(ch: char) {
    || ('\t' <= ch <= '\r') || ch == ' ' || ch == '\U{0085}' || ch == '\U{00A0}'
    || ch == '\U{1680}' || ('\U{2000}' <= ch <= '\U{200A}') || ch == '\U{2028}'
    || ch == '\U{2029}' || ch == '\U{202F}' || ch == '\U{205F}' || ch == '\U{3000}'
  }

  predicate AllWhiteSpace(s: string) {
    forall i :: 0 <= i < |s| ==> IsWhiteSpace(s[i])
  }

  /** The index of the first non-white character at or after `i`, or the
      length when there is none. */
  function TextStart(s: string, i: nat): (k: nat)
    requires i <= |s|
    ensures i <= k <= |s|
    ensures forall j :: i <= j < k ==> IsWhiteSpace(s[j])
    ensures k < |s| ==> !IsWhiteSpace(s[k])
    decreases |s| - i
  {
    if i < |s| && IsWhiteSpace(s[i]) then TextStart(s, i + 1) else i
  }

  /** The index just past the last non-white character before `j`, or 0
      when there is none. */
  function TextEnd(s: string, j: nat): (k: nat)
    requires j <= |s|
    ensures k <= j
    ensures forall m :: k <= m < j ==> IsWhiteSpace(s[m])
    ensures k > 0 ==> !IsWhiteSpace(s[k - 1])
  {
    if j > 0 && IsWhiteSpace(s[j - 1]) then TextEnd(s, j - 1) else j
  }

  /** `str::trim`: the text between the leading and the trailing white
      space. */
  function Trim(s: string): (r: string)
    ensures |r| <= |s|
    ensures |r| > 0 ==> !IsWhiteSpace(r[0]) && !IsWhiteSpace(r[|r| - 1])
  {
    var t := s[TextStart(s, 0)..];
    t[..TextEnd(t, |t|)]
  }

  /** Any index with only white space before it and text at it is the
      start of the text. */
  lemma {:induction false} TextStartAt(s: string, i: nat, m: nat)
    requires i <= m <= |s|
    requires forall j :: i <= j < m ==> IsWhiteSpace(s[j])
    requires m < |s| ==> !IsWhiteSpace(s[m])
    ensures TextStart(s, i) == m
    decreases m - i
  {
    if i < m {
      TextStartAt(s, i + 1, m);
    }
  }

  /** Any index with only white space after it and text just before it is
      the end of the text. */
  lemma {:induction false} TextEndAt(s: string, j: nat, m: nat)
    requires m <= j <= |s|
    requires forall k :: m <= k < j ==> IsWhiteSpace(s[k])
    requires m > 0 ==> !IsWhiteSpace(s[m - 1])
    ensures TextEnd(s, j) == m
    decreases j - m
  {
    if m < j {
      TextEndAt(s, j - 1, m);
    }
  }

  /** Trimming removes exactly the white space around a text that neither
      starts nor ends with white space. */
  lemma TrimPadded(pre: string, s: string, post: string)
    requires AllWhiteSpace(pre) && AllWhiteSpace(post)
    requires |s| > 0
    requires !IsWhiteSpace(s[0]) && !IsWhiteSpace(s[|s| - 1])
    ensures Trim(pre + s + post) == s
  {
    var whole := pre + s + post;
    assert whole[|pre|] == s[0];
    forall j | 0 <= j < |pre|
      ensures IsWhiteSpace(whole[j])
    {
      assert whole[j] == pre[j];
    }
    TextStartAt(whole, 0, |pre|);
    var t := whole[|pre|..];
    assert t == s + post;
    assert t[|s| - 1] == s[|s| - 1];
    forall k | |s| <= k < |t|
      ensures IsWhiteSpace(t[k])
    {
      assert t[k] == post[k - |s|];
    }
    TextEndAt(t, |t|, |s|);
  }

  /** `str::parse::<u8>`: an optional '+', then at least one ASCII digit,
      of value below 256. Leading zeros are accepted; a '-' is not. */
  function ParseU8(s: string): (r: Option<U8>)
    ensures r.Some? ==> |s| > 0 && (IsDigit(s[0]) || s[0] == '+')
    ensures r.Some? ==> forall i :: 1 <= i < |s| ==> IsDigit(s[i])
    ensures r.Some? ==> exists i :: 0 <= i < |s| && IsDigit(s[i])
  {
    var digits := if |s| > 0 && s[0] == '+' then s[1..] else s;
    if |digits| == 0 || !AllDigits(digits) then None
    else
      assert digits[0] == s[|s| - |digits|];
      var v := ParseDecimal(digits);
      if v < 256 then Some(v) else None
  }

  /** Reading back the numeral of a number gives the number while it fits
      in a u8, with or without a '+', and fails beyond. */
  lemma ParseU8NatToString(n: nat)
    ensures n < 256 ==> ParseU8(NatToString(n)) == Some(n)
    ensures n < 256 ==> ParseU8("+" + NatToString(n)) == Some(n)
    ensures n >= 256 ==> ParseU8(NatToString(n)) == None
  {
    ParseNatToString(n);
    var s := NatToString(n);
    assert s[0] != '+';
    assert ("+" + s)[1..] == s;
  }

  /** `Config::build`: no argument after the program name gives the default
      table of four; one argument must trim and parse to a u8 in 2..5; any
      other count is the unimplemented case. */
  function Build(args: seq<string>): (r: Result<Config, BuildError>)
    ensures r.Success? ==> 2 <= r.value.nPlayers <= 5
    ensures |args| == 1 ==> r == Success(Config(DefaultPlayers))
    ensures r == Failure(NotImplemented) <==> |args| != 1 && |args| != 2
    ensures |args| == 2 ==> (r == Failure(CouldNotParse) <==> ParseU8(Trim(args[1])).None?)
  {
    if |args| == 1 then Success(Config(DefaultPlayers))
    else if |args| == 2 then
      match ParseU8(Trim(args[1]))
      case Some(n) => if 2 <= n <= 5 then Success(Config(n)) else Failure(InvalidNumber)
      case None => Failure(CouldNotParse)
    else Failure(NotImplemented)
  }

  /** A number written out with white space around it is read back: a table
      of 2 to 5 players is accepted, another u8 is an invalid count, and a
      number beyond a u8 does not parse. */
  lemma BuildNumeral(program: string, pre: string, n: nat, post: string)
    requires AllWhiteSpace(pre) && AllWhiteSpace(post)
    ensures Build([program, pre + NatToString(n) + post]) ==
      if n >= 256 then Failure(CouldNotParse)
      else if 2 <= n <= 5 then Success(Config(n))
      else Failure(InvalidNumber)
  {
    var s := NatToString(n);
    assert !IsWhiteSpace(s[0]) && !IsWhiteSpace(s[|s| - 1]);
    TrimPadded(pre, s, post);
    ParseU8NatToString(n);
  }

  /** The parser's edge cases: a '+' sign and leading zeros are accepted,
      a '-' sign, an empty string and a value past 255 are not. */
  lemma ParseU8Vectors()
    ensures ParseU8("+05") == Some(5)
    ensures ParseU8("-3") == None
    ensures ParseU8("+") == None
    ensures ParseU8("") == None
    ensures ParseU8("300") == None
  {
    assert ("+05")[1..] == "05";
    assert ParseDecimal("05") == 5 by {
      assert "05"[..1] == "0";
      assert "0"[..0] == "";
    }
    assert ("+")[1..] == "";
    assert !IsDigit(("-3")[0]);
    assert ParseDecimal("300") == 300 by {
      assert "300"[..2] == "30";
      assert "30"[..1] == "3";
      assert "3"[..0] == "";
    }
  }

  /** The getter type passed to `Card::new`: it supplies the score and name
      tables. */
  datatype Getters = CardSuitGetters | CardTrumpGetters

  /** The getter type `build_deck` passes for each suit. */
  function GetterFor(s: Suit): (g: Getters)
    ensures g == CardTrumpGetters <==> s == Trumps
  {
    if s == Trumps then CardTrumpGetters else CardSuitGetters
  }

  /** `CardSuit::score` / `CardTrump::score`, in half-points. */
  function GetterScore(g: Getters, rank: U8): (r: nat)
    ensures r == Score(Card(if g == CardTrumpGetters then Trumps else Spades, rank))
  {
    match g
    case CardSuitGetters =>
      if 1 <= rank <= 10 then 1
      else if rank == 11 then 3
      else if rank == 12 then 5
      else if rank == 13 then 7
      else if rank == 14 then 9
      else 0
    case CardTrumpGetters =>
      if rank == 1 || rank == 21 || rank == 22 then 9 else 1
  }

  /** `CardSuit::name` / `CardTrump::name`. */
  function GetterName(g: Getters, rank: U8): (r: string)
    ensures |r| > 0
    ensures g == CardTrumpGetters ==> (r == "Petit" <==> rank == 1) && (r == "Joker" <==> rank == 22)
    ensures g == CardSuitGetters ==> r == Name(Card(Spades, rank))
    ensures g == CardTrumpGetters && rank != 1 && rank != 22 ==> r == Name(Card(Trumps, rank))
  {
    match g
    case CardSuitGetters =>
      if rank == 11 then "Jack"
      else if rank == 12 then "Knight"
      else if rank == 13 then "Queen"
      else if rank == 14 then "King"
      else NatToString(rank)
    case CardTrumpGetters =>
      if rank == 1 then "Petit"
      else if rank == 22 then "Joker"
      else NatToString(rank)
  }

  /** The name of a card of this revision. */
  function LibName(c: Card): string {
    GetterName(GetterFor(c.suit), c.rank)
  }

  /** The names here agree with the current card model everywhere except at
      the two ends of the trumps. */
  lemma LibNameAgrees(c: Card)
    ensures LibName(c) == Name(c) <==> !(IsTrump(c) && (c.rank == 1 || c.rank == 22))
  {
    if IsTrump(c) && c.rank == 1 {
      assert Name(c) == NatToString(1) == "1";
    }
  }

  /** Within one getter type a name determines the rank. */
  lemma GetterNameInjective(g: Getters, a: U8, b: U8)
    ensures GetterName(g, a) == GetterName(g, b) ==> a == b
  {
    ParseNatToString(a);
    ParseNatToString(b);
  }

  /** A card as `Card::new` builds it here: the name and the score are
      stored. */
  datatype LibCard = LibCard(rank: U8, name: string, score: nat, suit: Suit)

  /** `Card::new`. */
  function NewLibCard(g: Getters, rank: U8, suit: Suit): (c: LibCard)
    ensures c.rank == rank && c.suit == suit
    ensures c.score == GetterScore(g, rank) && c.name == GetterName(g, rank)
  {
    LibCard(rank, GetterName(g, rank), GetterScore(g, rank), suit)
  }

  /** The (suit, rank) pair of a stored card. */
  function CardOf(c: LibCard): Card {
    Card(c.suit, c.rank)
  }

  function CardsOf(cards: seq<LibCard>): (r: seq<Card>)
    ensures |r| == |cards| && forall i :: 0 <= i < |cards| ==> r[i] == CardOf(cards[i])
  {
    seq(|cards|, i requires 0 <= i < |cards| => CardOf(cards[i]))
  }

  /** A stored card whose name and score are the ones its suit calls for. */
  predicate WellBuilt(c: LibCard) {
    c == NewLibCard(GetterFor(c.suit), c.rank, c.suit)
  }

  /** `Card::id`: the suit glyph and the stored name between bars. */
  function LibId(c: LibCard): (r: string)
    ensures |r| == |c.name| + 3 && r[0] == '|' && r[|r| - 1] == '|'
    ensures r[1] == Icon(c.suit) && r[2..|r| - 1] == c.name
  {
    "|" + [Icon(c.suit)] + c.name + "|"
  }

  /** Distinct well-built cards have distinct ids. */
  lemma LibIdInjective(a: LibCard, b: LibCard)
    requires WellBuilt(a) && WellBuilt(b)
    ensures LibId(a) == LibId(b) ==> a == b
  {
    if LibId(a) == LibId(b) {
      IconInjective(a.suit, b.suit);
      GetterNameInjective(GetterFor(a.suit), a.rank, b.rank);
    }
  }

  /** `is_trump`: the suit is the trump suit. */
  predicate LibIsTrump(c: LibCard) {
    c.suit == Trumps
  }

  /** The cards `Card::new` builds from a list of (suit, rank) pairs. */
  function BuildAll(g: Getters, cards: seq<Card>): (r: seq<LibCard>)
    ensures |r| == |cards|
    ensures forall i :: 0 <= i < |cards| ==> r[i] == NewLibCard(g, cards[i].rank, cards[i].suit)
  {
    seq(|cards|, i requires 0 <= i < |cards| => NewLibCard(g, cards[i].rank, cards[i].suit))
  }

  /** Building keeps the (suit, rank) pairs, and builds well when the getter
      type matches every suit. */
  lemma BuildAllKeepsCards(g: Getters, cards: seq<Card>)
    ensures CardsOf(BuildAll(g, cards)) == cards
    ensures (forall i :: 0 <= i < |cards| ==> GetterFor(cards[i].suit) == g) ==>
      forall i :: 0 <= i < |cards| ==> WellBuilt(BuildAll(g, cards)[i])
  {
  }

  /** `_generate_cards`: for each suit in turn, ranks 1..n, each card built
      with the given getter type. */
  method GenerateLibCards(g: Getters, n: U8, suits: seq<Suit>) returns (cards: seq<LibCard>)
    ensures cards == BuildAll(g, Runs(suits, n))
  {
    cards := [];
    var si := 0;
    while si < |suits|
      invariant 0 <= si <= |suits|
      invariant cards == BuildAll(g, Runs(suits[..si], n))
    {
      var rank: nat := 1;
      while rank <= n
        invariant 1 <= rank <= n + 1
        invariant cards == BuildAll(g, Runs(suits[..si], n) + SuitRun(suits[si], rank - 1))
      {
        var card := NewLibCard(g, rank, suits[si]);
        RunStep(g, Runs(suits[..si], n), suits[si], rank);
        cards := cards + [card];
        rank := rank + 1;
      }
      assert suits[..si + 1][..si] == suits[..si];
      si := si + 1;
    }
    assert suits[..|suits|] == suits;
  }

  /** One more rank of the current suit adds one built card. */
  lemma RunStep(g: Getters, front: seq<Card>, s: Suit, rank: nat)
    requires 1 <= rank < 256
    ensures BuildAll(g, front + SuitRun(s, rank)) == BuildAll(g, front + SuitRun(s, rank - 1)) + [NewLibCard(g, rank, s)]
  {
    assert SuitRun(s, rank) == SuitRun(s, rank - 1) + [Card(s, AsU8(rank))];
    assert front + SuitRun(s, rank) == (front + SuitRun(s, rank - 1)) + [Card(s, rank)];
    BuildAllAppend(g, front + SuitRun(s, rank - 1), Card(s, rank));
  }

  lemma BuildAllAppend(g: Getters, cards: seq<Card>, c: Card)
    ensures BuildAll(g, cards + [c]) == BuildAll(g, cards) + [NewLibCard(g, c.rank, c.suit)]
  {
    assert (cards + [c])[|cards|] == c;
  }

  /** `build_deck` up to the shuffle: the plain suits with the plain
      tables, then the trumps with the trump tables. It lays out the same
      78 cards as the current engine, and every card carries the score and
      name its suit calls for. */
  method BuildDeck() returns (deck: seq<LibCard>)
    ensures CardsOf(deck) == FreshDeck()
    ensures |deck| == TotalCards
    ensures forall i :: 0 <= i < |deck| ==> WellBuilt(deck[i])
    ensures forall i :: 0 <= i < |deck| ==> deck[i].score == Score(CardOf(deck[i]))
    ensures CountSuit(CardsOf(deck), Trumps) == NumberTrumpCards
    ensures ComputeScore(deck) == 182
  {
    var plain := GenerateLibCards(CardSuitGetters, 14, PlainSuits);
    var trumps := GenerateLibCards(CardTrumpGetters, 22, [Trumps]);
    deck := plain + trumps;
    LibDeckFacts(plain, trumps);
  }

  /** The two halves of `build_deck` make a deck of well-built cards with
      the layout, the trump count and the 91 points of the fresh deck. */
  lemma LibDeckFacts(plain: seq<LibCard>, trumps: seq<LibCard>)
    requires plain == BuildAll(CardSuitGetters, Runs(PlainSuits, 14))
    requires trumps == BuildAll(CardTrumpGetters, Runs([Trumps], 22))
    ensures CardsOf(plain + trumps) == FreshDeck()
    ensures forall i :: 0 <= i < |plain + trumps| ==> WellBuilt((plain + trumps)[i])
    ensures |plain + trumps| == TotalCards
    ensures CountSuit(CardsOf(plain + trumps), Trumps) == NumberTrumpCards
    ensures ComputeScore(plain + trumps) == 182
  {
    var deck := plain + trumps;
    RunsShape(PlainSuits, 14);
    RunsShape([Trumps], 22);
    PlainRunsAreSuitCards(Runs(PlainSuits, 14));
    BuildAllKeepsCards(CardSuitGetters, Runs(PlainSuits, 14));
    BuildAllKeepsCards(CardTrumpGetters, Runs([Trumps], 22));
    assert CardsOf(deck) == CardsOf(plain) + CardsOf(trumps);
    forall i | 0 <= i < |deck|
      ensures WellBuilt(deck[i])
    {
      if i >= |plain| {
        assert deck[i] == trumps[i - |plain|];
      }
    }
    FreshDeckFacts();
    ComputeScoreIsPoints(deck);
  }

  /** The plain runs hold no trump, so the plain getters fit them. */
  lemma PlainRunsAreSuitCards(cards: seq<Card>)
    requires forall i :: 0 <= i < |cards| ==> cards[i].suit in PlainSuits
    ensures forall i :: 0 <= i < |cards| ==> GetterFor(cards[i].suit) == CardSuitGetters
  {
  }

  /** `compute_score`: the fold of the stored scores, from 0. */
  function ComputeScore(cards: seq<LibCard>): nat {
    FoldScore(cards, 0)
  }

  /** The fold with its accumulator. */
  function FoldScore(cards: seq<LibCard>, acc: nat): nat {
    if |cards| == 0 then acc else FoldScore(cards[1..], acc + cards[0].score)
  }

  /** Every stored score is the score of the card's (suit, rank) pair. */
  predicate ScoresRight(cards: seq<LibCard>) {
    forall i :: 0 <= i < |cards| ==> cards[i].score == Score(CardOf(cards[i]))
  }

  /** Folding cards with the right scores adds their points to the
      accumulator. */
  lemma {:induction false} FoldScoreIsPoints(cards: seq<LibCard>, acc: nat)
    requires ScoresRight(cards)
    ensures FoldScore(cards, acc) == acc + ComputePoints(CardsOf(cards))
  {
    if |cards| > 0 {
      ScoresRightTail(cards);
      FoldScoreIsPoints(cards[1..], acc + cards[0].score);
      CardsOfCons(cards);
      PointsCons(CardOf(cards[0]), CardsOf(cards[1..]));
    }
  }

  /** The scores stay right once the first card is dropped. */
  lemma ScoresRightTail(cards: seq<LibCard>)
    requires |cards| > 0 && ScoresRight(cards)
    ensures ScoresRight(cards[1..])
  {
    forall i | 0 <= i < |cards[1..]|
      ensures cards[1..][i].score == Score(CardOf(cards[1..][i]))
    {
      assert cards[1..][i] == cards[i + 1];
    }
  }

  /** Projecting a non-empty sequence projects its head, then its tail. */
  lemma CardsOfCons(cards: seq<LibCard>)
    requires |cards| > 0
    ensures CardsOf(cards) == [CardOf(cards[0])] + CardsOf(cards[1..])
  {
  }

  /** Points of a card put in front are its score plus the rest. */
  lemma PointsCons(head: Card, tail: seq<Card>)
    ensures ComputePoints([head] + tail) == Score(head) + ComputePoints(tail)
  {
    PointsAdditive([head], tail);
    assert [head][..0] == [];
  }

  /** On well-built cards the fold is the current engine's point total. */
  lemma ComputeScoreIsPoints(cards: seq<LibCard>)
    requires forall i :: 0 <= i < |cards| ==> WellBuilt(cards[i])
    ensures ComputeScore(cards) == ComputePoints(CardsOf(cards))
    ensures ComputeScore(cards) <= 9 * |cards|
  {
    forall i | 0 <= i < |cards|
      ensures cards[i].score == Score(CardOf(cards[i]))
    {
      assert cards[i].score == GetterScore(GetterFor(cards[i].suit), cards[i].rank);
    }
    FoldScoreIsPoints(cards, 0);
  }

  /** `kitty_size`: 6 for 2..4 players, 3 for 5 and more, 0 otherwise. */
  function KittySize(nPlayers: U8): (r: U8)
    ensures r == GetMaxSizeKitty(nPlayers)
  {
    if 2 <= nPlayers <= 4 then 6
    else if 5 <= nPlayers <= 6 then 3
    else if nPlayers >= 7 then 3
    else 0
  }
}
