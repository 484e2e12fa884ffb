/** The second revision of the engine, the `src/tarot` modules: cards whose suit is a
    (name, glyph) pair and whose trump status, score and name are read off
    that pair; a deck that remembers the dealer as an optional u8 index; a
    table of at most five players named by letter; and the score sum as a
    loop. The random first dealer and the random cut index are parameters.
    The source's arithmetic on u8 (the dealer increment, the player count
    cast) is written out, and its panics are error results. */
module TarotVariant {
  import opened Wrappers
  import opened CardModel
  import opened Utils
  import opened DeckModel
  import opened Scoring
  import LibVariant

  /** The names of `SUITS` and `TRUMPS`. */
  function SuitName(s: Suit): string {
    match s
    case Spades => "Spades"
    case Hearts => "Hearts"
    case Diamonds => "Diamonds"
    case Clubs => "Clubs"
    case Trumps => "Trumps"
  }

  lemma SuitNameInjective(s: Suit, t: Suit)
    ensures SuitName(s) == SuitName(t) ==> s == t
  {
  }

  /** `Card::is_trump`: the suit's name is "Trumps". */
  predicate TarotIsTrump(c: Card) {
    SuitName(c.suit) == "Trumps"
  }

  /** Comparing names singles out exactly the trump suit. */
  lemma TarotIsTrumpBySuit(c: Card)
    ensures TarotIsTrump(c) <==> IsTrump(c)
  {
    SuitNameInjective(c.suit, Trumps);
  }

  /** `Card::score` in half-points, chosen by the name test: the same tables
      as the current card model. */
  function TarotScore(c: Card): (r: nat)
    ensures r == Score(c)
  {
    TarotIsTrumpBySuit(c);
    if TarotIsTrump(c) then
      if c.rank == 1 || c.rank == 21 || c.rank == 22 then 9 else 1
    else if 1 <= c.rank <= 10 then 1
    else if c.rank == 11 then 3
    else if c.rank == 12 then 5
    else if c.rank == 13 then 7
    else if c.rank == 14 then 9
    else 0
  }

  /** `Card::name`: "Petit" and "Joker" at the ends of the trumps, the face
      words for plain 11..14, the decimal rank otherwise; the same names as
      the `src/lib.rs` revision. */
  function TarotName(c: Card): (r: string)
    ensures r == LibVariant.LibName(c)
  {
    TarotIsTrumpBySuit(c);
    if TarotIsTrump(c) then
      if c.rank == 1 then "Petit"
      else if c.rank == 22 then "Joker"
      else Decimal.NatToString(c.rank)
    else if c.rank == 11 then "Jack"
    else if c.rank == 12 then "Knight"
    else if c.rank == 13 then "Queen"
    else if c.rank == 14 then "King"
    else Decimal.NatToString(c.rank)
  }

  /** `Card::id`: the suit glyph and the name between bars. */
  function TarotId(c: Card): (r: string)
    ensures r == LibVariant.LibId(LibVariant.NewLibCard(LibVariant.GetterFor(c.suit), c.rank, c.suit))
  {
    "|" + [Icon(c.suit)] + TarotName(c) + "|"
  }

  /** Distinct cards have distinct ids. */
  lemma TarotIdInjective(a: Card, b: Card)
    ensures TarotId(a) == TarotId(b) ==> a == b
  {
    var la := LibVariant.NewLibCard(LibVariant.GetterFor(a.suit), a.rank, a.suit);
    var lb := LibVariant.NewLibCard(LibVariant.GetterFor(b.suit), b.rank, b.suit);
    LibVariant.LibIdInjective(la, lb);
  }

  /** `Deck`: the cards and the dealer's index, if one was drawn. */
  datatype TarotDeck = TarotDeck(cards: seq<Card>, dealer: Option<U8>)

  /** "Of the named plain suit": the test of the deck's tests. */
  function OfNamedPlainSuit(name: string): Card -> bool {
    (c: Card) => !TarotIsTrump(c) && SuitName(c.suit) == name
  }

  /** `Deck::new` up to the shuffle: the plain cards from `SUITS`, then the
      trumps from `TRUMPS`, and no dealer yet. */
  method DeckNew() returns (deck: TarotDeck)
    ensures deck.cards == FreshDeck() && deck.dealer == None
    ensures |deck.cards| == TotalCards
    ensures |Filter(deck.cards, TarotIsTrump)| == 22
    ensures |Filter(deck.cards, Not(TarotIsTrump))| == 56
    ensures forall s :: s != Trumps ==> |Filter(deck.cards, OfNamedPlainSuit(SuitName(s)))| == 14
  {
    var plain := GenerateCards(PlainSuits, NumberCardsBySuit);
    var trumps := GenerateCards([Trumps], NumberTrumpCards);
    deck := TarotDeck(plain + trumps, None);
    TarotDeckCounts(deck.cards);
  }

  /** Whatever the order, a deck holding the cards of the fresh deck counts
      22 trumps, 56 plain cards and 14 of each plain suit by the name tests. */
  lemma TarotDeckCounts(cards: seq<Card>)
    requires multiset(cards) == multiset(FreshDeck())
    ensures |Filter(cards, TarotIsTrump)| == 22
    ensures |Filter(cards, Not(TarotIsTrump))| == 56
    ensures forall s :: s != Trumps ==> |Filter(cards, OfNamedPlainSuit(SuitName(s)))| == 14
  {
    SuitCountKept(cards, Trumps);
    TrumpsByName(cards);
    FilterComplement(cards, TarotIsTrump);
    assert |cards| == TotalCards by {
      FreshDeckFacts();
      assert |cards| == |multiset(cards)| == |multiset(FreshDeck())| == |FreshDeck()|;
    }
    forall s | s != Trumps
      ensures |Filter(cards, OfNamedPlainSuit(SuitName(s)))| == 14
    {
      SuitCountKept(cards, s);
      PlainSuitByName(cards, s);
    }
  }

  /** A rearranged fresh deck holds as many cards of each suit. */
  lemma SuitCountKept(cards: seq<Card>, s: Suit)
    requires multiset(cards) == multiset(FreshDeck())
    ensures CountSuit(cards, s) == if s == Trumps then NumberTrumpCards else NumberCardsBySuit
  {
    FilterPermutation(cards, FreshDeck(), OfSuit(s));
    FreshDeckCounts(s);
  }

  /** Counting by the name test counts the trump suit. */
  lemma TrumpsByName(cards: seq<Card>)
    ensures Filter(cards, TarotIsTrump) == Filter(cards, OfSuit(Trumps))
  {
    forall c: Card
      ensures TarotIsTrump(c) == OfSuit(Trumps)(c)
    {
      TarotIsTrumpBySuit(c);
    }
    FilterCongruent(cards, TarotIsTrump, OfSuit(Trumps));
  }

  /** Counting a plain suit by its name counts that suit. */
  lemma PlainSuitByName(cards: seq<Card>, s: Suit)
    requires s != Trumps
    ensures Filter(cards, OfNamedPlainSuit(SuitName(s))) == Filter(cards, OfSuit(s))
  {
    forall c: Card
      ensures OfNamedPlainSuit(SuitName(s))(c) == OfSuit(s)(c)
    {
      TarotIsTrumpBySuit(c);
      SuitNameInjective(c.suit, s);
    }
    FilterCongruent(cards, OfNamedPlainSuit(SuitName(s)), OfSuit(s));
  }

  /** The panics of `update_dealer`: an empty range for the first draw, the
      u8 increment past 255, and a remainder by zero players. */
  datatype DealerError = EmptyRange | Overflow | DivisionByZero

  /** `Deck::update_dealer` with the first draw `gen_range(0..n)` as `pick`:
      the first call draws a dealer, later calls move it to the next seat
      modulo the number of players. */
  function UpdateDealer(deck: TarotDeck, n: U8, pick: nat): (r: Result<TarotDeck, DealerError>)
    requires deck.dealer.None? && n > 0 ==> pick < n
    ensures r.Failure? <==> n == 0 || deck.dealer == Some(255)
    ensures r.Success? ==> r.value.cards == deck.cards
    ensures r.Success? ==> r.value.dealer.Some? && r.value.dealer.value < n
    ensures deck.dealer.None? && n > 0 ==> r == Success(deck.(dealer := Some(pick)))
  {
    match deck.dealer
    case None => if n == 0 then Failure(EmptyRange) else Success(deck.(dealer := Some(pick)))
    case Some(d) =>
      if d == 255 then Failure(Overflow)
      else if n == 0 then Failure(DivisionByZero)
      else Success(deck.(dealer := Some((d + 1) % n)))
  }

  /** Further calls with the same table size. */
  function UpdateDealerTimes(deck: TarotDeck, n: U8, k: nat): Result<TarotDeck, DealerError>
    requires deck.dealer.Some?
  {
    if k == 0 then Success(deck)
    else match UpdateDealerTimes(deck, n, k - 1)
      case Failure(e) => Failure(e)
      case Success(d) => UpdateDealer(d, n, 0)
  }

  /** From a dealer seated at the table, `k` more calls move the deal `k`
      seats on, wrapping round the `n` seats. */
  lemma {:induction false} UpdateDealerWalks(deck: TarotDeck, n: U8, d: U8, k: nat)
    requires deck.dealer == Some(d) && d < n
    ensures UpdateDealerTimes(deck, n, k) == Success(deck.(dealer := Some((d + k) % n)))
  {
    if k == 0 {
      DivModUnique(d, n, 0, d);
    } else {
      UpdateDealerWalks(deck, n, d, k - 1);
      var a := (d + k - 1) % n;
      assert UpdateDealerTimes(deck, n, k) == UpdateDealer(deck.(dealer := Some(a)), n, 0);
      ModSuccessor(d + k - 1, n);
      if a < n - 1 {
        DivModUnique(a + 1, n, 0, a + 1);
      } else {
        DivModUnique(a + 1, n, 1, 0);
      }
    }
  }

  /** The dealer counter walks the same seats as `get_next_index` does over
      a table of `n` players. */
  lemma UpdateDealerFollowsTable<T>(deck: TarotDeck, n: U8, d: U8, k: nat, table: seq<T>)
    requires deck.dealer == Some(d) && d < n && |table| == n
    ensures UpdateDealerTimes(deck, n, k) == Success(deck.(dealer := Some(IterateNext(table, d, k))))
  {
    UpdateDealerWalks(deck, n, d, k);
    IterateNextIsModular(table, d, k);
  }

  /** A whole round of the table brings the deal back to the first dealer. */
  lemma UpdateDealerFullRound(deck: TarotDeck, n: U8, d: U8)
    requires deck.dealer == Some(d) && d < n
    ensures UpdateDealerTimes(deck, n, n) == Success(deck)
  {
    UpdateDealerWalks(deck, n, d, n);
    DivModUnique(d + n, n, 1, d);
  }

  /** `Deck::split` with the cut index drawn from [1, 75): the cards from the
      cut on, then the cards above it, dealer unchanged; the same cut as the
      current engine's `split_deck`. A cut past the end of a shorter deck is
      an out-of-range slice. */
  function Split(deck: TarotDeck, k: nat): (r: Option<TarotDeck>)
    requires 1 <= k < MaxNumberCardsSplit
    ensures r.Some? <==> k <= |deck.cards|
    ensures r.Some? ==> r.value.dealer == deck.dealer
    ensures r.Some? ==> r.value.cards == SplitDeck(deck.cards, k).value
  {
    if k <= |deck.cards| then Some(deck.(cards := deck.cards[k..] + deck.cards[..k])) else None
  }

  /** On a full deck the cut leaves more than three cards below it, but can
      take as few as one. */
  lemma SplitPartSizes(deck: TarotDeck, k: nat)
    requires 1 <= k < MaxNumberCardsSplit && |deck.cards| == TotalCards
    ensures Split(deck, k).Some?
    ensures |deck.cards[k..]| > MinNumberCardsSplit
    ensures k == 1 ==> |deck.cards[..k]| < MinNumberCardsSplit
  {
  }

  /** The cut the comment in `Deck::split` asks for: the index is drawn from
      [4, 75) instead of [1, 75), so that the part taken and the part left
      both hold more than three cards. */
  function SplitWithMargin(deck: TarotDeck, k: nat): (r: Option<TarotDeck>)
    requires MinNumberCardsSplit < k < MaxNumberCardsSplit
    ensures r.Some? <==> k <= |deck.cards|
    ensures r.Some? ==> r.value.dealer == deck.dealer
    ensures r.Some? ==> |r.value.cards| == |deck.cards| && multiset(r.value.cards) == multiset(deck.cards)
  {
    Split(deck, k)
  }

  /** On a full deck every cut of the corrected range keeps more than three
      cards on each side, and the cut deck starts at the cut. */
  lemma SplitWithMarginParts(deck: TarotDeck, k: nat)
    requires MinNumberCardsSplit < k < MaxNumberCardsSplit && |deck.cards| == TotalCards
    ensures SplitWithMargin(deck, k).Some?
    ensures |deck.cards[..k]| > MinNumberCardsSplit && |deck.cards[k..]| > MinNumberCardsSplit
    ensures SplitWithMargin(deck, k).value.cards == deck.cards[k..] + deck.cards[..k]
  {
  }

  /** `Player`: only a name. */
  datatype TarotPlayer = TarotPlayer(name: string)

  /** `PLAYER_NAMES`. */
  const PlayerNames: seq<string> := ["A", "B", "C", "D", "E"]

  /** The error of `Game::new`: a sixth player has no name to take. */
  datatype GameError = NameIndexOutOfBounds

  /** `Game::new`: players named by consecutive letters from "A"; asking for
      more than five indexes past the name list. */
  method GameNew(n: U8) returns (r: Result<seq<TarotPlayer>, GameError>)
    ensures r.Success? <==> n <= |PlayerNames|
    ensures r.Success? ==> |r.value| == n
    ensures r.Success? ==> forall i :: 0 <= i < n ==> r.value[i].name == [('A' as int + i) as char]
    ensures r.Success? ==> forall i, j :: 0 <= i < j < n ==> r.value[i] != r.value[j]
  {
    var players: seq<TarotPlayer> := [];
    var i := 0;
    while i < n
      invariant 0 <= i <= n && i <= |PlayerNames|
      invariant |players| == i
      invariant forall k :: 0 <= k < i ==> players[k].name == [('A' as int + k) as char]
    {
      if i >= |PlayerNames| {
        return Failure(NameIndexOutOfBounds);
      }
      players := players + [TarotPlayer(PlayerNames[i])];
      i := i + 1;
    }
    r := Success(players);
    forall k, l | 0 <= k < l < n
      ensures players[k] != players[l]
    {
      assert players[k].name[0] != players[l].name[0];
    }
  }

  /** The panics of `reorder_players`: no dealer to unwrap, the u8 increment
      past 255, and a remainder by a player count whose u8 cast is zero. */
  datatype ReorderError = NoDealer | IncrementOverflow | ZeroPlayers

  /** `Game::reorder_players`: the table rotated so that the seat after the
      dealer comes first. The length is cast to u8 before the remainder. */
  function ReorderPlayers(players: seq<TarotPlayer>, dealer: Option<U8>): (r: Result<seq<TarotPlayer>, ReorderError>)
    ensures r.Failure? <==> dealer.None? || dealer == Some(255) || AsU8(|players|) == 0
    ensures r.Success? ==> |r.value| == |players| && multiset(r.value) == multiset(players)
    ensures r.Success? ==> r.value[0] == players[(dealer.value + 1) % AsU8(|players|)]
  {
    match dealer
    case None => Failure(NoDealer)
    case Some(d) =>
      if d == 255 then Failure(IncrementOverflow)
      else if AsU8(|players|) == 0 then Failure(ZeroPlayers)
      else
        var next := (d + 1) % AsU8(|players|);
        assert players == players[..next] + players[next..];
        Success(players[next..] + players[..next])
  }

  /** With the dealer seated at a table of fewer than 256 players, seat `i`
      of the new order is the `i`-th seat after the dealer. */
  lemma ReorderIsRotation(players: seq<TarotPlayer>, d: U8)
    requires d < |players| < 256 && d < 255
    ensures ReorderPlayers(players, Some(d)).Success?
    ensures forall i :: 0 <= i < |players| ==>
      ReorderPlayers(players, Some(d)).value[i] == players[(d + 1 + i) % |players|]
  {
    var n := |players|;
    DivModUnique(n, 256, 0, n);
    var r := ReorderPlayers(players, Some(d)).value;
    var next := (d + 1) % n;
    forall i | 0 <= i < n
      ensures r[i] == players[(d + 1 + i) % n]
    {
      if d < n - 1 {
        DivModUnique(d + 1, n, 0, d + 1);
        if i < n - next {
          assert r[i] == players[next + i];
          DivModUnique(d + 1 + i, n, 0, d + 1 + i);
        } else {
          assert r[i] == players[i - (n - next)];
          DivModUnique(d + 1 + i, n, 1, d + 1 + i - n);
        }
      } else {
        DivModUnique(d + 1, n, 1, 0);
        assert r[i] == players[i];
        DivModUnique(d + 1 + i, n, 1, i);
      }
    }
  }

  /** When the last seat deals, the order is unchanged. */
  lemma ReorderAfterLastSeat(players: seq<TarotPlayer>)
    requires 0 < |players| < 256
    ensures ReorderPlayers(players, Some(|players| - 1)) == Success(players)
  {
    var n := |players|;
    DivModUnique(n, 256, 0, n);
    DivModUnique(n, n, 1, 0);
    assert players[0..] + players[..0] == players;
  }

  /** `compute_score`: the scores summed in a loop, in half-points; the same
      total as the current engine's fold. */
  method ComputeScore(cards: seq<Card>) returns (score: nat)
    ensures score == ComputePoints(cards)
    ensures score <= 9 * |cards|
  {
    score := 0;
    var i := 0;
    while i < |cards|
      invariant 0 <= i <= |cards|
      invariant score == ComputePoints(cards[..i])
    {
      assert cards[..i + 1][..i] == cards[..i];
      score := score + TarotScore(cards[i]);
      i := i + 1;
    }
    assert cards[..|cards|] == cards;
  }

  /** Any shuffle of the new deck scores 91 points. */
  lemma DeckScores91(deck: TarotDeck)
    requires multiset(deck.cards) == multiset(FreshDeck())
    ensures ComputePoints(deck.cards) == 182
  {
    ShuffledDeckFacts(deck.cards);
  }
}
