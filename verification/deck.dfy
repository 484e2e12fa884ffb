/** The deck of `src/common/game.rs`: the constants, `generate_cards`, the
    unshuffled `create_deck`, the facts every arrangement of it shares, and
    the cut `split_deck`. The shuffle is any rearrangement: the facts below
    are stated for every sequence with the same multiset as the fresh deck. */
module DeckModel {
  import opened Wrappers
  import opened CardModel
  import opened Utils
  import opened Scoring

  const NumberCardsBySuit: nat := 14
  const NumberTrumpCards: nat := 22
  const TotalCards: nat := 78
  const MinNumberCardsSplit: nat := 3
  const MaxNumberCardsSplit: nat := TotalCards - MinNumberCardsSplit

  /** The plain suits in the order `generate_suit_cards` lists them. */
  const PlainSuits: seq<Suit> := [Spades, Hearts, Diamonds, Clubs]

  /** `rank as u8`: the cast keeps the low eight bits. */
  function AsU8(n: int): U8 {
    n % 256
  }

  /** One suit's cards from `generate_cards`: ranks 1..n in order. */
  function SuitRun(s: Suit, n: nat): seq<Card> {
    seq(n, i => Card(s, AsU8(i + 1)))
  }

  /** `generate_cards` over a list of suits: each suit's run, in list order. */
  function Runs(suits: seq<Suit>, n: nat): seq<Card> {
    if |suits| == 0 then [] else Runs(suits[..|suits| - 1], n) + SuitRun(suits[|suits| - 1], n)
  }

  /** The runs hold n cards per listed suit, each of a listed suit and,
      while the ranks fit in a u8, of a rank in 1..n. */
  lemma {:induction false} RunsShape(suits: seq<Suit>, n: nat)
    ensures |Runs(suits, n)| == |suits| * n
    ensures forall i :: 0 <= i < |Runs(suits, n)| ==> Runs(suits, n)[i].suit in suits
    ensures n < 256 ==> forall i :: 0 <= i < |Runs(suits, n)| ==> 1 <= Runs(suits, n)[i].rank <= n
  {
    if |suits| > 0 {
      var pre := suits[..|suits| - 1];
      RunsShape(pre, n);
      assert (|pre| + 1) * n == |pre| * n + n;
      var front: seq<Card>, last: seq<Card> := Runs(pre, n), SuitRun(suits[|pre|], n);
      assert Runs(suits, n) == front + last;
      forall i | 0 <= i < |front + last|
        ensures (front + last)[i].suit in suits
      {
        if i < |front| {
          assert (front + last)[i] == front[i];
          assert front[i].suit in pre;
        } else {
          assert (front + last)[i] == last[i - |front|];
        }
      }
    }
  }

  /** Each suit listed k times contributes k * n cards of that suit. */
  lemma {:induction false} CountSuitRuns(suits: seq<Suit>, n: nat, t: Suit)
    ensures CountSuit(Runs(suits, n), t) == n * multiset(suits)[t]
  {
    if |suits| > 0 {
      var pre := suits[..|suits| - 1];
      var s := suits[|pre|];
      CountSuitRuns(pre, n, t);
      assert Runs(suits, n) == Runs(pre, n) + SuitRun(s, n);
      FilterConcat(Runs(pre, n), SuitRun(s, n), OfSuit(t));
      assert CountSuit(Runs(suits, n), t) == CountSuit(Runs(pre, n), t) + CountSuit(SuitRun(s, n), t);
      CountSuitRun(s, n, t);
      var k, c := multiset(pre)[t], if s == t then 1 else 0;
      LastMultiplicity(suits, t);
      MulDistributes(n, k, c);
    }
  }

  lemma LastMultiplicity(suits: seq<Suit>, t: Suit)
    requires |suits| > 0
    ensures multiset(suits)[t] == multiset(suits[..|suits| - 1])[t] + if suits[|suits| - 1] == t then 1 else 0
  {
    assert suits == suits[..|suits| - 1] + [suits[|suits| - 1]];
  }

  /** `generate_cards`: for each suit in turn, the ranks 1..n cast to u8. */
  method GenerateCards(suits: seq<Suit>, n: nat) returns (cards: seq<Card>)
    ensures cards == Runs(suits, n)
    ensures |cards| == |suits| * n
    ensures forall t :: CountSuit(cards, t) == n * multiset(suits)[t]
  {
    cards := [];
    var si := 0;
    while si < |suits|
      invariant 0 <= si <= |suits|
      invariant cards == Runs(suits[..si], n)
    {
      var rank := 1;
      while rank <= n
        invariant 1 <= rank <= n + 1
        invariant cards == Runs(suits[..si], n) + SuitRun(suits[si], rank - 1)
      {
        assert SuitRun(suits[si], rank) == SuitRun(suits[si], rank - 1) + [Card(suits[si], AsU8(rank))];
        cards := cards + [Card(suits[si], AsU8(rank))];
        rank := rank + 1;
      }
      assert suits[..si + 1][..si] == suits[..si];
      si := si + 1;
    }
    assert suits[..|suits|] == suits;
    RunsShape(suits, n);
    forall t
      ensures CountSuit(cards, t) == n * multiset(suits)[t]
    {
      CountSuitRuns(suits, n, t);
    }
  }

  lemma MulDistributes(n: nat, k: nat, c: nat)
    ensures n * (k + c) == n * k + n * c
  {
  }

  /** The deck `create_deck` builds before shuffling it. */
  function FreshDeck(): seq<Card> {
    Runs(PlainSuits, NumberCardsBySuit) + Runs([Trumps], NumberTrumpCards)
  }

  /** The four plain runs laid side by side. */
  lemma PlainRuns(n: nat)
    ensures Runs(PlainSuits, n) == SuitRun(Spades, n) + SuitRun(Hearts, n) + SuitRun(Diamonds, n) + SuitRun(Clubs, n)
  {
    var p := PlainSuits;
    assert p[..3][..2] == p[..2] && p[..2][..1] == p[..1] && p[..1][..0] == [];
    assert Runs(p[..1], n) == SuitRun(Spades, n);
    assert Runs(p[..2], n) == Runs(p[..1], n) + SuitRun(Hearts, n);
    assert Runs(p[..3], n) == Runs(p[..2], n) + SuitRun(Diamonds, n);
    assert Runs(p, n) == Runs(p[..3], n) + SuitRun(Clubs, n);
  }

  lemma TrumpRun(n: nat)
    ensures Runs([Trumps], n) == SuitRun(Trumps, n)
  {
    assert [Trumps][..0] == [];
  }

  /** The predicate "of suit s" used for counting. */
  function OfSuit(s: Suit): Card -> bool {
    (c: Card) => c.suit == s
  }

  /** How many cards of suit `s` a pile holds. */
  function CountSuit(cards: seq<Card>, s: Suit): nat {
    |Filter(cards, OfSuit(s))|
  }

  /** A run holds n cards of its own suit and none of any other. */
  lemma CountSuitRun(s: Suit, n: nat, t: Suit)
    ensures CountSuit(SuitRun(s, n), t) == if s == t then n else 0
  {
    if s == t {
      FilterAll(SuitRun(s, n), OfSuit(t));
    } else {
      FilterNone(SuitRun(s, n), OfSuit(t));
    }
  }

  /** Half-points of the first n cards of a suit, summed rank by rank. */
  function RunScoreSum(s: Suit, n: nat): nat {
    if n == 0 then 0 else RunScoreSum(s, n - 1) + Score(Card(s, AsU8(n)))
  }

  lemma {:induction false} RunPoints(s: Suit, n: nat)
    ensures ComputePoints(SuitRun(s, n)) == RunScoreSum(s, n)
  {
    if n > 0 {
      RunPoints(s, n - 1);
      assert SuitRun(s, n)[..n - 1] == SuitRun(s, n - 1);
    }
  }

  /** Oudlers among the first n cards of a suit, counted rank by rank. */
  function RunOudlerSum(s: Suit, n: nat): nat {
    if n == 0 then 0 else RunOudlerSum(s, n - 1) + (if IsOudler(Card(s, AsU8(n))) then 1 else 0)
  }

  lemma {:induction false} RunOudlers(s: Suit, n: nat)
    ensures ComputeOudlers(SuitRun(s, n)) == RunOudlerSum(s, n)
  {
    if n > 0 {
      RunOudlers(s, n - 1);
      var last := Card(s, AsU8(n));
      assert SuitRun(s, n) == SuitRun(s, n - 1) + [last];
      OudlersAdditive(SuitRun(s, n - 1), [last]);
      assert [last][1..] == [];
    }
  }

  /** Each suit's cards are distinct: their ranks 1..n stay below 256. */
  lemma RunDistinct(s: Suit, n: nat)
    requires n < 256
    ensures Distinct(SuitRun(s, n))
  {
  }

  /** The five runs of the fresh deck, in deck order. */
  lemma FreshDeckRuns()
    ensures FreshDeck() == SuitRun(Spades, 14) + SuitRun(Hearts, 14) + SuitRun(Diamonds, 14) + SuitRun(Clubs, 14) + SuitRun(Trumps, 22)
  {
    PlainRuns(NumberCardsBySuit);
    TrumpRun(NumberTrumpCards);
  }

  /** The fresh deck holds 14 cards of each plain suit and 22 trumps. */
  lemma FreshDeckCounts(t: Suit)
    ensures CountSuit(FreshDeck(), t) == if t == Trumps then NumberTrumpCards else NumberCardsBySuit
  {
    var sp, he, di, cl, tr := SuitRun(Spades, 14), SuitRun(Hearts, 14), SuitRun(Diamonds, 14), SuitRun(Clubs, 14), SuitRun(Trumps, 22);
    FreshDeckRuns();
    FilterConcat(sp + he + di + cl, tr, OfSuit(t));
    FilterConcat(sp + he + di, cl, OfSuit(t));
    FilterConcat(sp + he, di, OfSuit(t));
    FilterConcat(sp, he, OfSuit(t));
    CountSuitRun(Spades, 14, t);
    CountSuitRun(Hearts, 14, t);
    CountSuitRun(Diamonds, 14, t);
    CountSuitRun(Clubs, 14, t);
    CountSuitRun(Trumps, 22, t);
  }

  /** Ranks 1..10 of a plain suit are worth half a point each. */
  lemma {:induction false} PlainLowRanks(s: Suit, n: nat)
    requires s != Trumps && n <= 10
    ensures RunScoreSum(s, n) == n
  {
    if n > 0 {
      PlainLowRanks(s, n - 1);
    }
  }

  /** Trumps 2..20 are worth half a point each, on top of the petit's 4.5. */
  lemma {:induction false} TrumpLowRanks(n: nat)
    requires 1 <= n <= 20
    ensures RunScoreSum(Trumps, n) == 8 + n
    ensures RunOudlerSum(Trumps, n) == 1
  {
    if n > 1 {
      TrumpLowRanks(n - 1);
    }
  }

  /** Each plain suit is worth 17 points and the trumps 23 points. */
  lemma SuitPoints(s: Suit)
    ensures ComputePoints(SuitRun(s, MaxRank(s))) == if s == Trumps then 46 else 34
  {
    RunPoints(s, MaxRank(s));
    if s == Trumps {
      TrumpLowRanks(20);
      assert RunScoreSum(s, 21) == 28 + 9;
    } else {
      PlainLowRanks(s, 10);
      assert RunScoreSum(s, 11) == 10 + 3;
      assert RunScoreSum(s, 12) == 13 + 5;
      assert RunScoreSum(s, 13) == 18 + 7;
    }
  }

  /** The fresh deck totals 91 points (182 half-points). */
  lemma FreshDeckPoints()
    ensures ComputePoints(FreshDeck()) == 182
  {
    var sp, he, di, cl, tr := SuitRun(Spades, 14), SuitRun(Hearts, 14), SuitRun(Diamonds, 14), SuitRun(Clubs, 14), SuitRun(Trumps, 22);
    FreshDeckRuns();
    SuitPoints(Spades);
    SuitPoints(Hearts);
    SuitPoints(Diamonds);
    SuitPoints(Clubs);
    SuitPoints(Trumps);
    PointsAdditive(sp + he + di + cl, tr);
    PointsAdditive(sp + he + di, cl);
    PointsAdditive(sp + he, di);
    PointsAdditive(sp, he);
  }

  /** A plain suit holds no oudler. */
  lemma PlainNoOudlers(s: Suit, n: nat)
    requires s != Trumps
    ensures ComputeOudlers(SuitRun(s, n)) == 0
  {
  }

  /** The three oudlers are trumps 1, 21 and 22. */
  lemma TrumpOudlers()
    ensures ComputeOudlers(SuitRun(Trumps, 22)) == 3
  {
    var n := 20;
    TrumpLowRanks(n);
    assert RunOudlerSum(Trumps, n + 1) == 2;
    assert RunOudlerSum(Trumps, n + 2) == 3;
    RunOudlers(Trumps, n + 2);
  }

  /** The fresh deck holds the three oudlers, all among the trumps. */
  lemma FreshDeckOudlers()
    ensures ComputeOudlers(FreshDeck()) == 3
  {
    var sp, he, di, cl, tr := SuitRun(Spades, 14), SuitRun(Hearts, 14), SuitRun(Diamonds, 14), SuitRun(Clubs, 14), SuitRun(Trumps, 22);
    FreshDeckRuns();
    OudlersAdditive(sp + he + di + cl, tr);
    OudlersAdditive(sp + he + di, cl);
    OudlersAdditive(sp + he, di);
    OudlersAdditive(sp, he);
    PlainNoOudlers(Spades, 14);
    PlainNoOudlers(Hearts, 14);
    PlainNoOudlers(Diamonds, 14);
    PlainNoOudlers(Clubs, 14);
    TrumpOudlers();
  }

  /** No card occurs twice in the fresh deck. */
  lemma FreshDeckDistinct()
    ensures Distinct(FreshDeck())
  {
    var sp, he, di, cl, tr := SuitRun(Spades, 14), SuitRun(Hearts, 14), SuitRun(Diamonds, 14), SuitRun(Clubs, 14), SuitRun(Trumps, 22);
    FreshDeckRuns();
    RunDistinct(Spades, 14);
    RunDistinct(Hearts, 14);
    RunDistinct(Diamonds, 14);
    RunDistinct(Clubs, 14);
    RunDistinct(Trumps, 22);
    DistinctConcat(sp, he);
    DistinctConcat(sp + he, di);
    DistinctConcat(sp + he + di, cl);
    DistinctConcat(sp + he + di + cl, tr);
  }

  /** The fresh deck: 78 cards, 22 trumps, 14 of each plain suit, 91
      points, 3 oudlers, and no card twice. */
  lemma FreshDeckFacts()
    ensures |FreshDeck()| == TotalCards
    ensures CountSuit(FreshDeck(), Trumps) == NumberTrumpCards
    ensures forall s :: s != Trumps ==> CountSuit(FreshDeck(), s) == NumberCardsBySuit
    ensures ComputePoints(FreshDeck()) == 182
    ensures ComputeOudlers(FreshDeck()) == 3
    ensures Distinct(FreshDeck())
  {
    FreshDeckRuns();
    forall s
      ensures CountSuit(FreshDeck(), s) == if s == Trumps then NumberTrumpCards else NumberCardsBySuit
    {
      FreshDeckCounts(s);
    }
    FreshDeckPoints();
    FreshDeckOudlers();
    FreshDeckDistinct();
  }

  /** `create_deck` up to the shuffle: the plain suits from
      `generate_suit_cards`, then the trumps from `generate_trump_cards`. */
  method CreateDeck() returns (deck: seq<Card>)
    ensures deck == FreshDeck()
    ensures |deck| == TotalCards && Distinct(deck)
    ensures CountSuit(deck, Trumps) == NumberTrumpCards
    ensures forall s :: s != Trumps ==> CountSuit(deck, s) == NumberCardsBySuit
    ensures ComputePoints(deck) == 182 && ComputeOudlers(deck) == 3
  {
    var plain := GenerateCards(PlainSuits, NumberCardsBySuit);
    var trumps := GenerateCards([Trumps], NumberTrumpCards);
    deck := plain + trumps;
    FreshDeckFacts();
  }

  /** Whatever order the shuffle leaves, the deck keeps its size, its suit
      counts, its 91 points, its 3 oudlers and its distinct cards. */
  lemma ShuffledDeckFacts(deck: seq<Card>)
    requires multiset(deck) == multiset(FreshDeck())
    ensures |deck| == TotalCards && Distinct(deck)
    ensures forall s :: CountSuit(deck, s) == CountSuit(FreshDeck(), s)
    ensures CountSuit(deck, Trumps) == NumberTrumpCards
    ensures ComputePoints(deck) == 182 && ComputeOudlers(deck) == 3
  {
    FreshDeckFacts();
    assert |deck| == |multiset(deck)| == |multiset(FreshDeck())| == |FreshDeck()|;
    forall s
      ensures CountSuit(deck, s) == CountSuit(FreshDeck(), s)
    {
      FilterPermutation(deck, FreshDeck(), OfSuit(s));
    }
    PointsPermutation(deck, FreshDeck());
    OudlersPermutation(deck, FreshDeck());
    DistinctMultiset(deck);
    DistinctMultiset(FreshDeck());
  }

  /** `split_deck` with the cut index `k` drawn from [1, 75): the cards from
      the cut on, then the cards above it. A cut past the end of a shorter
      deck is an out-of-range slice in the source. */
  function SplitDeck(deck: seq<Card>, k: nat): (r: Option<seq<Card>>)
    requires 1 <= k < MaxNumberCardsSplit
    ensures r.Some? <==> k <= |deck|
    ensures r.Some? ==> |r.value| == |deck| && multiset(r.value) == multiset(deck)
    ensures r.Some? ==> forall i :: 0 <= i < |deck| ==> r.value[i] == deck[(i + k) % |deck|]
  {
    if k <= |deck| then Some(Rotate(deck, k)) else None
  }

  /** On a deck of distinct cards, a cut strictly inside the deck brings a
      new card to the top and a new card to the bottom. */
  lemma SplitChangesEnds(deck: seq<Card>, k: nat)
    requires Distinct(deck)
    requires 1 <= k < MaxNumberCardsSplit && k < |deck|
    ensures SplitDeck(deck, k).Some?
    ensures SplitDeck(deck, k).value[0] != deck[0]
    ensures SplitDeck(deck, k).value[|deck| - 1] != deck[|deck| - 1]
  {
    var r := SplitDeck(deck, k).value;
    DivModUnique(k, |deck|, 0, k);
    DivModUnique(|deck| - 1 + k, |deck|, 1, k - 1);
    assert r[0] == deck[k];
    assert r[|deck| - 1] == deck[k - 1];
  }
}
