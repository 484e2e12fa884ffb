/** The trick engine of `src/common/trick.rs`: the led suit, the left-to-right
    scan for the winning card, the led-suit filter `allowed_cards_to_play`,
    and the legality rule its comments and tests/trick_test.rs describe. */
module TrickEngine {
  import opened Wrappers
  import opened CardModel
  import opened Utils

  /** `played_suit`: the suit of the first card, if any. */
  function PlayedSuit(trick: seq<Card>): (r: Option<Suit>)
    ensures r.None? <==> |trick| == 0
    ensures r.Some? ==> r.value == trick[0].suit
  {
    if |trick| == 0 then None else Some(trick[0].suit)
  }

  /** `w` is where the scan stops: no card of the trick beats it under the
      led suit, and it strictly beats every card played before it (so it is
      the earliest unbeaten card). */
  ghost predicate IsWinner(trick: seq<Card>, w: nat) {
    && w < |trick|
    && (forall j :: 0 <= j < |trick| ==> !IsSuperior(trick[j], trick[w], PlayedSuit(trick)))
    && (forall j :: 0 <= j < w ==> IsSuperior(trick[w], trick[j], PlayedSuit(trick)))
  }

  /** The best index among the first `k` cards, scanning left to right and
      moving only on a strictly superior card. */
  function ScanBest(trick: seq<Card>, led: Option<Suit>, k: nat): (b: nat)
    requires 1 <= k <= |trick|
    ensures b < k
    ensures forall j :: 0 <= j < k ==> !IsSuperior(trick[j], trick[b], led)
    ensures forall j :: 0 <= j < b ==> IsSuperior(trick[b], trick[j], led)
  {
    if k == 1 then 0
    else
      var b := ScanBest(trick, led, k - 1);
      if IsSuperior(trick[k - 1], trick[b], led) then k - 1 else b
  }

  /** `get_best_played_card_index` as a function. */
  function BestPlayedCardIndex(trick: seq<Card>): (r: Option<nat>)
    ensures r.None? <==> |trick| == 0
    ensures r.Some? ==> IsWinner(trick, r.value)
  {
    if |trick| == 0 then None else Some(ScanBest(trick, PlayedSuit(trick), |trick|))
  }

  /** `get_best_played_card_index`: the loop of the source, from index 0
      (the first comparison is the lead card against itself). */
  method GetBestPlayedCardIndex(trick: seq<Card>) returns (r: Option<nat>)
    ensures r.None? <==> |trick| == 0
    ensures r.Some? ==> r.value < |trick|
    ensures r.Some? ==> forall j :: 0 <= j < |trick| ==> !IsSuperior(trick[j], trick[r.value], PlayedSuit(trick))
    ensures r.Some? ==> forall j :: 0 <= j < r.value ==> IsSuperior(trick[r.value], trick[j], PlayedSuit(trick))
    ensures r == BestPlayedCardIndex(trick)
  {
    if |trick| == 0 {
      return None;
    }
    var best := 0;
    var led := PlayedSuit(trick);
    var index := 0;
    while index < |trick|
      invariant 0 <= index <= |trick|
      invariant best < |trick| && best <= index
      invariant forall j :: 0 <= j < index ==> !IsSuperior(trick[j], trick[best], led)
      invariant forall j :: 0 <= j < best ==> IsSuperior(trick[best], trick[j], led)
      invariant index >= 1 ==> best == ScanBest(trick, led, index)
    {
      if IsSuperior(trick[index], trick[best], led) {
        best := index;
      }
      index := index + 1;
    }
    r := Some(best);
  }

  /** At most one index satisfies the winner conditions, so the function and
      the loop agree. */
  lemma WinnerUnique(trick: seq<Card>, v: nat, w: nat)
    requires IsWinner(trick, v) && IsWinner(trick, w)
    ensures v == w
  {
    var led := PlayedSuit(trick);
    assert !IsSuperior(trick[w], trick[v], led);
    assert !IsSuperior(trick[v], trick[w], led);
  }

  /** The winner is never an off-suit discard: it follows the led suit or is
      a trump. */
  lemma WinnerFollowsSuitOrTrumps(trick: seq<Card>, w: nat)
    requires IsWinner(trick, w)
    ensures trick[w].suit == trick[0].suit || IsTrump(trick[w])
  {
    var led := PlayedSuit(trick);
    assert !IsSuperior(trick[0], trick[w], led);
    assert Strength(trick[0], led) >= 256;
  }

  /** The vectors of tests/trick_test.rs. */
  lemma TrickTestVectors()
    ensures BestPlayedCardIndex([]) == None
    ensures BestPlayedCardIndex([Card(Clubs, 2), Card(Clubs, 14)]) == Some(1)
    ensures BestPlayedCardIndex([Card(Clubs, 14), Card(Trumps, 2), Card(Clubs, 2), Card(Hearts, 2)]) == Some(1)
    ensures BestPlayedCardIndex([Card(Clubs, 8), Card(Clubs, 10), Card(Clubs, 14), Card(Clubs, 2), Card(Clubs, 1)]) == Some(2)
    ensures BestPlayedCardIndex([Card(Trumps, 8), Card(Trumps, 10), Card(Trumps, 14), Card(Trumps, 2), Card(Trumps, 1)]) == Some(2)
    ensures BestPlayedCardIndex([Card(Trumps, 2), Card(Clubs, 2)]) == Some(0)
  {
    var t := [Card(Clubs, 14), Card(Trumps, 2), Card(Clubs, 2), Card(Hearts, 2)];
    assert ScanBest(t, Some(Clubs), 2) == 1;
    assert ScanBest(t, Some(Clubs), 3) == 1;
    var u := [Card(Clubs, 8), Card(Clubs, 10), Card(Clubs, 14), Card(Clubs, 2), Card(Clubs, 1)];
    assert ScanBest(u, Some(Clubs), 2) == 1;
    assert ScanBest(u, Some(Clubs), 3) == 2;
    assert ScanBest(u, Some(Clubs), 4) == 2;
    var v := [Card(Trumps, 8), Card(Trumps, 10), Card(Trumps, 14), Card(Trumps, 2), Card(Trumps, 1)];
    assert ScanBest(v, Some(Trumps), 2) == 1;
    assert ScanBest(v, Some(Trumps), 3) == 2;
    assert ScanBest(v, Some(Trumps), 4) == 2;
  }

  /** `allowed_cards_to_play` as written: the whole hand when the trick is
      empty, otherwise only the hand's cards of the led suit, in hand order.
      It knows nothing about trumping or overtaking. */
  function AllowedCardsToPlay(trick: seq<Card>, hand: seq<Card>): (r: seq<Card>)
    ensures |trick| == 0 ==> r == hand
    ensures SubsequenceOf(r, hand)
    ensures |trick| > 0 ==> forall i :: 0 <= i < |r| ==> r[i].suit == trick[0].suit
    ensures |trick| > 0 ==> forall c: Card ::
      multiset(r)[c] == if c.suit == trick[0].suit then multiset(hand)[c] else 0
  {
    match PlayedSuit(trick)
    case None =>
      SubsequenceReflexive(hand);
      hand
    case Some(led) =>
      var keep := (c: Card) => c.suit == led;
      forall c: Card
        ensures multiset(Filter(hand, keep))[c] == if c.suit == led then multiset(hand)[c] else 0
      {
        FilterMultiplicity(hand, keep, c);
      }
      FilterSubsequence(hand, keep);
      Filter(hand, keep)
  }

  predicate HoldsSuit(hand: seq<Card>, s: Suit) {
    exists i :: 0 <= i < |hand| && hand[i].suit == s
  }

  /** A trump higher than every trump already in the trick. */
  predicate Overtakes(c: Card, trick: seq<Card>) {
    IsTrump(c) && forall j :: 0 <= j < |trick| && IsTrump(trick[j]) ==> c.rank > trick[j].rank
  }

  predicate HoldsOvertakingTrump(hand: seq<Card>, trick: seq<Card>) {
    exists i :: 0 <= i < |hand| && Overtakes(hand[i], trick)
  }

  /** The play rule the source states in comments and tests but never
      implements: the card must be in hand; anything may lead; a held led
      plain suit must be followed, else a held trump must be played (whether
      it must overtake an earlier trump is left open); on a trump lead an
      overtaking trump is forced when one is held, else any trump, and with
      neither the led suit nor a trump anything goes. */
  function IsLegalPlay(trick: seq<Card>, hand: seq<Card>, c: Card): (r: bool)
    ensures r ==> c in hand
    ensures |trick| == 0 ==> (r <==> c in hand)
    ensures |trick| > 0 && trick[0].suit != Trumps && HoldsSuit(hand, trick[0].suit) ==>
      (r <==> c in hand && c.suit == trick[0].suit)
    ensures |trick| > 0 && !HoldsSuit(hand, trick[0].suit) && HoldsSuit(hand, Trumps) && r ==> IsTrump(c)
    ensures |trick| > 0 && IsTrump(trick[0]) && HoldsOvertakingTrump(hand, trick) ==>
      (r <==> c in hand && Overtakes(c, trick))
    ensures |trick| > 0 && IsTrump(trick[0]) && HoldsSuit(hand, Trumps) && r ==> IsTrump(c)
    ensures |trick| > 0 && IsTrump(trick[0]) && !HoldsOvertakingTrump(hand, trick) && HoldsSuit(hand, Trumps) ==>
      (r <==> c in hand && IsTrump(c))
    ensures |trick| > 0 && !IsTrump(trick[0]) && !HoldsSuit(hand, trick[0].suit) && HoldsSuit(hand, Trumps) ==>
      (r <==> c in hand && IsTrump(c))
    ensures |trick| > 0 && !HoldsSuit(hand, trick[0].suit) && !HoldsSuit(hand, Trumps) ==> (r <==> c in hand)
  {
    && c in hand
    && match PlayedSuit(trick)
       case None => true
       case Some(led) =>
         if led != Trumps then
           if HoldsSuit(hand, led) then c.suit == led
           else if HoldsSuit(hand, Trumps) then IsTrump(c)
           else true
         else
           if HoldsOvertakingTrump(hand, trick) then Overtakes(c, trick)
           else if HoldsSuit(hand, Trumps) then IsTrump(c)
           else true
  }

  /** A player with cards always has a legal play. */
  lemma LegalPlayExists(trick: seq<Card>, hand: seq<Card>)
    requires |hand| > 0
    ensures exists c :: c in hand && IsLegalPlay(trick, hand, c)
  {
    match PlayedSuit(trick)
    case None =>
      assert IsLegalPlay(trick, hand, hand[0]);
    case Some(led) =>
      if led != Trumps && HoldsSuit(hand, led) {
        var i :| 0 <= i < |hand| && hand[i].suit == led;
        assert IsLegalPlay(trick, hand, hand[i]);
      } else if led == Trumps && HoldsOvertakingTrump(hand, trick) {
        var i :| 0 <= i < |hand| && Overtakes(hand[i], trick);
        assert IsLegalPlay(trick, hand, hand[i]);
      } else if HoldsSuit(hand, Trumps) {
        var i :| 0 <= i < |hand| && hand[i].suit == Trumps;
        assert IsLegalPlay(trick, hand, hand[i]);
      } else {
        assert IsLegalPlay(trick, hand, hand[0]);
      }
  }

  /** Where the led-suit filter and the rule coincide: on an empty trick, and
      when the player holds the led plain suit. */
  lemma AllowedMatchesRuleWhenFollowing(trick: seq<Card>, hand: seq<Card>, c: Card)
    requires |trick| == 0 || (trick[0].suit != Trumps && HoldsSuit(hand, trick[0].suit))
    ensures IsLegalPlay(trick, hand, c) <==> c in AllowedCardsToPlay(trick, hand)
  {
    var r := AllowedCardsToPlay(trick, hand);
    if |trick| > 0 {
      assert c in r <==> multiset(r)[c] > 0;
      assert c in hand <==> multiset(hand)[c] > 0;
    }
  }

  /** On a trump lead, overtaking means beating the trick's current winner. */
  lemma OvertakesMeansBeatsWinner(trick: seq<Card>, c: Card)
    requires |trick| > 0 && IsTrump(trick[0])
    ensures Overtakes(c, trick) <==> IsTrump(c) && IsSuperior(c, trick[BestPlayedCardIndex(trick).value], Some(Trumps))
  {
    var w := BestPlayedCardIndex(trick).value;
    var led := PlayedSuit(trick);
    assert !IsSuperior(trick[0], trick[w], led);
    assert IsTrump(trick[w]);
    if IsTrump(c) && IsSuperior(c, trick[w], Some(Trumps)) {
      forall j | 0 <= j < |trick| && IsTrump(trick[j])
        ensures c.rank > trick[j].rank
      {
        assert !IsSuperior(trick[j], trick[w], led);
      }
    }
  }

  /** The legality vectors of tests/trick_test.rs. */
  lemma LegalityTestVectors()
    ensures !IsLegalPlay([], [Card(Clubs, 14), Card(Trumps, 2), Card(Clubs, 2), Card(Hearts, 2)], Card(Hearts, 14))
    ensures IsLegalPlay([], [Card(Clubs, 14), Card(Trumps, 2), Card(Clubs, 2), Card(Hearts, 2)], Card(Clubs, 14))
    ensures IsLegalPlay([Card(Clubs, 8)], [Card(Clubs, 14), Card(Trumps, 2), Card(Clubs, 2), Card(Hearts, 2)], Card(Clubs, 14))
    ensures !IsLegalPlay([Card(Clubs, 8)], [Card(Clubs, 14), Card(Trumps, 2), Card(Clubs, 2), Card(Hearts, 2)], Card(Hearts, 2))
    ensures !IsLegalPlay([Card(Trumps, 8)], [Card(Clubs, 14), Card(Trumps, 2), Card(Clubs, 2), Card(Hearts, 2)], Card(Hearts, 2))
    ensures IsLegalPlay([Card(Trumps, 8)], [Card(Clubs, 14), Card(Trumps, 2), Card(Clubs, 2), Card(Hearts, 2)], Card(Trumps, 2))
    ensures IsLegalPlay([Card(Trumps, 8)], [Card(Trumps, 14), Card(Trumps, 2), Card(Clubs, 2), Card(Hearts, 2)], Card(Trumps, 14))
    ensures !IsLegalPlay([Card(Trumps, 8)], [Card(Trumps, 14), Card(Trumps, 2), Card(Clubs, 2), Card(Hearts, 2)], Card(Trumps, 2))
    ensures IsLegalPlay([Card(Trumps, 8)], [Card(Clubs, 2), Card(Hearts, 2)], Card(Hearts, 2))
  {
    var h := [Card(Clubs, 14), Card(Trumps, 2), Card(Clubs, 2), Card(Hearts, 2)];
    assert h[0].suit == Clubs;
    assert h[1].suit == Trumps;
    var h2 := [Card(Trumps, 14), Card(Trumps, 2), Card(Clubs, 2), Card(Hearts, 2)];
    assert Overtakes(h2[0], [Card(Trumps, 8)]);
    var h3 := [Card(Clubs, 2), Card(Hearts, 2)];
    assert !HoldsSuit(h3, Trumps);
  }
}
