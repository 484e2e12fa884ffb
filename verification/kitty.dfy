/** The kitty of `src/common/kitty.rs`: its size by number of players, and
    the two ways a taker composes it. The human prompt is an oracle
    `choose(k)`: the index the taker picks at the k-th prompt. */
module KittyRules {
  import opened Wrappers
  import opened CardModel

  /** `get_max_size_kitty`: 6 cards for 2..4 players, 3 for 5 or more, none
      for fewer than 2. */
  function GetMaxSizeKitty(nPlayers: nat): (r: nat)
    ensures r <= 6 && r % 3 == 0
    ensures r == 0 <==> nPlayers < 2
    ensures r == 3 <==> nPlayers >= 5
  {
    if 2 <= nPlayers <= 4 then 6 else if nPlayers >= 5 then 3 else 0
  }

  /** The cases of tests/deal_tests.rs. */
  lemma MaxSizeKittyTestVectors()
    ensures GetMaxSizeKitty(1) == 0 && GetMaxSizeKitty(2) == 6 && GetMaxSizeKitty(3) == 6
    ensures GetMaxSizeKitty(4) == 6 && GetMaxSizeKitty(5) == 3 && GetMaxSizeKitty(6) == 3
    ensures GetMaxSizeKitty(7) == 3
  {
  }

  datatype Kitty = Kitty(cards: seq<Card>, maxSize: nat)

  /** `Kitty::new`: empty, sized for the table. */
  function NewKitty(nPlayers: nat): (k: Kitty)
    ensures k.cards == []
    ensures k.maxSize <= 6 && (k.maxSize == 0 <==> nPlayers < 2)
  {
    Kitty([], GetMaxSizeKitty(nPlayers))
  }

  /** `bot_compose`: the bot hands back the cards it was given. */
  function BotCompose(kitty: Kitty, cards: seq<Card>): (r: seq<Card>)
    ensures r == cards
  {
    cards
  }

  datatype ComposeError = IndexOutOfBounds

  /** `human_compose`: prompt until the new kitty holds `max_size` cards,
      each time taking `cards[index]` for the index the taker chose. An
      index past the end of the hand panics in the source. On success the
      kitty's cards and the returned vector are the same sequence. */
  method HumanCompose(kitty: Kitty, cards: seq<Card>, choose: nat -> nat)
    returns (r: Result<(Kitty, seq<Card>), ComposeError>)
    ensures r.Success? <==> forall k :: 0 <= k < kitty.maxSize ==> choose(k) < |cards|
    ensures r.Success? ==> r.value.0 == kitty.(cards := r.value.1)
    ensures r.Success? ==> |r.value.1| == kitty.maxSize
    ensures r.Success? ==> forall k :: 0 <= k < kitty.maxSize ==> r.value.1[k] == cards[choose(k)]
  {
    var newKitty: seq<Card> := [];
    while |newKitty| < kitty.maxSize
      invariant |newKitty| <= kitty.maxSize
      invariant forall k :: 0 <= k < |newKitty| ==> choose(k) < |cards| && newKitty[k] == cards[choose(k)]
    {
      var index := choose(|newKitty|);
      if index >= |cards| {
        return Failure(IndexOutOfBounds);
      }
      newKitty := newKitty + [cards[index]];
    }
    r := Success((kitty.(cards := newKitty), newKitty));
  }
}
