/** The table of `src/common/game.rs`: creating the players, finding and
    passing on the dealer, reordering the players so the one after the
    dealer plays first, and gathering the cards back into a deck. The
    random first dealer is a parameter `pick`, the index
    `random_int_in_range(0, len)` would return. */
module GameTable {
  import opened Wrappers
  import opened CardModel
  import opened Decimal
  import opened Utils
  import opened Players
  import opened DeckModel

  datatype Game = Game(players: seq<Player>, deck: seq<Card>)

  /** The name `generate_players` gives player `i`. */
  function PlayerName(i: nat): string {
    "Player " + NatToString(i)
  }

  /** Different players get different names. */
  lemma PlayerNameInjective(i: nat, j: nat)
    ensures PlayerName(i) == PlayerName(j) ==> i == j
  {
    if PlayerName(i) == PlayerName(j) {
      assert PlayerName(i)[7..] == NatToString(i);
      assert PlayerName(j)[7..] == NatToString(j);
      NatToStringInjective(i, j);
    }
  }

  /** `generate_players`: players 1..n, named "Player i", with only the
      first one human and nobody dealing yet. */
  method GeneratePlayers(n: U8) returns (players: seq<Player>)
    ensures |players| == n
    ensures forall k :: 0 <= k < n ==> players[k].id == k + 1 && players[k].name == PlayerName(k + 1)
    ensures forall k :: 0 <= k < n ==> (players[k].isHuman <==> k == 0)
    ensures forall k :: 0 <= k < n ==> !players[k].isDealer && players[k].cards == [] && players[k].hand == Hand([], [])
    ensures forall k, l :: 0 <= k < l < n ==> players[k].name != players[l].name
  {
    players := [];
    var i := 1;
    while i <= n
      invariant 1 <= i <= n + 1
      invariant |players| == i - 1
      invariant forall k :: 0 <= k < i - 1 ==> players[k] == NewPlayer(PlayerName(k + 1), k + 1).(isHuman := k == 0)
    {
      var player := NewPlayer(PlayerName(i), i);
      player := player.(isHuman := i == 1);
      players := players + [player];
      i := i + 1;
    }
    forall k, l | 0 <= k < l < n
      ensures players[k].name != players[l].name
    {
      PlayerNameInjective(k + 1, l + 1);
    }
  }

  /** Exactly one player deals, the one at `d`. */
  predicate OnlyDealer(players: seq<Player>, d: nat) {
    d < |players| && forall i :: 0 <= i < |players| ==> (players[i].isDealer <==> i == d)
  }

  /** `set_first_dealer` with the random index as `pick`. An empty table
      gives `gen_range` an empty range, which panics. */
  function SetFirstDealer(players: seq<Player>, pick: nat): (r: Option<seq<Player>>)
    requires |players| == 0 || pick < |players|
    ensures r.Some? <==> |players| > 0
    ensures r.Some? && (forall i :: 0 <= i < |players| ==> !players[i].isDealer) ==> OnlyDealer(r.value, pick)
    ensures r.Some? ==> |r.value| == |players| && forall i :: 0 <= i < |players| ==> r.value[i] == players[i].(isDealer := r.value[i].isDealer)
  {
    if |players| == 0 then None else Some(players[pick := players[pick].(isDealer := true)])
  }

  /** `create_players`: the generated players with the first dealer set. */
  method CreatePlayers(n: U8, pick: nat) returns (r: Option<seq<Player>>)
    requires n == 0 || pick < n
    ensures r.Some? <==> n > 0
    ensures r.Some? ==> |r.value| == n && OnlyDealer(r.value, pick)
    ensures r.Some? ==> forall k :: 0 <= k < n ==> r.value[k].id == k + 1 && (r.value[k].isHuman <==> k == 0)
  {
    var players := GeneratePlayers(n);
    r := SetFirstDealer(players, pick);
  }

  /** `Game::new`: the players, and the deck as `create_deck` leaves it
      before the shuffle. */
  method NewGame(n: U8, pick: nat) returns (r: Option<Game>)
    requires n == 0 || pick < n
    ensures r.Some? <==> n > 0
    ensures r.Some? ==> |r.value.players| == n && OnlyDealer(r.value.players, pick)
    ensures r.Some? ==> r.value.deck == FreshDeck() && |r.value.deck| == TotalCards
  {
    var players := CreatePlayers(n, pick);
    var deck := CreateDeck();
    if players.None? {
      return None;
    }
    r := Some(Game(players.value, deck));
  }

  /** `find_dealer`: the first dealer's index; `unwrap` panics when nobody
      deals. */
  function FindDealer(players: seq<Player>): (r: Option<nat>)
    ensures r.None? <==> forall i :: 0 <= i < |players| ==> !players[i].isDealer
    ensures r.Some? ==> r.value < |players| && players[r.value].isDealer
    ensures r.Some? ==> forall i :: 0 <= i < r.value ==> !players[i].isDealer
  {
    if |players| == 0 then None
    else if players[0].isDealer then Some(0)
    else match FindDealer(players[1..])
      case None => None
      case Some(i) => Some(i + 1)
  }

  /** With a single dealer, `find_dealer` finds it. */
  lemma FindOnlyDealer(players: seq<Player>, d: nat)
    requires OnlyDealer(players, d)
    ensures FindDealer(players) == Some(d)
  {
    assert players[d].isDealer;
  }

  /** `update_dealer`: the dealer's flag is cleared, then the next player's
      flag is set. */
  function UpdateDealer(players: seq<Player>): (r: Option<seq<Player>>)
    ensures r.Some? <==> FindDealer(players).Some?
    ensures r.Some? ==> |r.value| == |players|
    ensures r.Some? ==> forall i :: 0 <= i < |players| ==> r.value[i] == players[i].(isDealer := r.value[i].isDealer)
    ensures forall d: nat :: OnlyDealer(players, d) ==> r.Some? && OnlyDealer(r.value, GetNextIndex(players, d))
  {
    match FindDealer(players)
    case None =>
      assert forall d: nat :: d < |players| && OnlyDealer(players, d) ==> players[d].isDealer;
      None
    case Some(index) =>
      var cleared := players[index := players[index].(isDealer := false)];
      var next := GetNextIndex(cleared, index);
      Some(cleared[next := cleared[next].(isDealer := true)])
  }

  /** Passing the deal round the whole table brings it back to the first
      dealer. */
  lemma {:induction false} UpdateDealerCycles(players: seq<Player>, d: nat, k: nat)
    requires OnlyDealer(players, d)
    ensures UpdateDealerTimes(players, k).Some?
    ensures OnlyDealer(UpdateDealerTimes(players, k).value, IterateNext(players, d, k))
    ensures |UpdateDealerTimes(players, k).value| == |players|
  {
    if k > 0 {
      UpdateDealerCycles(players, d, k - 1);
      var before := UpdateDealerTimes(players, k - 1).value;
      assert GetNextIndex(before, IterateNext(players, d, k - 1)) == GetNextIndex(players, IterateNext(players, d, k - 1));
    }
  }

  /** `k` successive calls of `update_dealer`. */
  function UpdateDealerTimes(players: seq<Player>, k: nat): Option<seq<Player>> {
    if k == 0 then Some(players)
    else match UpdateDealerTimes(players, k - 1)
      case None => None
      case Some(ps) => UpdateDealer(ps)
  }

  /** After one round of the table the original dealer deals again. */
  lemma UpdateDealerFullRound(players: seq<Player>, d: nat)
    requires OnlyDealer(players, d)
    ensures UpdateDealerTimes(players, |players|) .Some?
    ensures OnlyDealer(UpdateDealerTimes(players, |players|).value, d)
  {
    UpdateDealerCycles(players, d, |players|);
    FullCycleReturns(players, d);
  }

  /** `reorder_players`: the table rotated so that the player after the
      (first) dealer comes first. */
  function ReorderPlayers(players: seq<Player>): (r: Option<seq<Player>>)
    ensures r.Some? <==> FindDealer(players).Some?
    ensures r.Some? ==> |r.value| == |players| && multiset(r.value) == multiset(players)
    ensures forall d: nat :: OnlyDealer(players, d) ==>
      r.Some? && r.value[0] == players[GetNextIndex(players, d)] && r.value[|players| - 1] == players[d]
  {
    match FindDealer(players)
    case None =>
      assert forall d: nat :: d < |players| && OnlyDealer(players, d) ==> players[d].isDealer;
      None
    case Some(dealer) => Some(Rotate(players, GetNextIndex(players, dealer)))
  }

  /** The reordered table is the original one read from the player after
      the dealer round to the dealer. */
  lemma ReorderIsRotation(players: seq<Player>, d: nat)
    requires OnlyDealer(players, d)
    ensures ReorderPlayers(players).Some?
    ensures forall i :: 0 <= i < |players| ==>
      ReorderPlayers(players).value[i] == players[(d + 1 + i) % |players|]
  {
    var n := |players|;
    FindOnlyDealer(players, d);
    var start := GetNextIndex(players, d);
    var r := ReorderPlayers(players).value;
    assert r == Rotate(players, start);
    forall i | 0 <= i < n
      ensures r[i] == players[(d + 1 + i) % n]
    {
      ShiftAfter(d, n, i);
    }
  }

  /** Starting one seat after `d` and walking `i` seats lands `d + 1 + i`
      seats on, modulo the table size. */
  lemma ShiftAfter(d: nat, n: nat, i: nat)
    requires d < n && i < n
    ensures (i + (if d < n - 1 then d + 1 else 0)) % n == (d + 1 + i) % n
  {
    if d == n - 1 {
      DivModUnique(d + 1 + i, n, 1, i);
      DivModUnique(i, n, 0, i);
    }
  }

  /** The cards a player gives back: the hand if it still holds cards,
      otherwise the won cards. */
  function ReturnedCards(p: Player): seq<Card> {
    if |p.hand.cards| > 0 then p.hand.cards else p.hand.wonCards
  }

  /** `collect_deck`: every player's returned cards, in table order. */
  function CollectDeck(players: seq<Player>): (deck: seq<Card>)
    ensures forall i, c :: 0 <= i < |players| && c in ReturnedCards(players[i]) ==> c in deck
    ensures forall c :: c in deck ==> exists i :: 0 <= i < |players| && c in ReturnedCards(players[i])
  {
    if |players| == 0 then []
    else
      var rest := CollectDeck(players[1..]);
      assert forall i :: 1 <= i < |players| ==> players[i] == players[1..][i - 1];
      ReturnedCards(players[0]) + rest
  }

  /** Collecting two groups of players gives the two collections in turn. */
  lemma {:induction false} CollectDeckAppend(a: seq<Player>, b: seq<Player>)
    ensures CollectDeck(a + b) == CollectDeck(a) + CollectDeck(b)
  {
    if |a| > 0 {
      assert (a + b)[1..] == a[1..] + b;
      CollectDeckAppend(a[1..], b);
    } else {
      assert a + b == b;
    }
  }

  /** Once every trick is played, the collected deck is the won piles. */
  lemma {:induction false} CollectWonCards(players: seq<Player>)
    requires forall i :: 0 <= i < |players| ==> players[i].hand.cards == []
    ensures |CollectDeck(players)| == WonTotal(players)
  {
    if |players| > 0 {
      CollectWonCards(players[1..]);
    }
  }

  /** The number of won cards over the table. */
  function WonTotal(players: seq<Player>): nat {
    if |players| == 0 then 0 else |players[0].hand.wonCards| + WonTotal(players[1..])
  }
}
