/** The deal of `src/common/deal.rs`: passing the dealer flag on by
    toggling, the packet sizes, the kitty-or-player draw and the dealing
    loop `deal_cards`. `find_dealer` and `reorder_players` are the same
    functions as in `src/common/game.rs` and are modelled once, in
    GameTable. The random draw is an oracle `draw(i)`: the value
    `rand::random` yields after the packet ending at deck index `i`. */
module DealRules {
  import opened Wrappers
  import opened CardModel
  import opened Utils
  import opened Players
  import opened KittyRules
  import opened GameTable

  const DealSizePlayers: nat := 3
  const DealSizeKitty: nat := 1

  /** `Dealing`: where the next packet goes. */
  datatype Dealing = ToKitty | ToPlayer

  /** `get_deal_size`: a single card to the kitty, three to a player. */
  function GetDealSize(dealing: Dealing): (r: nat)
    ensures 1 <= r <= 3
    ensures r == 1 <==> dealing == ToKitty
    ensures dealing == ToPlayer ==> r == DealSizePlayers
  {
    match dealing
    case ToKitty => DealSizeKitty
    case ToPlayer => DealSizePlayers
  }

  /** `get_kitty_expected_size`: a second copy of the kitty-size table. */
  function GetKittyExpectedSize(nPlayers: nat): (r: nat)
    ensures r == GetMaxSizeKitty(nPlayers)
  {
    if 2 <= nPlayers <= 4 then 6 else if nPlayers >= 5 then 3 else 0
  }

  /** `deal_kitty_or_player`: a full kitty sends the packet to a player;
      otherwise the draw decides. */
  function DealKittyOrPlayer(kitty: seq<Card>, expected: nat, random: Dealing): (r: Dealing)
    ensures |kitty| == expected ==> r == ToPlayer
    ensures |kitty| != expected ==> r == random
    ensures r == ToKitty ==> |kitty| != expected
  {
    if |kitty| == expected then ToPlayer else random
  }

  /** `toggle_is_dealer`. */
  function ToggleIsDealer(players: seq<Player>, index: nat): (r: seq<Player>)
    requires index < |players|
    ensures |r| == |players| && r[index].isDealer == !players[index].isDealer
    ensures forall i :: 0 <= i < |players| ==> r[i] == players[i].(isDealer := r[i].isDealer)
    ensures forall i :: 0 <= i < |players| && i != index ==> r[i] == players[i]
  {
    players[index := players[index].(isDealer := !players[index].isDealer)]
  }

  /** `patch_dealer`: toggle the dealer off and the next player on; the
      result holds the new table and a copy of the new dealer. */
  function PatchDealer(players: seq<Player>): (r: Option<(seq<Player>, Player)>)
    ensures r.Some? <==> FindDealer(players).Some?
    ensures r.Some? ==> |r.value.0| == |players|
    ensures r.Some? ==> forall i :: 0 <= i < |players| ==> r.value.0[i] == players[i].(isDealer := r.value.0[i].isDealer)
    ensures forall d: nat :: OnlyDealer(players, d) ==>
      r.Some? && OnlyDealer(r.value.0, GetNextIndex(players, d)) && r.value.1 == r.value.0[GetNextIndex(players, d)]
  {
    match FindDealer(players)
    case None =>
      assert forall d: nat :: d < |players| && OnlyDealer(players, d) ==> players[d].isDealer;
      None
    case Some(index) =>
      var off := ToggleIsDealer(players, index);
      var next := GetNextIndex(off, index);
      var on := ToggleIsDealer(off, next);
      Some((on, on[next]))
  }

  /** With a single dealer, toggling and setting agree: `patch_dealer` and
      `update_dealer` leave the same table. */
  lemma PatchDealerIsUpdateDealer(players: seq<Player>, d: nat)
    requires OnlyDealer(players, d)
    ensures PatchDealer(players).Some? && UpdateDealer(players).Some?
    ensures PatchDealer(players).value.0 == UpdateDealer(players).value
  {
    var a := PatchDealer(players).value.0;
    var b := UpdateDealer(players).value;
    var next := GetNextIndex(players, d);
    assert OnlyDealer(a, next) && OnlyDealer(b, next);
    forall i | 0 <= i < |players|
      ensures a[i] == b[i]
    {
      assert a[i] == players[i].(isDealer := a[i].isDealer);
      assert b[i] == players[i].(isDealer := b[i].isDealer);
    }
  }

  /** With two dealers side by side they differ: toggling switches the
      second one off and leaves nobody dealing. */
  lemma PatchDealerTwoDealers(p: Player, q: Player)
    requires p.isDealer && q.isDealer
    ensures FindDealer(PatchDealer([p, q]).value.0).None?
    ensures OnlyDealer(UpdateDealer([p, q]).value, 1)
  {
    var on := PatchDealer([p, q]).value.0;
    assert !on[0].isDealer && !on[1].isDealer;
  }

  /** The players' hands, clear of cards, as `clear_cards` leaves them. */
  function ClearCards(players: seq<Player>): (r: seq<Player>)
    ensures |r| == |players|
    ensures forall i :: 0 <= i < |players| ==> r[i] == players[i].(cards := [])
  {
    seq(|players|, i requires 0 <= i < |players| => players[i].(cards := []))
  }

  /** Every player's cards, in table order. */
  function HandsOf(players: seq<Player>): seq<Card> {
    if |players| == 0 then [] else HandsOf(players[..|players| - 1]) + players[|players| - 1].cards
  }

  lemma {:induction false} HandsOfCleared(players: seq<Player>)
    requires forall i :: 0 <= i < |players| ==> players[i].cards == []
    ensures HandsOf(players) == []
  {
    if |players| > 0 {
      HandsOfCleared(players[..|players| - 1]);
    }
  }

  /** Giving `extra` to player `p` adds exactly `extra` to the table's cards. */
  lemma {:induction false} HandsOfAdd(players: seq<Player>, p: nat, extra: seq<Card>)
    requires p < |players|
    ensures multiset(HandsOf(players[p := players[p].(cards := players[p].cards + extra)]))
      == multiset(HandsOf(players)) + multiset(extra)
  {
    var n := |players|;
    var after := players[p := players[p].(cards := players[p].cards + extra)];
    if p == n - 1 {
      assert after[..n - 1] == players[..n - 1];
    } else {
      var pre := players[..n - 1];
      assert after[..n - 1] == pre[p := pre[p].(cards := pre[p].cards + extra)];
      HandsOfAdd(pre, p, extra);
    }
  }

  datatype DealError = OutOfCards | NoPlayers

  /** One packet for player `pi`: the table's cards grow by the packet and
      every hand stays a subsequence of the dealt prefix. */
  lemma PlayerPacket(deck: seq<Card>, index: nat, end: nat, ps: seq<Player>, pi: nat)
    requires index <= end <= |deck| && pi < |ps|
    requires forall p :: 0 <= p < |ps| ==> SubsequenceOf(ps[p].cards, deck[..index])
    ensures var after := ps[pi := ps[pi].(cards := ps[pi].cards + deck[index..end])];
      && multiset(HandsOf(after)) == multiset(HandsOf(ps)) + multiset(deck[index..end])
      && forall p :: 0 <= p < |after| ==> SubsequenceOf(after[p].cards, deck[..end])
  {
    var chunk := deck[index..end];
    var after := ps[pi := ps[pi].(cards := ps[pi].cards + chunk)];
    HandsOfAdd(ps, pi, chunk);
    assert deck[..end] == deck[..index] + chunk;
    forall p | 0 <= p < |after|
      ensures SubsequenceOf(after[p].cards, deck[..end])
    {
      if p == pi {
        SubsequenceReflexive(chunk);
        SubsequenceAppend(ps[pi].cards, deck[..index], chunk, chunk);
      } else {
        SubsequenceExtendRight(ps[p].cards, deck[..index], chunk);
      }
    }
  }

  /** One packet for the kitty: the new part stays a subsequence of the
      dealt prefix and the hands are untouched. */
  lemma KittyPacket(deck: seq<Card>, index: nat, end: nat, kitty: seq<Card>, k: seq<Card>, ps: seq<Player>)
    requires index <= end <= |deck|
    requires |k| >= |kitty| && SubsequenceOf(k[|kitty|..], deck[..index])
    requires forall p :: 0 <= p < |ps| ==> SubsequenceOf(ps[p].cards, deck[..index])
    ensures (k + deck[index..end])[|kitty|..] == k[|kitty|..] + deck[index..end]
    ensures SubsequenceOf((k + deck[index..end])[|kitty|..], deck[..end])
    ensures forall p :: 0 <= p < |ps| ==> SubsequenceOf(ps[p].cards, deck[..end])
  {
    var chunk := deck[index..end];
    assert deck[..end] == deck[..index] + chunk;
    assert (k + chunk)[|kitty|..] == k[|kitty|..] + chunk;
    SubsequenceReflexive(chunk);
    SubsequenceAppend(k[|kitty|..], deck[..index], chunk, chunk);
    forall p | 0 <= p < |ps|
      ensures SubsequenceOf(ps[p].cards, deck[..end])
    {
      SubsequenceExtendRight(ps[p].cards, deck[..index], chunk);
    }
  }

  /** The state of the dealing loop: the hands, the kitty, the deck
      position, where the next packet goes and whose turn it is. */
  datatype Table = Table(ps: seq<Player>, kitty: seq<Card>, index: nat, dealing: Dealing, turn: nat)

  /** What holds before every packet, after `rounds` full rounds of the
      table. */
  ghost predicate DealInvariant(deck: seq<Card>, players: seq<Player>, kitty: seq<Card>, t: Table, rounds: nat) {
    && DealShape(deck, players, t)
    && DealtConserved(deck, kitty, t)
    && DealtInOrder(deck, kitty, t)
    && TurnSizes(t, rounds)
    && KittyControl(deck, players, kitty, t)
  }

  /** The position stays in the deck, the players keep everything but
      their cards, and the turn points at a player. */
  ghost predicate DealShape(deck: seq<Card>, players: seq<Player>, t: Table) {
    && t.index <= |deck|
    && |t.ps| == |players|
    && (forall p :: 0 <= p < |t.ps| ==> t.ps[p] == players[p].(cards := t.ps[p].cards))
    && (|t.ps| > 0 ==> t.turn < |t.ps|)
  }

  /** The cards dealt so far are `deck[..index]`, split between the hands
      and the end of the kitty. */
  ghost predicate DealtConserved(deck: seq<Card>, kitty: seq<Card>, t: Table)
    requires t.index <= |deck|
  {
    multiset(HandsOf(t.ps)) + multiset(t.kitty) == multiset(deck[..t.index]) + multiset(kitty)
  }

  /** The kitty starts with its old cards, and every hand and the new part
      of the kitty are in deck order. */
  ghost predicate DealtInOrder(deck: seq<Card>, kitty: seq<Card>, t: Table)
    requires t.index <= |deck|
  {
    && |t.kitty| >= |kitty| && t.kitty[..|kitty|] == kitty
    && SubsequenceOf(t.kitty[|kitty|..], deck[..t.index])
    && (forall p :: 0 <= p < |t.ps| ==> SubsequenceOf(t.ps[p].cards, deck[..t.index]))
  }

  /** Players before the turn have had one packet more than the rest. */
  ghost predicate TurnSizes(t: Table, rounds: nat) {
    forall p :: 0 <= p < |t.ps| ==>
      |t.ps[p].cards| == DealSizePlayers * rounds + (if p < t.turn then DealSizePlayers else 0)
  }

  /** The kitty never outgrows its expected size and, once full, sends every
      packet to the players. */
  ghost predicate KittyControl(deck: seq<Card>, players: seq<Player>, kitty: seq<Card>, t: Table) {
    var expected := GetKittyExpectedSize(|players|);
    && (|players| == 0 ==> t.index == 0 && t.dealing == ToPlayer)
    && (|kitty| <= expected ==> |t.kitty| <= expected)
    && (|t.kitty| == expected ==> t.dealing == ToPlayer)
    && (|kitty| == expected && |deck| % DealSizePlayers == 0 ==> t.kitty == kitty && t.index % DealSizePlayers == 0)
  }

  /** One pass of the `deal_cards` loop body: slice the next packet off the
      deck, hand it to the kitty or to the current player (whose turn then
      passes on), and draw where the following packet goes. */
  function DealStep(deck: seq<Card>, players: seq<Player>, t: Table, draw: nat -> Dealing): (r: Result<Table, DealError>)
    requires t.index < |deck|
    requires |t.ps| > 0 ==> t.turn < |t.ps|
    ensures r.Success? ==> r.value.index > t.index
    ensures r == Failure(OutOfCards) <==> t.index + GetDealSize(t.dealing) > |deck|
    ensures r == Failure(NoPlayers) <==>
      t.index + GetDealSize(t.dealing) <= |deck| && t.dealing == ToPlayer && |t.ps| == 0
    ensures r.Success? ==> r.value.index == t.index + GetDealSize(t.dealing)
    ensures r.Success? ==> |r.value.ps| == |t.ps| && (|t.ps| > 0 ==> r.value.turn < |t.ps|)
    ensures r.Success? ==> |r.value.kitty| == |t.kitty| + if t.dealing == ToKitty then DealSizeKitty else 0
  {
    var expected := GetKittyExpectedSize(|players|);
    var end := t.index + GetDealSize(t.dealing);
    if end > |deck| then Failure(OutOfCards)
    else
      var chunk := deck[t.index..end];
      match t.dealing
      case ToKitty =>
        var k := t.kitty + chunk;
        Success(Table(t.ps, k, end, DealKittyOrPlayer(k, expected, draw(end)), t.turn))
      case ToPlayer =>
        if |t.ps| == 0 then Failure(NoPlayers)
        else
          var ps := t.ps[t.turn := t.ps[t.turn].(cards := t.ps[t.turn].cards + chunk)];
          Success(Table(ps, t.kitty, end, DealKittyOrPlayer(t.kitty, expected, draw(end)), GetNextIndex(ps, t.turn)))
  }

  /** The round counter after a step: one more when the turn wrapped round. */
  function NextRounds(t: Table, after: Table, rounds: nat): nat {
    if t.dealing == ToPlayer && after.turn == 0 then rounds + 1 else rounds
  }

  /** A step keeps the invariant; it fails for want of players only on the
      first packet of a table with nobody at it, and never fails while the
      kitty is already full and the deck splits into whole packets. */
  lemma DealStepKeeps(deck: seq<Card>, players: seq<Player>, kitty: seq<Card>, t: Table, rounds: nat, draw: nat -> Dealing)
    requires DealInvariant(deck, players, kitty, t, rounds) && t.index < |deck|
    ensures DealStep(deck, players, t, draw).Success? ==>
      DealInvariant(deck, players, kitty, DealStep(deck, players, t, draw).value,
        NextRounds(t, DealStep(deck, players, t, draw).value, rounds))
    ensures DealStep(deck, players, t, draw) == Failure(NoPlayers) <==> |deck| >= DealSizePlayers && |players| == 0
    ensures |kitty| == GetKittyExpectedSize(|players|) && |deck| % DealSizePlayers == 0 && |players| > 0 ==>
      DealStep(deck, players, t, draw).Success?
  {
    if DealStep(deck, players, t, draw).Success? {
      if t.dealing == ToKitty {
        KittyStepKeeps(deck, players, kitty, t, rounds, draw);
      } else {
        PlayerStepKeeps(deck, players, kitty, t, rounds, draw);
      }
    }
    DealStepFailures(deck, players, kitty, t, draw);
  }

  /** When a step fails: for want of players exactly on a table with nobody
      at it and a first packet in the deck, and never while the kitty is
      full and the deck splits into whole packets. */
  lemma DealStepFailures(deck: seq<Card>, players: seq<Player>, kitty: seq<Card>, t: Table, draw: nat -> Dealing)
    requires DealShape(deck, players, t) && KittyControl(deck, players, kitty, t) && t.index < |deck|
    ensures DealStep(deck, players, t, draw) == Failure(NoPlayers) <==> |deck| >= DealSizePlayers && |players| == 0
    ensures |kitty| == GetKittyExpectedSize(|players|) && |deck| % DealSizePlayers == 0 && |players| > 0 ==>
      DealStep(deck, players, t, draw).Success?
  {
    if |kitty| == GetKittyExpectedSize(|players|) && |deck| % DealSizePlayers == 0 && |players| > 0 {
      WholePackets(t.index, |deck|);
    }
  }

  /** Two multiples of three, the first below the second, are at least
      three apart. */
  lemma WholePackets(i: nat, n: nat)
    requires i % 3 == 0 && n % 3 == 0 && i < n
    ensures i + 3 <= n
  {
    DivModUnique(i, 3, i / 3, 0);
    DivModUnique(n, 3, n / 3, 0);
  }

  lemma KittyStepKeeps(deck: seq<Card>, players: seq<Player>, kitty: seq<Card>, t: Table, rounds: nat, draw: nat -> Dealing)
    requires DealInvariant(deck, players, kitty, t, rounds) && t.index < |deck|
    requires t.dealing == ToKitty && DealStep(deck, players, t, draw).Success?
    ensures DealInvariant(deck, players, kitty, DealStep(deck, players, t, draw).value, rounds)
  {
    var end := t.index + DealSizeKitty;
    var k := t.kitty + deck[t.index..end];
    var dealing := DealKittyOrPlayer(k, GetKittyExpectedSize(|players|), draw(end));
    var after := Table(t.ps, k, end, dealing, t.turn);
    assert DealStep(deck, players, t, draw).value == after;
    KittyDealtConserved(deck, kitty, t, end, dealing);
    KittyDealtInOrder(deck, kitty, t, end, dealing);
    KittyControlKept(deck, players, kitty, t, dealing, draw(end));
  }

  lemma KittyDealtConserved(deck: seq<Card>, kitty: seq<Card>, t: Table, end: nat, dealing: Dealing)
    requires t.index <= end <= |deck| && DealtConserved(deck, kitty, t)
    ensures DealtConserved(deck, kitty, Table(t.ps, t.kitty + deck[t.index..end], end, dealing, t.turn))
  {
    var chunk := deck[t.index..end];
    assert deck[..end] == deck[..t.index] + chunk;
    calc {
      multiset(HandsOf(t.ps)) + multiset(t.kitty + chunk);
      (multiset(HandsOf(t.ps)) + multiset(t.kitty)) + multiset(chunk);
      (multiset(deck[..t.index]) + multiset(kitty)) + multiset(chunk);
      (multiset(deck[..t.index]) + multiset(chunk)) + multiset(kitty);
      multiset(deck[..end]) + multiset(kitty);
    }
  }

  lemma KittyDealtInOrder(deck: seq<Card>, kitty: seq<Card>, t: Table, end: nat, dealing: Dealing)
    requires t.index <= end <= |deck| && DealtInOrder(deck, kitty, t)
    ensures DealtInOrder(deck, kitty, Table(t.ps, t.kitty + deck[t.index..end], end, dealing, t.turn))
  {
    var chunk := deck[t.index..end];
    var k := t.kitty + chunk;
    KittyPacket(deck, t.index, end, kitty, t.kitty, t.ps);
    assert k[..|kitty|] == kitty;
  }

  lemma KittyControlKept(deck: seq<Card>, players: seq<Player>, kitty: seq<Card>, t: Table, dealing: Dealing, random: Dealing)
    requires KittyControl(deck, players, kitty, t) && t.dealing == ToKitty
    requires t.index < |deck| && t.index + DealSizeKitty <= |deck|
    requires dealing == DealKittyOrPlayer(t.kitty + deck[t.index..t.index + DealSizeKitty], GetKittyExpectedSize(|players|), random)
    ensures KittyControl(deck, players, kitty,
      Table(t.ps, t.kitty + deck[t.index..t.index + DealSizeKitty], t.index + DealSizeKitty, dealing, t.turn))
  {
  }

  lemma PlayerStepKeeps(deck: seq<Card>, players: seq<Player>, kitty: seq<Card>, t: Table, rounds: nat, draw: nat -> Dealing)
    requires DealInvariant(deck, players, kitty, t, rounds) && t.index < |deck|
    requires t.dealing == ToPlayer && DealStep(deck, players, t, draw).Success?
    ensures DealInvariant(deck, players, kitty, DealStep(deck, players, t, draw).value,
      NextRounds(t, DealStep(deck, players, t, draw).value, rounds))
  {
    var end := t.index + DealSizePlayers;
    var chunk := deck[t.index..end];
    var ps := t.ps[t.turn := t.ps[t.turn].(cards := t.ps[t.turn].cards + chunk)];
    var dealing := DealKittyOrPlayer(t.kitty, GetKittyExpectedSize(|players|), draw(end));
    var after := Table(ps, t.kitty, end, dealing, GetNextIndex(ps, t.turn));
    assert DealStep(deck, players, t, draw).value == after;
    PlayerShapeKept(deck, players, t, end, dealing);
    PlayerDealtConserved(deck, kitty, t, end, dealing);
    PlayerDealtInOrder(deck, kitty, t, end, dealing);
    PlayerTurnSizes(t, rounds, chunk, dealing);
    PlayerKittyControl(deck, players, kitty, t, end, dealing, draw(end));
  }

  lemma PlayerShapeKept(deck: seq<Card>, players: seq<Player>, t: Table, end: nat, dealing: Dealing)
    requires DealShape(deck, players, t) && |t.ps| > 0 && t.index <= end <= |deck|
    ensures var ps := t.ps[t.turn := t.ps[t.turn].(cards := t.ps[t.turn].cards + deck[t.index..end])];
      DealShape(deck, players, Table(ps, t.kitty, end, dealing, GetNextIndex(ps, t.turn)))
  {
  }

  lemma PlayerDealtConserved(deck: seq<Card>, kitty: seq<Card>, t: Table, end: nat, dealing: Dealing)
    requires t.index <= end <= |deck| && DealtConserved(deck, kitty, t) && t.turn < |t.ps|
    ensures var ps := t.ps[t.turn := t.ps[t.turn].(cards := t.ps[t.turn].cards + deck[t.index..end])];
      DealtConserved(deck, kitty, Table(ps, t.kitty, end, dealing, GetNextIndex(ps, t.turn)))
  {
    var chunk := deck[t.index..end];
    var ps := t.ps[t.turn := t.ps[t.turn].(cards := t.ps[t.turn].cards + chunk)];
    HandsOfAdd(t.ps, t.turn, chunk);
    assert deck[..end] == deck[..t.index] + chunk;
    calc {
      multiset(HandsOf(ps)) + multiset(t.kitty);
      (multiset(HandsOf(t.ps)) + multiset(chunk)) + multiset(t.kitty);
      (multiset(HandsOf(t.ps)) + multiset(t.kitty)) + multiset(chunk);
      (multiset(deck[..t.index]) + multiset(kitty)) + multiset(chunk);
      (multiset(deck[..t.index]) + multiset(chunk)) + multiset(kitty);
      multiset(deck[..end]) + multiset(kitty);
    }
  }

  lemma PlayerDealtInOrder(deck: seq<Card>, kitty: seq<Card>, t: Table, end: nat, dealing: Dealing)
    requires t.index <= end <= |deck| && DealtInOrder(deck, kitty, t) && t.turn < |t.ps|
    ensures var ps := t.ps[t.turn := t.ps[t.turn].(cards := t.ps[t.turn].cards + deck[t.index..end])];
      DealtInOrder(deck, kitty, Table(ps, t.kitty, end, dealing, GetNextIndex(ps, t.turn)))
  {
    var chunk := deck[t.index..end];
    var ps := t.ps[t.turn := t.ps[t.turn].(cards := t.ps[t.turn].cards + chunk)];
    PlayerPacket(deck, t.index, end, t.ps, t.turn);
    KittyUntouched(deck, kitty, t.kitty, t.index, end);
  }

  /** The kitty's dealt part stays in deck order as the dealt prefix grows. */
  lemma KittyUntouched(deck: seq<Card>, kitty: seq<Card>, k: seq<Card>, index: nat, end: nat)
    requires index <= end <= |deck| && |k| >= |kitty|
    requires SubsequenceOf(k[|kitty|..], deck[..index])
    ensures SubsequenceOf(k[|kitty|..], deck[..end])
  {
    assert deck[..end] == deck[..index] + deck[index..end];
    SubsequenceExtendRight(k[|kitty|..], deck[..index], deck[index..end]);
  }

  lemma PlayerTurnSizes(t: Table, rounds: nat, chunk: seq<Card>, dealing: Dealing)
    requires TurnSizes(t, rounds) && t.turn < |t.ps| && |chunk| == DealSizePlayers && t.dealing == ToPlayer
    ensures var ps := t.ps[t.turn := t.ps[t.turn].(cards := t.ps[t.turn].cards + chunk)];
      var after := Table(ps, t.kitty, t.index + DealSizePlayers, dealing, GetNextIndex(ps, t.turn));
      TurnSizes(after, NextRounds(t, after, rounds))
  {
  }

  lemma PlayerKittyControl(deck: seq<Card>, players: seq<Player>, kitty: seq<Card>, t: Table, end: nat, dealing: Dealing, random: Dealing)
    requires KittyControl(deck, players, kitty, t) && |t.ps| > 0 && |t.ps| == |players| && t.turn < |t.ps|
    requires end == t.index + DealSizePlayers && end <= |deck|
    requires dealing == DealKittyOrPlayer(t.kitty, GetKittyExpectedSize(|players|), random)
    ensures var ps := t.ps[t.turn := t.ps[t.turn].(cards := t.ps[t.turn].cards + deck[t.index..end])];
      KittyControl(deck, players, kitty, Table(ps, t.kitty, end, dealing, GetNextIndex(ps, t.turn)))
  {
  }

  /** The table `deal_cards` starts from: hands cleared, the first packet
      for the first seat. */
  function Start(players: seq<Player>, kitty: seq<Card>): Table {
    Table(ClearCards(players), kitty, 0, ToPlayer, 0)
  }

  /** Where a run of the dealing loop stops: the last table, and the
      failure that stopped it, if any. */
  datatype Dealt = Dealt(last: Table, error: Option<DealError>)

  /** The whole `deal_cards` loop from table `t`, one `DealStep` after
      another until the deck is used up or a step fails. */
  function DealLoop(deck: seq<Card>, players: seq<Player>, t: Table, draw: nat -> Dealing): (d: Dealt)
    requires t.index <= |deck|
    requires |t.ps| > 0 ==> t.turn < |t.ps|
    ensures |d.last.ps| == |t.ps|
    decreases |deck| - t.index
  {
    if t.index == |deck| then Dealt(t, None)
    else match DealStep(deck, players, t, draw)
      case Failure(e) => Dealt(t, Some(e))
      case Success(next) => DealLoop(deck, players, next, draw)
  }

  /** The loop stops either with the deck used up, or on a table where the
      next step fails with the failure reported. */
  lemma {:induction false} DealLoopStops(deck: seq<Card>, players: seq<Player>, t: Table, draw: nat -> Dealing)
    requires t.index <= |deck| && (|t.ps| > 0 ==> t.turn < |t.ps|)
    ensures var d := DealLoop(deck, players, t, draw);
      && (|t.ps| > 0 ==> d.last.turn < |t.ps|)
      && d.last.index <= |deck|
      && (d.error.None? <==> d.last.index == |deck|)
      && (d.error.Some? ==> DealStep(deck, players, d.last, draw) == Failure(d.error.value))
    decreases |deck| - t.index
  {
    if t.index < |deck| {
      var s := DealStep(deck, players, t, draw);
      if s.Success? {
        DealLoopStops(deck, players, s.value, draw);
      }
    }
  }

  /** One pass of the loop: a failing step stops it, a successful one
      leaves the rest of the run to the next table. */
  lemma DealLoopStep(deck: seq<Card>, players: seq<Player>, t: Table, draw: nat -> Dealing)
    requires t.index < |deck| && (|t.ps| > 0 ==> t.turn < |t.ps|)
    ensures var s := DealStep(deck, players, t, draw);
      && (s.Failure? ==> DealLoop(deck, players, t, draw) == Dealt(t, Some(s.error)))
      && (s.Success? ==> DealLoop(deck, players, t, draw) == DealLoop(deck, players, s.value, draw))
  {
  }

  /** What `deal_cards` leaves behind: the dealt table and kitty, or the
      failure. */
  function Outcome(d: Dealt): Result<(seq<Player>, seq<Card>), DealError> {
    match d.error
    case None => Success((d.last.ps, d.last.kitty))
    case Some(e) => Failure(e)
  }

  /** Every card dealt beyond the cards the kitty received went to the
      players, in packets of three. */
  ghost predicate WholePlayerPackets(kitty: seq<Card>, t: Table) {
    && |kitty| <= |t.kitty| <= |kitty| + t.index
    && (t.index + |kitty| - |t.kitty|) % DealSizePlayers == 0
  }

  /** The loop deals the players whole packets only. */
  lemma {:induction false} DealLoopPackets(deck: seq<Card>, players: seq<Player>, kitty: seq<Card>, t: Table, draw: nat -> Dealing)
    requires t.index <= |deck| && (|t.ps| > 0 ==> t.turn < |t.ps|)
    requires WholePlayerPackets(kitty, t)
    ensures WholePlayerPackets(kitty, DealLoop(deck, players, t, draw).last)
    decreases |deck| - t.index
  {
    if t.index < |deck| {
      var s := DealStep(deck, players, t, draw);
      if s.Success? {
        var q := (t.index + |kitty| - |t.kitty|) / DealSizePlayers;
        DivModUnique(t.index + |kitty| - |t.kitty|, DealSizePlayers, q, 0);
        if t.dealing == ToPlayer {
          DivModUnique(s.value.index + |kitty| - |s.value.kitty|, DealSizePlayers, q + 1, 0);
        }
        DealLoopPackets(deck, players, kitty, s.value, draw);
      }
    }
  }

  /** When the players got whole packets of a deck of whole packets, and
      the deck ran out between one and two cards short of a packet, the
      kitty got a number of cards that is not a multiple of three. */
  lemma ShortByKittyCards(index: nat, added: nat, n: nat)
    requires added <= index && (index - added) % 3 == 0
    ensures n % 3 == 0 && index < n < index + 3 ==> added % 3 != 0
    ensures n % 3 == 0 && index == n ==> added % 3 == 0
  {
    DivModUnique(index - added, 3, (index - added) / 3, 0);
    DivModUnique(added, 3, added / 3, added % 3);
    DivModUnique(n, 3, n / 3, n % 3);
  }

  /** How a deal to a non-empty table ends. It never fails for want of
      players. It runs out of cards only on a player's packet, with fewer
      than three cards left. On a deck of whole packets it completes exactly
      when the kitty received a multiple of three cards. */
  lemma DealOutcome(deck: seq<Card>, players: seq<Player>, kitty: seq<Card>, draw: nat -> Dealing)
    requires |players| > 0
    ensures var d := DealLoop(deck, players, Start(players, kitty), draw);
      && |kitty| <= |d.last.kitty|
      && d.error != Some(NoPlayers)
      && (d.error == Some(OutOfCards) ==> d.last.dealing == ToPlayer && |deck| < d.last.index + DealSizePlayers)
      && (|deck| % DealSizePlayers == 0 ==> (d.error.None? <==> (|d.last.kitty| - |kitty|) % DealSizePlayers == 0))
  {
    var t := Start(players, kitty);
    var d := DealLoop(deck, players, t, draw);
    DealLoopStops(deck, players, t, draw);
    DealLoopPackets(deck, players, kitty, t, draw);
    ShortByKittyCards(d.last.index, |d.last.kitty| - |kitty|, |deck|);
  }

  /** Every packet after `t` goes to a player when every later draw says
      so, so the kitty stays as it is. */
  lemma {:induction false} PlayersOnly(deck: seq<Card>, players: seq<Player>, t: Table, draw: nat -> Dealing)
    requires t.index <= |deck| && (|t.ps| > 0 ==> t.turn < |t.ps|)
    requires t.dealing == ToPlayer
    requires forall i: nat :: i > t.index ==> draw(i) == ToPlayer
    ensures DealLoop(deck, players, t, draw).last.kitty == t.kitty
    decreases |deck| - t.index
  {
    if t.index < |deck| {
      var s := DealStep(deck, players, t, draw);
      if s.Success? {
        PlayersOnly(deck, players, s.value, draw);
      }
    }
  }

  /** The deal as written can run out of cards on a real game. One kitty
      draw after the first packet, then players only: the kitty stops at
      one card, and with 78 cards the players' packets reach index 76, where
      the next slice `76..79` runs past the deck. */
  lemma ShortKittyOverrun(deck: seq<Card>, players: seq<Player>, draw: nat -> Dealing)
    requires |deck| % DealSizePlayers == 0 && |deck| >= 6 && |players| >= 2
    requires draw(3) == ToKitty && forall i: nat :: i != 3 ==> draw(i) == ToPlayer
    ensures DealLoop(deck, players, Start(players, []), draw).error == Some(OutOfCards)
  {
    var t0 := Start(players, []);
    DealLoopStep(deck, players, t0, draw);
    var t1 := DealStep(deck, players, t0, draw).value;
    assert t1.dealing == ToKitty && t1.kitty == [];
    DealLoopStep(deck, players, t1, draw);
    var t2 := DealStep(deck, players, t1, draw).value;
    assert t2.index == 4 && |t2.kitty| == 1 && t2.dealing == ToPlayer;
    var d := DealLoop(deck, players, t0, draw);
    assert d == DealLoop(deck, players, t2, draw);
    PlayersOnly(deck, players, t2, draw);
    assert |d.last.kitty| == 1;
    DealOutcome(deck, players, [], draw);
    assert d.error.Some? && d.error != Some(NoPlayers);
    assert d.error.value != NoPlayers;
    assert d.error.value == OutOfCards;
  }

  /** What `DealOutcome` says, read off the result `deal_cards` returns. */
  lemma OutcomeFacts(deck: seq<Card>, players: seq<Player>, kitty: seq<Card>, draw: nat -> Dealing)
    ensures var d := DealLoop(deck, players, Start(players, kitty), draw);
      && (Outcome(d) == Failure(OutOfCards) ==>
            d.last.dealing == ToPlayer && d.last.index < |deck| < d.last.index + DealSizePlayers)
      && (|players| > 0 && |deck| % DealSizePlayers == 0 ==>
            (Outcome(d).Success? <==> (|d.last.kitty| - |kitty|) % DealSizePlayers == 0))
  {
    DealLoopStops(deck, players, Start(players, kitty), draw);
    if |players| > 0 {
      DealOutcome(deck, players, kitty, draw);
    }
  }

  /** A finished deal: every card of the deck went, in deck order, to one
      hand or to the end of the kitty; the players kept everything but
      their cards and got whole, balanced packets; and the kitty kept its
      old cards and its bound. */
  ghost predicate DealtWell(deck: seq<Card>, players: seq<Player>, kitty: seq<Card>, ps: seq<Player>, k: seq<Card>) {
    && |ps| == |players|
    && (forall p :: 0 <= p < |players| ==> ps[p] == players[p].(cards := ps[p].cards))
    && multiset(HandsOf(ps)) + multiset(k) == multiset(deck) + multiset(kitty)
    && |k| >= |kitty| && k[..|kitty|] == kitty
    && SubsequenceOf(k[|kitty|..], deck)
    && (forall p :: 0 <= p < |players| ==> SubsequenceOf(ps[p].cards, deck))
    && (forall p :: 0 <= p < |players| ==> |ps[p].cards| % DealSizePlayers == 0)
    && (forall p, p' :: 0 <= p < p' < |players| ==> |ps[p'].cards| <= |ps[p].cards| <= |ps[p'].cards| + DealSizePlayers)
    && (|kitty| <= GetKittyExpectedSize(|players|) ==> |k| <= GetKittyExpectedSize(|players|))
    && (|kitty| == GetKittyExpectedSize(|players|) && |deck| % DealSizePlayers == 0 && |players| > 0 ==> k == kitty)
  }

  /** A run that used up the deck with the invariant intact has dealt
      every card, in order, in whole and balanced packets. */
  lemma DealtFacts(deck: seq<Card>, players: seq<Player>, kitty: seq<Card>, t: Table, rounds: nat)
    requires DealInvariant(deck, players, kitty, t, rounds) && t.index == |deck|
    ensures DealtWell(deck, players, kitty, t.ps, t.kitty)
  {
    assert deck[..t.index] == deck;
    BalancedPackets(t, rounds);
  }

  /** Round-robin turns leave every hand a whole number of packets, and an
      earlier seat at most one packet ahead of a later one. */
  lemma BalancedPackets(t: Table, rounds: nat)
    requires TurnSizes(t, rounds)
    ensures forall p :: 0 <= p < |t.ps| ==> |t.ps[p].cards| % DealSizePlayers == 0
    ensures forall p, p' :: 0 <= p < p' < |t.ps| ==>
      |t.ps[p'].cards| <= |t.ps[p].cards| <= |t.ps[p'].cards| + DealSizePlayers
  {
    forall p | 0 <= p < |t.ps|
      ensures |t.ps[p].cards| % DealSizePlayers == 0
    {
      var extra := if p < t.turn then 1 else 0;
      DivModUnique(|t.ps[p].cards|, DealSizePlayers, rounds + extra, 0);
    }
  }

  /** The loop keeps the invariant to its end: a run that deals the whole
      deck has dealt it well; it fails for want of players exactly at an
      empty table with a packet to deal; and it does not fail while the
      kitty is full and the deck splits into whole packets. */
  lemma {:induction false} DealLoopWell(deck: seq<Card>, players: seq<Player>, kitty: seq<Card>, t: Table, rounds: nat, draw: nat -> Dealing)
    requires DealInvariant(deck, players, kitty, t, rounds)
    ensures var d := DealLoop(deck, players, t, draw);
      && (d.error.None? ==> DealtWell(deck, players, kitty, d.last.ps, d.last.kitty))
      && (d.error == Some(NoPlayers) <==> |deck| >= DealSizePlayers && |players| == 0)
      && (|kitty| == GetKittyExpectedSize(|players|) && |deck| % DealSizePlayers == 0 && |players| > 0 ==> d.error.None?)
    decreases |deck| - t.index
  {
    if t.index == |deck| {
      DealtFacts(deck, players, kitty, t, rounds);
    } else {
      DealStepKeeps(deck, players, kitty, t, rounds, draw);
      DealLoopStep(deck, players, t, draw);
      var s := DealStep(deck, players, t, draw);
      if s.Success? {
        DealLoopWell(deck, players, kitty, s.value, NextRounds(t, s.value, rounds), draw);
      }
    }
  }

  /** What the result of the deal from a cleared table says: an empty deck
      only clears the hands; the deal fails for want of players exactly at
      an empty table with a packet to deal; it runs out of cards only on a
      player packet with fewer than three cards left; on a deck of whole
      packets at a seated table it succeeds exactly when the kitty got a
      multiple of three cards, and always when the kitty was already full;
      and a success has dealt the deck well. */
  lemma DealCardsContract(deck: seq<Card>, players: seq<Player>, kitty: seq<Card>, draw: nat -> Dealing,
                          r: Result<(seq<Player>, seq<Card>), DealError>)
    requires r == Outcome(DealLoop(deck, players, Start(players, kitty), draw))
    ensures |deck| == 0 ==> r == Success((ClearCards(players), kitty))
    ensures r == Failure(NoPlayers) <==> |deck| >= DealSizePlayers && |players| == 0
    ensures r.Success? ==> DealtWell(deck, players, kitty, r.value.0, r.value.1)
    ensures |kitty| == GetKittyExpectedSize(|players|) && |deck| % DealSizePlayers == 0 && |players| > 0 ==>
      r.Success? && r.value.1 == kitty
    ensures r == Failure(OutOfCards) ==>
      var last := DealLoop(deck, players, Start(players, kitty), draw).last;
      last.dealing == ToPlayer && last.index < |deck| < last.index + DealSizePlayers
    ensures |players| > 0 && |deck| % DealSizePlayers == 0 ==>
      (r.Success? <==> (|DealLoop(deck, players, Start(players, kitty), draw).last.kitty| - |kitty|) % DealSizePlayers == 0)
  {
    var t := Start(players, kitty);
    HandsOfCleared(t.ps);
    assert deck[..0] == [] && kitty[|kitty|..] == [];
    DealLoopWell(deck, players, kitty, t, 0, draw);
    OutcomeFacts(deck, players, kitty, draw);
  }

  /** `deal_cards`: clear the hands, then walk the deck in packets: three
      cards to the current player, who then passes the turn to the next,
      or a single card to the kitty, as the draw decides while the kitty
      is short. The source panics when a packet runs past the end of the
      deck and when there is no player to serve; the model returns those
      failures. On success every card of the deck went, in deck order, to
      exactly one hand or to the end of the kitty, and the players were
      served round-robin in packets of three. */
  method DealCards(deck: seq<Card>, players: seq<Player>, kitty: seq<Card>, draw: nat -> Dealing)
    returns (r: Result<(seq<Player>, seq<Card>), DealError>)
    ensures |deck| == 0 ==> r == Success((ClearCards(players), kitty))
    ensures r == Failure(NoPlayers) <==> |deck| >= DealSizePlayers && |players| == 0
    ensures r.Success? ==> |r.value.0| == |players|
    ensures r.Success? ==> forall p :: 0 <= p < |players| ==> r.value.0[p] == players[p].(cards := r.value.0[p].cards)
    ensures r.Success? ==> multiset(HandsOf(r.value.0)) + multiset(r.value.1) == multiset(deck) + multiset(kitty)
    ensures r.Success? ==> |r.value.1| >= |kitty| && r.value.1[..|kitty|] == kitty
    ensures r.Success? ==> SubsequenceOf(r.value.1[|kitty|..], deck)
    ensures r.Success? ==> forall p :: 0 <= p < |players| ==> SubsequenceOf(r.value.0[p].cards, deck)
    ensures r.Success? ==> forall p :: 0 <= p < |players| ==> |r.value.0[p].cards| % DealSizePlayers == 0
    ensures r.Success? ==> forall p, p' :: 0 <= p < p' < |players| ==>
      |r.value.0[p'].cards| <= |r.value.0[p].cards| <= |r.value.0[p'].cards| + DealSizePlayers
    ensures r.Success? && |kitty| <= GetKittyExpectedSize(|players|) ==> |r.value.1| <= GetKittyExpectedSize(|players|)
    ensures |kitty| == GetKittyExpectedSize(|players|) && |deck| % DealSizePlayers == 0 && |players| > 0 ==>
      r.Success? && r.value.1 == kitty
    ensures r == Outcome(DealLoop(deck, players, Start(players, kitty), draw))
    ensures r == Failure(OutOfCards) ==>
      var last := DealLoop(deck, players, Start(players, kitty), draw).last;
      last.dealing == ToPlayer && last.index < |deck| < last.index + DealSizePlayers
    ensures |players| > 0 && |deck| % DealSizePlayers == 0 ==>
      (r.Success? <==> (|DealLoop(deck, players, Start(players, kitty), draw).last.kitty| - |kitty|) % DealSizePlayers == 0)
  {
    var t := Start(players, kitty);
    ghost var final := DealLoop(deck, players, t, draw);
    while t.index < |deck|
      invariant t.index <= |deck| && (|t.ps| > 0 ==> t.turn < |t.ps|)
      invariant DealLoop(deck, players, t, draw) == final
      decreases |deck| - t.index
    {
      DealLoopStep(deck, players, t, draw);
      var next := DealStep(deck, players, t, draw);
      if next.Failure? {
        r := Failure(next.error);
        DealCardsContract(deck, players, kitty, draw, r);
        return;
      }
      t := next.value;
    }
    r := Success((t.ps, t.kitty));
    DealCardsContract(deck, players, kitty, draw, r);
  }

  /** The kitty-or-player choice a deal needs in order to always complete:
      `deal_kitty_or_player`, except that a kitty missing at least as many
      cards as the deck has left takes the next card, so the last cards
      fill the kitty instead of leaving a player's packet short. */
  function FixedKittyOrPlayer(kitty: seq<Card>, expected: nat, left: nat, random: Dealing): (r: Dealing)
    ensures |kitty| <= expected && left > expected - |kitty| ==> r == DealKittyOrPlayer(kitty, expected, random)
    ensures |kitty| < expected && left <= expected - |kitty| ==> r == ToKitty
  {
    if |kitty| >= expected then ToPlayer
    else if left <= expected - |kitty| then ToKitty
    else random
  }

  /** `DealStep` with the corrected choice of where the next packet goes. */
  function FixedDealStep(deck: seq<Card>, players: seq<Player>, t: Table, draw: nat -> Dealing): (r: Result<Table, DealError>)
    requires t.index < |deck|
    requires |t.ps| > 0 ==> t.turn < |t.ps|
    ensures r.Success? <==> t.index + GetDealSize(t.dealing) <= |deck| && (t.dealing == ToPlayer ==> |t.ps| > 0)
    ensures r.Success? ==> r.value.index == t.index + GetDealSize(t.dealing)
    ensures r.Success? ==> |r.value.ps| == |t.ps| && (|t.ps| > 0 ==> r.value.turn < |t.ps|)
    ensures r.Success? ==> |r.value.kitty| == |t.kitty| + if t.dealing == ToKitty then DealSizeKitty else 0
    ensures r.Success? ==>
      r.value.dealing == FixedKittyOrPlayer(r.value.kitty, GetKittyExpectedSize(|players|), |deck| - r.value.index, draw(r.value.index))
  {
    var expected := GetKittyExpectedSize(|players|);
    var end := t.index + GetDealSize(t.dealing);
    if end > |deck| then Failure(OutOfCards)
    else
      var chunk := deck[t.index..end];
      match t.dealing
      case ToKitty =>
        var k := t.kitty + chunk;
        Success(Table(t.ps, k, end, FixedKittyOrPlayer(k, expected, |deck| - end, draw(end)), t.turn))
      case ToPlayer =>
        if |t.ps| == 0 then Failure(NoPlayers)
        else
          var ps := t.ps[t.turn := t.ps[t.turn].(cards := t.ps[t.turn].cards + chunk)];
          Success(Table(ps, t.kitty, end, FixedKittyOrPlayer(t.kitty, expected, |deck| - end, draw(end)), GetNextIndex(ps, t.turn)))
  }

  /** The dealing loop with the corrected step. */
  function FixedDealLoop(deck: seq<Card>, players: seq<Player>, t: Table, draw: nat -> Dealing): (d: Dealt)
    requires t.index <= |deck|
    requires |t.ps| > 0 ==> t.turn < |t.ps|
    ensures |d.last.ps| == |t.ps|
    decreases |deck| - t.index
  {
    if t.index == |deck| then Dealt(t, None)
    else match FixedDealStep(deck, players, t, draw)
      case Failure(e) => Dealt(t, Some(e))
      case Success(next) => FixedDealLoop(deck, players, next, draw)
  }

  /** A corrected deal in progress that can still finish: the cards left
      cover the kitty's shortfall, the rest splits into player packets, and
      the next packet has room. */
  ghost predicate OnTrack(deck: seq<Card>, expected: nat, t: Table) {
    && t.index <= |deck| && |t.kitty| <= expected
    && |t.ps| > 0 && t.turn < |t.ps|
    && var left := |deck| - t.index;
    && var short := expected - |t.kitty|;
    && left >= short && (left - short) % DealSizePlayers == 0
    && (t.dealing == ToKitty ==> short > 0)
    && (t.dealing == ToPlayer && left > 0 ==> left >= short + DealSizePlayers)
  }

  /** A corrected step from a deal on track succeeds and stays on track. */
  lemma FixedStepOnTrack(deck: seq<Card>, players: seq<Player>, t: Table, draw: nat -> Dealing)
    requires OnTrack(deck, GetKittyExpectedSize(|players|), t) && t.index < |deck|
    ensures FixedDealStep(deck, players, t, draw).Success?
    ensures OnTrack(deck, GetKittyExpectedSize(|players|), FixedDealStep(deck, players, t, draw).value)
  {
    var e := GetKittyExpectedSize(|players|);
    var u := FixedDealStep(deck, players, t, draw).value;
    var left, short := |deck| - u.index, e - |u.kitty|;
    var q := (|deck| - t.index - (e - |t.kitty|)) / DealSizePlayers;
    DivModUnique(|deck| - t.index - (e - |t.kitty|), DealSizePlayers, q, 0);
    if t.dealing == ToPlayer {
      DivModUnique(left - short, DealSizePlayers, q - 1, 0);
    } else {
      DivModUnique(left - short, DealSizePlayers, q, 0);
    }
    if short == 0 && left > 0 {
      DivModUnique(left, DealSizePlayers, left / DealSizePlayers, 0);
    }
  }

  /** From a deal on track, the corrected loop completes with the kitty
      full. */
  lemma {:induction false} FixedLoopCompletes(deck: seq<Card>, players: seq<Player>, t: Table, draw: nat -> Dealing)
    requires OnTrack(deck, GetKittyExpectedSize(|players|), t)
    ensures FixedDealLoop(deck, players, t, draw).error.None?
    ensures |FixedDealLoop(deck, players, t, draw).last.kitty| == GetKittyExpectedSize(|players|)
    decreases |deck| - t.index
  {
    if t.index < |deck| {
      FixedStepOnTrack(deck, players, t, draw);
      FixedLoopCompletes(deck, players, FixedDealStep(deck, players, t, draw).value, draw);
    }
  }

  /** The corrected deal always completes with the kitty at its expected
      size, on any non-empty table, whenever the deck holds the kitty's
      shortfall plus at least one whole packet per round. */
  lemma FixedDealCompletes(deck: seq<Card>, players: seq<Player>, kitty: seq<Card>, draw: nat -> Dealing)
    requires |players| > 0 && |kitty| <= GetKittyExpectedSize(|players|)
    requires |deck| >= GetKittyExpectedSize(|players|) - |kitty| + DealSizePlayers
    requires (|deck| - (GetKittyExpectedSize(|players|) - |kitty|)) % DealSizePlayers == 0
    ensures var d := FixedDealLoop(deck, players, Start(players, kitty), draw);
      d.error.None? && |d.last.kitty| == GetKittyExpectedSize(|players|)
  {
    FixedLoopCompletes(deck, players, Start(players, kitty), draw);
  }

  /** A corrected step is an original step whose draw is replaced by the
      corrected choice for the packet after it. */
  lemma FixedStepAsDealStep(deck: seq<Card>, players: seq<Player>, t: Table, draw: nat -> Dealing)
    returns (oracle: nat -> Dealing)
    requires t.index < |deck|
    requires |t.ps| > 0 ==> t.turn < |t.ps|
    ensures FixedDealStep(deck, players, t, draw) == DealStep(deck, players, t, oracle)
  {
    oracle := draw;
    var end := t.index + GetDealSize(t.dealing);
    if end <= |deck| {
      var k := if t.dealing == ToKitty then t.kitty + deck[t.index..end] else t.kitty;
      oracle := (i: nat) => FixedKittyOrPlayer(k, GetKittyExpectedSize(|players|), if i <= |deck| then |deck| - i else 0, draw(i));
    }
  }

  /** The corrected loop keeps the dealing invariant; `final` counts the
      full rounds of the table when it stops. */
  lemma {:induction false} FixedLoopWell(deck: seq<Card>, players: seq<Player>, kitty: seq<Card>, t: Table, rounds: nat, draw: nat -> Dealing)
    returns (final: nat)
    requires DealInvariant(deck, players, kitty, t, rounds)
    ensures var d := FixedDealLoop(deck, players, t, draw);
      d.error.None? ==> d.last.index == |deck| && DealInvariant(deck, players, kitty, d.last, final)
    decreases |deck| - t.index
  {
    final := rounds;
    if t.index < |deck| {
      var oracle := FixedStepAsDealStep(deck, players, t, draw);
      DealStepKeeps(deck, players, kitty, t, rounds, oracle);
      var s := FixedDealStep(deck, players, t, draw);
      if s.Success? {
        final := FixedLoopWell(deck, players, kitty, s.value, NextRounds(t, s.value, rounds), draw);
      }
    }
  }

  /** Round-robin hands of `rounds` packets, one more before the turn,
      hold that many packets between them. */
  lemma {:induction false} HandsOfTurnSizes(ps: seq<Player>, rounds: nat, turn: nat)
    requires turn <= |ps|
    requires forall p :: 0 <= p < |ps| ==>
      |ps[p].cards| == DealSizePlayers * rounds + (if p < turn then DealSizePlayers else 0)
    ensures |HandsOf(ps)| == DealSizePlayers * (rounds * |ps| + turn)
  {
    if |ps| > 0 {
      var n := |ps|;
      var pre := ps[..n - 1];
      var before := if turn == n then n - 1 else turn;
      HandsOfTurnSizes(pre, rounds, before);
      assert HandsOf(ps) == HandsOf(pre) + ps[n - 1].cards;
      assert |ps[n - 1].cards| == DealSizePlayers * rounds + (if turn == n then DealSizePlayers else 0);
      assert rounds * n == rounds * (n - 1) + rounds;
    }
  }

  /** At up to five players the cards left after the kitty make `q` whole
      rounds of the table: `q` packets per seat. */
  function RoundsPerSeat(n: nat): (q: nat)
    requires 1 <= n <= 5
    ensures DealSizePlayers * q * n == 78 - GetKittyExpectedSize(n)
  {
    if n == 1 then 26 else if n == 2 then 12 else if n == 3 then 8 else if n == 4 then 6 else 5
  }

  /** A deal that stops after `rounds` rounds and `turn` extra packets
      (`turn` below the table size) and has dealt exactly `q` rounds stops
      on a round boundary. */
  lemma WholeRounds(n: nat, rounds: nat, turn: nat, q: nat)
    requires turn < n && rounds * n + turn == q * n
    ensures turn == 0 && rounds == q
  {
    DivModUnique(q * n, n, rounds, turn);
    DivModUnique(q * n, n, q, 0);
  }

  /** A finished deal of a whole 78-card deck at up to five players, with
      the kitty full, leaves every hand the same size. */
  lemma EqualHands(deck: seq<Card>, players: seq<Player>, t: Table, rounds: nat)
    requires |deck| == 78 && 1 <= |players| == |t.ps| <= 5 && t.turn < |t.ps|
    requires TurnSizes(t, rounds)
    requires multiset(HandsOf(t.ps)) + multiset(t.kitty) == multiset(deck)
    requires |t.kitty| == GetKittyExpectedSize(|players|)
    ensures forall p :: 0 <= p < |players| ==>
      |t.ps[p].cards| == (|deck| - GetKittyExpectedSize(|players|)) / |players|
  {
    HandsOfTurnSizes(t.ps, rounds, t.turn);
    assert |HandsOf(t.ps)| + |t.kitty| == |deck| by {
      assert |multiset(HandsOf(t.ps)) + multiset(t.kitty)| == |multiset(deck)|;
    }
    var n, q := |players|, RoundsPerSeat(|players|);
    WholeRounds(n, rounds, t.turn, q);
    DivModUnique(|deck| - GetKittyExpectedSize(n), n, DealSizePlayers * q, 0);
  }

  /** In a real game the 78 cards go out in full: the kitty starts empty
      and ends at its expected size, whatever the draws; every card lands
      in a hand or the kitty, in deck order; and at up to five players the
      hands are equal (18 cards each at four players, 15 at five). */
  lemma FixedRealDeal(deck: seq<Card>, players: seq<Player>, draw: nat -> Dealing)
    requires |deck| == 78 && |players| > 0
    ensures var d := FixedDealLoop(deck, players, Start(players, []), draw);
      d.error.None? && |d.last.kitty| == GetKittyExpectedSize(|players|)
    ensures var d := FixedDealLoop(deck, players, Start(players, []), draw);
      && multiset(HandsOf(d.last.ps)) + multiset(d.last.kitty) == multiset(deck)
      && DealtWell(deck, players, [], d.last.ps, d.last.kitty)
    ensures var d := FixedDealLoop(deck, players, Start(players, []), draw);
      |players| <= 5 ==> forall p :: 0 <= p < |players| ==>
        |d.last.ps[p].cards| == (|deck| - GetKittyExpectedSize(|players|)) / |players|
  {
    FixedDealCompletes(deck, players, [], draw);
    var t := Start(players, []);
    HandsOfCleared(t.ps);
    assert deck[..0] == [];
    var rounds := FixedLoopWell(deck, players, [], t, 0, draw);
    var d := FixedDealLoop(deck, players, t, draw);
    DealtFacts(deck, players, [], d.last, rounds);
    if |players| <= 5 {
      EqualHands(deck, players, d.last, rounds);
    }
  }
}
