/** The pure parts of `src/common/player.rs`: a player record, the merge of
    the kitty into the taker's hand (kept sorted by suit initial, then
    rank), and the four kings a taker may call. */
module Players {
  import opened CardModel

  datatype Hand = Hand(cards: seq<Card>, wonCards: seq<Card>)

  /** The fields of `Player` the rules read or write. */
  datatype Player = Player(id: U8, name: string, isHuman: bool, isDealer: bool, cards: seq<Card>, hand: Hand)

  /** `Player::new`: every other field at its default. */
  function NewPlayer(name: string, id: U8): (p: Player)
    ensures p.id == id && p.name == name
    ensures !p.isHuman && !p.isDealer && p.cards == [] && p.hand == Hand([], [])
  {
    Player(id, name, false, false, [], Hand([], []))
  }

  /** `KING_RANK`. */
  const KingRank: U8 := 14

  /** The cards `call_king` offers: the king of each plain suit. */
  function KingsToCall(): (kings: seq<Card>)
    ensures |kings| == 4
    ensures forall i :: 0 <= i < 4 ==> kings[i].rank == 14 && !IsTrump(kings[i])
    ensures forall i, j :: 0 <= i < j < 4 ==> kings[i].suit != kings[j].suit
  {
    [Card(Clubs, KingRank), Card(Diamonds, KingRank), Card(Hearts, KingRank), Card(Spades, KingRank)]
  }

  /** Every plain suit's king is on offer. */
  lemma KingsCoverPlainSuits(s: Suit)
    requires s != Trumps
    ensures Card(s, 14) in KingsToCall()
  {
    var kings := KingsToCall();
    match s
    case Clubs => assert kings[0] == Card(s, 14);
    case Diamonds => assert kings[1] == Card(s, 14);
    case Hearts => assert kings[2] == Card(s, 14);
    case Spades => assert kings[3] == Card(s, 14);
  }

  /** The key of `sort_unstable_by_key`: (suit initial, rank). */
  predicate KeyLe(a: Card, b: Card) {
    Initial(a.suit) < Initial(b.suit) || (Initial(a.suit) == Initial(b.suit) && a.rank <= b.rank)
  }

  /** Two cards share a sort key only if they are the same card, so the
      unstable sort has a single possible outcome. */
  lemma KeyLeAntisymmetric(a: Card, b: Card)
    ensures KeyLe(a, b) && KeyLe(b, a) ==> a == b
  {
    InitialInjective(a.suit, b.suit);
  }

  predicate Sorted(s: seq<Card>) {
    forall i, j :: 0 <= i < j < |s| ==> KeyLe(s[i], s[j])
  }

  /** Insertion of one card into a sorted sequence. */
  function Insert(x: Card, s: seq<Card>): (r: seq<Card>)
    requires Sorted(s)
    ensures Sorted(r)
    ensures multiset(r) == multiset(s) + multiset{x}
    ensures |r| == |s| + 1
  {
    if |s| == 0 then [x]
    else if KeyLe(x, s[0]) then
      SortedHeadIsLeast(x, s);
      PrependSorted(x, s);
      [x] + s
    else
      assert s == [s[0]] + s[1..];
      var t := Insert(x, s[1..]);
      LowerBoundCarries(s[0], x, s[1..], t);
      PrependSorted(s[0], t);
      [s[0]] + t
  }

  /** A key below `x` and below all of `s` is below every rearrangement of
      `s` with `x` added. */
  lemma LowerBoundCarries(y: Card, x: Card, s: seq<Card>, t: seq<Card>)
    requires KeyLe(y, x) && forall i :: 0 <= i < |s| ==> KeyLe(y, s[i])
    requires multiset(t) == multiset(s) + multiset{x}
    ensures forall i :: 0 <= i < |t| ==> KeyLe(y, t[i])
  {
    forall i | 0 <= i < |t|
      ensures KeyLe(y, t[i])
    {
      assert t[i] in multiset(t);
      if t[i] != x {
        assert t[i] in multiset(s);
        var k :| 0 <= k < |s| && s[k] == t[i];
      }
    }
  }

  lemma SortedHeadIsLeast(x: Card, s: seq<Card>)
    requires Sorted(s) && |s| > 0 && KeyLe(x, s[0])
    ensures forall i :: 0 <= i < |s| ==> KeyLe(x, s[i])
  {
  }

  lemma PrependSorted(y: Card, t: seq<Card>)
    requires Sorted(t)
    requires forall i :: 0 <= i < |t| ==> KeyLe(y, t[i])
    ensures Sorted([y] + t)
  {
    var r := [y] + t;
    forall i, j | 0 <= i < j < |r|
      ensures KeyLe(r[i], r[j])
    {
      if i > 0 {
        assert r[i] == t[i - 1] && r[j] == t[j - 1];
      }
    }
  }

  /** Sorting by (suit initial, rank). */
  function SortByKey(s: seq<Card>): (r: seq<Card>)
    ensures Sorted(r)
    ensures multiset(r) == multiset(s)
    ensures |r| == |s|
  {
    if |s| == 0 then []
    else
      assert s == [s[0]] + s[1..];
      Insert(s[0], SortByKey(s[1..]))
  }

  /** Any two sorted arrangements of the same cards are identical. */
  lemma {:induction false} SortedUnique(a: seq<Card>, b: seq<Card>)
    requires Sorted(a) && Sorted(b) && multiset(a) == multiset(b)
    ensures a == b
    decreases |a|
  {
    assert |a| == |multiset(a)| == |multiset(b)| == |b|;
    if |a| > 0 {
      assert a[0] in multiset(b);
      var j :| 0 <= j < |b| && b[j] == a[0];
      assert KeyLe(b[0], a[0]) by {
        if j > 0 {
          assert KeyLe(b[0], b[j]);
        }
      }
      assert b[0] in multiset(a);
      var i :| 0 <= i < |a| && a[i] == b[0];
      assert KeyLe(a[0], b[0]) by {
        if i > 0 {
          assert KeyLe(a[0], a[i]);
        }
      }
      KeyLeAntisymmetric(a[0], b[0]);
      assert a == [a[0]] + a[1..];
      assert b == [b[0]] + b[1..];
      assert multiset(a[1..]) == multiset(a) - multiset{a[0]};
      assert multiset(b[1..]) == multiset(b) - multiset{b[0]};
      SortedUnique(a[1..], b[1..]);
    }
  }

  /** `add_kitty_in_hand`: the hand and the kitty together, sorted. */
  function AddKittyInHand(kitty: seq<Card>, hand: Hand): (r: Hand)
    ensures |r.cards| == |hand.cards| + |kitty|
    ensures multiset(r.cards) == multiset(hand.cards + kitty)
    ensures Sorted(r.cards)
    ensures r.wonCards == hand.wonCards
  {
    hand.(cards := SortByKey(hand.cards + kitty))
  }

  /** The merged hand is the only sorted arrangement of hand and kitty. */
  lemma AddKittyInHandDeterministic(kitty: seq<Card>, hand: Hand, other: seq<Card>)
    requires Sorted(other) && multiset(other) == multiset(hand.cards + kitty)
    ensures AddKittyInHand(kitty, hand).cards == other
  {
    SortedUnique(AddKittyInHand(kitty, hand).cards, other);
  }
}
