/** The bid ladder of `src/common/bid.rs`. The enum is declared Petite,
    Garde, GardeSans, GardeContre, Passe, but that declaration order is not
    the strength order: the ladder is whatever `compare_bids` accepts. */
module BidLadder {
  import opened Wrappers
  import opened Utils

  datatype Bids = Petite | Garde | GardeSans | GardeContre | Passe

  /** Reference strength order: Passe < Petite < Garde < GardeSans < GardeContre. */
  function Ladder(b: Bids): nat {
    match b
    case Passe => 0
    case Petite => 1
    case Garde => 2
    case GardeSans => 3
    case GardeContre => 4
  }

  /** `Bids::BASICS`: every bid but Passe. */
  const Basics: seq<Bids> := [Petite, Garde, GardeSans, GardeContre]

  /** `compare_bids(bid, active_bid)`: whether `bid` may be announced over
      `active_bid`. Passe is accepted only over Passe; any other bid only
      over a strictly weaker one. */
  function CompareBids(bid: Bids, activeBid: Bids): (r: bool)
    ensures bid == Passe ==> (r <==> activeBid == Passe)
    ensures bid != Passe ==> (r <==> Ladder(bid) > Ladder(activeBid))
  {
    match bid
    case Passe => bid == activeBid
    case Petite => activeBid in [Passe]
    case Garde => activeBid in [Passe, Petite]
    case GardeSans => activeBid in [Passe, Petite, Garde]
    case GardeContre => activeBid in [Passe, Petite, Garde, GardeSans]
  }

  /** Among real bids, `compare_bids` is a strict order. */
  lemma CompareBidsIsStrictOrder(a: Bids, b: Bids, c: Bids)
    requires a != Passe && b != Passe && c != Passe
    ensures !CompareBids(a, a)
    ensures CompareBids(a, b) && CompareBids(b, c) ==> CompareBids(a, c)
    ensures a != b ==> CompareBids(a, b) || CompareBids(b, a)
  {
  }

  /** The cases of tests/bid_test.rs. */
  lemma CompareBidsTestVectors()
    ensures CompareBids(Petite, Passe)
    ensures CompareBids(Garde, Passe) && CompareBids(Garde, Petite)
    ensures CompareBids(GardeSans, Passe) && CompareBids(GardeSans, Petite) && CompareBids(GardeSans, Garde)
    ensures CompareBids(GardeContre, Passe) && CompareBids(GardeContre, Petite)
    ensures CompareBids(GardeContre, Garde) && CompareBids(GardeContre, GardeSans)
  {
  }

  /** `Bid`: the highest bid announced so far. */
  datatype Bid = Bid(current: Bids)

  /** `get_available_bids`: the basic bids `compare_bids` accepts over the
      current one, in ladder order, then Passe. */
  function GetAvailableBids(bid: Bid): (r: seq<Bids>)
    ensures |r| == 5 - Ladder(bid.current)
    ensures r[|r| - 1] == Passe
    ensures forall i :: 0 <= i < |r| - 1 ==> r[i] != Passe && Ladder(r[i]) > Ladder(bid.current)
    ensures forall i, j :: 0 <= i < j < |r| - 1 ==> Ladder(r[i]) < Ladder(r[j])
    ensures forall b :: b in r <==> b == Passe || Ladder(b) > Ladder(bid.current)
  {
    var stronger := Filter(Basics, (b: Bids) => Compare(b, Some(bid.current), CompareBids));
    BasicsAbove(bid.current);
    AboveThenPasse(bid.current);
    stronger + [Passe]
  }

  lemma AboveThenPasse(current: Bids)
    ensures var r := Above(current) + [Passe];
      && |r| == 5 - Ladder(current)
      && r[|r| - 1] == Passe
      && (forall i :: 0 <= i < |r| - 1 ==> r[i] != Passe && Ladder(r[i]) > Ladder(current))
      && (forall i, j :: 0 <= i < j < |r| - 1 ==> Ladder(r[i]) < Ladder(r[j]))
      && (forall b :: b in r <==> b == Passe || Ladder(b) > Ladder(current))
  {
    match current
    case Passe =>
    case Petite =>
    case Garde =>
    case GardeSans =>
    case GardeContre =>
  }

  /** The basic bids above `current`, listed out. */
  function Above(current: Bids): seq<Bids> {
    match current
    case Passe => [Petite, Garde, GardeSans, GardeContre]
    case Petite => [Garde, GardeSans, GardeContre]
    case Garde => [GardeSans, GardeContre]
    case GardeSans => [GardeContre]
    case GardeContre => []
  }

  /** Filtering the basic bids with `compare_bids` against `current` keeps
      exactly the ones listed by `Above`: the bids up to `current` fail the
      comparison and the rest pass it. */
  lemma BasicsAbove(current: Bids)
    ensures Filter(Basics, (b: Bids) => Compare(b, Some(current), CompareBids)) == Above(current)
  {
    var p := (b: Bids) => Compare(b, Some(current), CompareBids);
    var k := Ladder(current);
    AboveIsSuffix(current);
    assert Basics == Basics[..k] + Basics[k..];
    FilterConcat(Basics[..k], Basics[k..], p);
    FilterNone(Basics[..k], p);
    FilterAll(Basics[k..], p);
  }

  /** The bids above `current` are the basic bids from its rung on, and the
      basic bids before that rung are the ones up to `current`. */
  lemma AboveIsSuffix(current: Bids)
    ensures Ladder(current) <= |Basics|
    ensures Above(current) == Basics[Ladder(current)..]
    ensures forall i :: 0 <= i < |Basics| ==> Basics[i] != Passe && Ladder(Basics[i]) == i + 1
  {
  }

  /** The lengths checked in tests/bid_test.rs. */
  lemma AvailableBidsTestVectors()
    ensures |GetAvailableBids(Bid(Petite))| == 4
    ensures |GetAvailableBids(Bid(Garde))| == 3
    ensures |GetAvailableBids(Bid(GardeSans))| == 2
    ensures |GetAvailableBids(Bid(GardeContre))| == 1
    ensures |GetAvailableBids(Bid(Passe))| == 5
  {
  }
}
