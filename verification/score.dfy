/** Scoring of `src/common/score.rs`, in half-points: the point total of a
    pile of cards, its oudler count, the points a taker needs for that many
    oudlers, the resulting margin and the bid multiplier. */
module Scoring {
  import opened CardModel
  import opened BidLadder

  /** `compute_points`: the left fold of the card scores, from 0. */
  function ComputePoints(cards: seq<Card>): (r: nat)
    ensures r <= 9 * |cards|
  {
    if |cards| == 0 then 0 else ComputePoints(cards[..|cards| - 1]) + Score(cards[|cards| - 1])
  }

  /** The fold is additive over concatenation. */
  lemma {:induction false} PointsAdditive(a: seq<Card>, b: seq<Card>)
    ensures ComputePoints(a + b) == ComputePoints(a) + ComputePoints(b)
    decreases |b|
  {
    if |b| == 0 {
      assert a + b == a;
    } else {
      var b' := b[..|b| - 1];
      assert (a + b)[..|a + b| - 1] == a + b';
      PointsAdditive(a, b');
    }
  }

  /** The total depends only on which cards are in the pile, not on their order. */
  lemma {:induction false} PointsPermutation(a: seq<Card>, b: seq<Card>)
    requires multiset(a) == multiset(b)
    ensures ComputePoints(a) == ComputePoints(b)
    decreases |a|
  {
    if |a| > 0 {
      var x := a[|a| - 1];
      assert x in multiset(b);
      var j :| 0 <= j < |b| && b[j] == x;
      var b' := b[..j] + b[j + 1..];
      assert b == b[..j] + [x] + b[j + 1..];
      assert a == a[..|a| - 1] + [x];
      assert multiset(b) == multiset(b[..j]) + multiset([x]) + multiset(b[j + 1..]);
      assert multiset(b') == multiset(b[..j]) + multiset(b[j + 1..]);
      assert multiset(a) == multiset(a[..|a| - 1]) + multiset([x]);
      assert multiset(a[..|a| - 1]) == multiset(a) - multiset([x]);
      assert multiset(b') == multiset(b) - multiset([x]);
      PointsPermutation(a[..|a| - 1], b');
      PointsAdditive(b[..j] + [x], b[j + 1..]);
      PointsAdditive(b[..j], [x]);
      PointsAdditive(b[..j], b[j + 1..]);
      assert ComputePoints([x]) == Score(x) by {
        assert [x][..0] == [];
      }
    }
  }

  /** `compute_oudlers`: how many of the cards are oudlers. */
  function ComputeOudlers(cards: seq<Card>): (r: nat)
    ensures r <= |cards|
    ensures r == 0 <==> forall i :: 0 <= i < |cards| ==> !IsOudler(cards[i])
  {
    if |cards| == 0 then 0
    else (if IsOudler(cards[0]) then 1 else 0) + ComputeOudlers(cards[1..])
  }

  lemma {:induction false} OudlersAdditive(a: seq<Card>, b: seq<Card>)
    ensures ComputeOudlers(a + b) == ComputeOudlers(a) + ComputeOudlers(b)
  {
    if |a| == 0 {
      assert a + b == b;
    } else {
      assert (a + b)[1..] == a[1..] + b;
      OudlersAdditive(a[1..], b);
    }
  }

  lemma {:induction false} OudlersPermutation(a: seq<Card>, b: seq<Card>)
    requires multiset(a) == multiset(b)
    ensures ComputeOudlers(a) == ComputeOudlers(b)
    decreases |a|
  {
    if |a| > 0 {
      var x := a[0];
      assert x in multiset(b);
      var j :| 0 <= j < |b| && b[j] == x;
      var b' := b[..j] + b[j + 1..];
      assert b == b[..j] + [x] + b[j + 1..];
      assert a == [x] + a[1..];
      assert multiset(b) == multiset(b[..j]) + multiset([x]) + multiset(b[j + 1..]);
      assert multiset(b') == multiset(b[..j]) + multiset(b[j + 1..]);
      assert multiset(a) == multiset([x]) + multiset(a[1..]);
      assert multiset(a[1..]) == multiset(a) - multiset([x]);
      assert multiset(b') == multiset(b) - multiset([x]);
      OudlersPermutation(a[1..], b');
      OudlersAdditive(b[..j] + [x], b[j + 1..]);
      OudlersAdditive(b[..j], [x]);
      OudlersAdditive(b[..j], b[j + 1..]);
    }
  }

  /** `get_needed_points` in half-points: 56, 51, 41, 36 points for 0..3
      oudlers, and 0 for any other count. */
  function GetNeededPoints(nOudlers: nat): (r: nat)
    ensures nOudlers <= 3 ==> 72 <= r <= 112
    ensures nOudlers > 3 ==> r == 0
  {
    match nOudlers
    case 0 => 112
    case 1 => 102
    case 2 => 82
    case 3 => 72
    case _ => 0
  }

  /** More oudlers never raise the threshold (the fallback 0 included). */
  lemma NeededPointsNonIncreasing(m: nat, n: nat)
    requires m <= n
    ensures GetNeededPoints(n) <= GetNeededPoints(m)
  {
  }

  /** `compute_needed_points`: the threshold for the pile's own oudlers. */
  function ComputeNeededPoints(cards: seq<Card>): (r: nat)
    ensures ComputeOudlers(cards) <= 3 ==> 72 <= r <= 112
    ensures r == 0 <==> ComputeOudlers(cards) > 3
  {
    GetNeededPoints(ComputeOudlers(cards))
  }

  /** `diff_points`: the taker's margin over the threshold, in half-points. */
  function DiffPoints(cards: seq<Card>): (r: int)
    ensures -112 <= r <= 9 * |cards|
    ensures ComputeOudlers(cards) == 0 ==> r == ComputePoints(cards) - 112
  {
    ComputePoints(cards) - ComputeNeededPoints(cards)
  }

  /** Winning more cards never lowers the margin. */
  lemma DiffPointsMonotone(a: seq<Card>, b: seq<Card>)
    ensures DiffPoints(a) <= DiffPoints(a + b)
  {
    PointsAdditive(a, b);
    OudlersAdditive(a, b);
    NeededPointsNonIncreasing(ComputeOudlers(a), ComputeOudlers(a + b));
  }

  /** `multiplier`: Petite 1, Garde 2, GardeSans 4, GardeContre 6; Passe 0. */
  function Multiplier(bid: Bids): (r: nat)
    ensures r == 0 <==> bid == Passe
    ensures r <= 6
  {
    match bid
    case Petite => 1
    case Garde => 2
    case GardeSans => 4
    case GardeContre => 6
    case _ => 0
  }

  /** Stronger bids multiply more. */
  lemma MultiplierIncreasing(a: Bids, b: Bids)
    requires Ladder(a) < Ladder(b)
    ensures Multiplier(a) < Multiplier(b)
  {
  }
}
