/** The bot side of `src/common/bid.rs`: `taker_evaluation` turns a hand into
    a bid through fixed bands, and `bot_choose` keeps that bid only when the
    ladder allows it. */
module BidEvaluation {
  import opened CardModel
  import opened BidLadder
  import opened Scoring

  /** Twice the source's `evaluation = n_oudlers * (points % 5.0)`. With
      points counted in half-points `h`, `points % 5.0 == (h % 10) / 2`, so
      this value is an integer and the bands below are the source's bands
      doubled. */
  function DoubledEvaluation(cards: seq<Card>): nat {
    ComputeOudlers(cards) * (ComputePoints(cards) % 10)
  }

  function Min(a: nat, b: nat): nat {
    if a < b then a else b
  }

  /** `taker_evaluation`: evaluation in [0,2) is Passe, [2,4) Petite, [4,6)
      Garde, [6,8) GardeSans, anything higher GardeContre. So the bid climbs
      one rung per two units of evaluation, capped at the top rung. */
  function TakerEvaluation(cards: seq<Card>): (r: Bids)
    ensures Ladder(r) == Min(DoubledEvaluation(cards) / 4, 4)
    ensures ComputeOudlers(cards) == 0 ==> r == Passe
  {
    var e := DoubledEvaluation(cards);
    if e < 4 then Passe
    else if e < 8 then Petite
    else if e < 12 then Garde
    else if e < 16 then GardeSans
    else GardeContre
  }

  /** `bot_choose`: the evaluated bid when it is Passe or still available,
      otherwise Passe; the running bid moves only on a real bid. Returns the
      announced bid and the updated `Bid`. */
  function BotChoose(bid: Bid, cards: seq<Card>): (r: (Bids, Bid))
    ensures r.0 in GetAvailableBids(bid)
    ensures r.1.current == if r.0 == Passe then bid.current else r.0
    ensures r.0 != Passe ==> r.0 == TakerEvaluation(cards) && Ladder(r.0) > Ladder(bid.current)
    ensures TakerEvaluation(cards) != Passe && Ladder(TakerEvaluation(cards)) > Ladder(bid.current)
            ==> r.0 == TakerEvaluation(cards)
  {
    var ideal := TakerEvaluation(cards);
    match ideal
    case Passe => (ideal, bid)
    case _ =>
      if ideal in GetAvailableBids(bid) then (ideal, Bid(ideal)) else (Passe, bid)
  }
}
