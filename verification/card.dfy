/** The card model of `src/common/card.rs`: five suits with their one-letter
    initials, cards as (suit, rank) with every attribute the source stores in
    `Card::new` (id, score, name, trump and oudler flags) derived from the
    pair, and the two revisions of the card comparison.

    Scores are counted in half-points: every value in the tables is a
    multiple of 0.5, so `Score(c) == 2 * score`. */
module CardModel {
  import opened Wrappers
  import opened Decimal

  /** The source's `u8` rank. */
  type U8 = x: int | 0 <= x < 256

  datatype Suit = Clubs | Diamonds | Hearts | Spades | Trumps

  datatype Card = Card(suit: Suit, rank: U8)

  /** `Suit::new` initials. */
  function Initial(s: Suit): (ch: char)
    ensures 'A' <= ch <= 'Z'
  {
    match s
    case Clubs => 'C'
    case Diamonds => 'D'
    case Spades => 'S'
    case Hearts => 'H'
    case Trumps => 'T'
  }

  /** `Suit::new` display glyphs. */
  function Icon(s: Suit): char {
    match s
    case Clubs => '♣'
    case Diamonds => '♦'
    case Spades => '♠'
    case Hearts => '♥'
    case Trumps => '*'
  }

  lemma InitialInjective(s: Suit, t: Suit)
    ensures Initial(s) == Initial(t) ==> s == t
  {
  }

  lemma IconInjective(s: Suit, t: Suit)
    ensures Icon(s) == Icon(t) ==> s == t
  {
  }

  /** The ranks a deck actually contains: 1..14 in a plain suit, 1..22 in trumps. */
  function MaxRank(s: Suit): nat {
    if s == Trumps then 22 else 14
  }

  predicate InRange(c: Card) {
    1 <= c.rank <= MaxRank(c.suit)
  }

  predicate IsTrump(c: Card) {
    c.suit == Trumps
  }

  /** `CardSuit::is_oudler` is always false; `CardTrump::is_oudler` holds for
      ranks 1, 21 and 22. */
  function IsOudler(c: Card): (r: bool)
    ensures r ==> IsTrump(c)
    ensures r ==> InRange(c)
  {
    IsTrump(c) && (c.rank == 1 || c.rank == 21 || c.rank == 22)
  }

  /** `CardSuit::score` in half-points. */
  function SuitScore(rank: U8): nat {
    if 1 <= rank <= 10 then 1
    else if rank == 11 then 3
    else if rank == 12 then 5
    else if rank == 13 then 7
    else if rank == 14 then 9
    else 0
  }

  /** `CardTrump::score` in half-points. */
  function TrumpScore(rank: U8): nat {
    if rank == 1 || rank == 21 || rank == 22 then 9 else 1
  }

  /** The score stored by `Card::new`, in half-points. Every real card is
      worth an odd number of half-points (x.5 points); only the kings and the
      oudlers reach the maximum of 4.5. */
  function Score(c: Card): (r: nat)
    ensures r <= 9
    ensures IsOudler(c) ==> r == 9
    ensures InRange(c) ==> r % 2 == 1
    ensures r == 9 <==> IsOudler(c) || (!IsTrump(c) && c.rank == 14)
  {
    if IsTrump(c) then TrumpScore(c.rank) else SuitScore(c.rank)
  }

  /** The ranks whose name is a word rather than a numeral. */
  predicate HasFaceName(c: Card) {
    if IsTrump(c) then c.rank == 22 else 11 <= c.rank <= 14
  }

  /** `CardSuit::name` / `CardTrump::name`: face words for 11..14 of a plain
      suit and for trump 22, the decimal rank otherwise. */
  function Name(c: Card): (r: string)
    ensures |r| > 0
    ensures HasFaceName(c) <==> !AllDigits(r)
    ensures AllDigits(r) ==> ParseDecimal(r) == c.rank
  {
    ParseNatToString(c.rank);
    if HasFaceName(c) then FaceName(c) else NatToString(c.rank)
  }

  /** The words of the face ranks: Jack, Knight, Queen, King, and Fool for
      trump 22. */
  function FaceName(c: Card): (r: string)
    requires HasFaceName(c)
    ensures |r| > 0 && !IsDigit(r[0])
  {
    if IsTrump(c) then "Fool"
    else if c.rank == 11 then "Jack"
    else if c.rank == 12 then "Knight"
    else if c.rank == 13 then "Queen"
    else "King"
  }

  /** Within one kind of suit a name determines the rank. */
  lemma NameDeterminesRank(a: Card, b: Card)
    requires IsTrump(a) == IsTrump(b)
    ensures Name(a) == Name(b) ==> a.rank == b.rank
  {
  }

  /** The id built in `Card::new`: suit initial followed by the decimal rank. */
  function Id(c: Card): (r: string)
    ensures |r| >= 2 && r[0] == Initial(c.suit)
    ensures AllDigits(r[1..]) && ParseDecimal(r[1..]) == c.rank
  {
    ParseNatToString(c.rank);
    var r := [Initial(c.suit)] + NatToString(c.rank);
    assert r[1..] == NatToString(c.rank);
    r
  }

  /** Distinct cards have distinct ids. */
  lemma IdInjective(a: Card, b: Card)
    ensures Id(a) == Id(b) ==> a == b
  {
    if Id(a) == Id(b) {
      InitialInjective(a.suit, b.suit);
    }
  }

  /** The ordering key behind the two-argument comparison: any trump above
      any non-trump, then the rank. */
  function PlainStrength(c: Card): nat {
    if IsTrump(c) then 256 + c.rank else c.rank
  }

  /** `is_superior_than(self, card)` as written in card.rs: trumps beat
      non-trumps, and otherwise ranks are compared without regard to suit. */
  function IsSuperiorThan(a: Card, b: Card): (r: bool)
    ensures r <==> PlainStrength(a) > PlainStrength(b)
  {
    match IsTrump(a)
    case true => (match IsTrump(b) case true => a.rank > b.rank case false => true)
    case false => (match IsTrump(b) case true => false case false => a.rank > b.rank)
  }

  lemma SuperiorThanIsStrictOrder(a: Card, b: Card, c: Card)
    ensures !IsSuperiorThan(a, a)
    ensures IsSuperiorThan(a, b) ==> !IsSuperiorThan(b, a)
    ensures IsSuperiorThan(a, b) && IsSuperiorThan(b, c) ==> IsSuperiorThan(a, c)
  {
  }

  /** The ordering key behind the led-suit comparison: trumps first, then
      cards of the led suit, then everything else with no order among them. */
  function Strength(c: Card, led: Option<Suit>): (r: nat)
    ensures IsTrump(c) ==> r >= 512
    ensures !IsTrump(c) && led == Some(c.suit) ==> 256 <= r < 512
  {
    if IsTrump(c) then 512 + c.rank
    else if led == Some(c.suit) then 256 + c.rank
    else 0
  }

  /** The three-argument `is_superior_than(self, card, played_suit)` that the
      trick engine calls and tests/card_test.rs pins down: a trump beats a
      non-trump; two trumps compare by rank; between non-trumps a led-suit
      card beats an off-suit one, two led-suit cards compare by rank and an
      off-suit card beats nothing. With no led suit a non-trump never wins. */
  function IsSuperior(a: Card, b: Card, led: Option<Suit>): (r: bool)
    ensures r <==> Strength(a, led) > Strength(b, led)
  {
    if IsTrump(a) then !IsTrump(b) || a.rank > b.rank
    else if IsTrump(b) then false
    else match led
      case None => false
      case Some(s) =>
        a.suit == s && (b.suit != s || a.rank > b.rank)
  }

  /** The led-suit comparison is a strict order for every led suit. */
  lemma SuperiorIsStrictOrder(a: Card, b: Card, c: Card, led: Option<Suit>)
    ensures !IsSuperior(a, a, led)
    ensures IsSuperior(a, b, led) ==> !IsSuperior(b, a, led)
    ensures IsSuperior(a, b, led) && IsSuperior(b, c, led) ==> IsSuperior(a, c, led)
  {
  }

  /** The two revisions of the comparison agree whenever a trump is involved
      or both cards follow the led suit; they differ only on off-suit plays. */
  lemma ComparisonsAgree(a: Card, b: Card, led: Option<Suit>)
    requires IsTrump(a) || IsTrump(b) || (led.Some? && a.suit == led.value && b.suit == led.value)
    ensures IsSuperior(a, b, led) == IsSuperiorThan(a, b)
  {
  }

  /** Where they differ: an off-suit higher card wins under the suit-blind
      comparison but not under the led-suit one. */
  lemma ComparisonsDifferOffSuit()
    ensures IsSuperiorThan(Card(Hearts, 5), Card(Clubs, 2))
    ensures !IsSuperior(Card(Hearts, 5), Card(Clubs, 2), Some(Clubs))
  {
  }

  /** The cases listed in tests/card_test.rs. */
  lemma CardTestVectors()
    ensures IsSuperior(Card(Trumps, 2), Card(Hearts, 5), Some(Hearts))
    ensures IsSuperior(Card(Trumps, 2), Card(Hearts, 5), Some(Clubs))
    ensures !IsSuperior(Card(Hearts, 2), Card(Hearts, 5), Some(Hearts))
    ensures IsSuperior(Card(Hearts, 2), Card(Clubs, 5), Some(Hearts))
    ensures !IsSuperior(Card(Hearts, 2), Card(Trumps, 5), Some(Clubs))
    ensures !IsSuperior(Card(Trumps, 2), Card(Trumps, 5), Some(Clubs))
    ensures IsSuperior(Card(Trumps, 2), Card(Hearts, 5), None)
    ensures IsSuperior(Card(Trumps, 2), Card(Clubs, 5), None)
    ensures !IsSuperior(Card(Hearts, 2), Card(Trumps, 5), None)
    ensures !IsSuperior(Card(Hearts, 2), Card(Clubs, 5), None)
    ensures !IsSuperior(Card(Trumps, 2), Card(Trumps, 5), None)
    ensures !IsSuperior(Card(Hearts, 2), Card(Hearts, 5), None)
  {
  }
}
