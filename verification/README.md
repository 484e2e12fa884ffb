# French tarot rules engine, modelled in Dafny

This project models the pure rules of `tarot-cli`, a French-tarot card game
written in Rust. It covers three revisions of the same logic that sit side
by side in the repository:

- the current engine in `src/common`:
  - cards and their comparison;
  - tricks and the cards a player may play;
  - the bid ladder and the bot's bid;
  - scoring;
  - the kitty;
  - players, including merging the kitty into the taker's hand;
  - the table, including the dealer, reordering, cutting and collecting the deck;
  - the dealing loop;
- the older single-file variant `src/lib.rs`:
  - argument parsing;
  - stored-attribute cards;
  - the deck builder;
  - kitty sizes;
  - the score fold;
- the intermediate `src/tarot` modules:
  - name-based cards;
  - the deck with its dealer counter;
  - the cut;
  - lettered players;
  - the score loop.

Modelling choices:

- **Points.** Every card value is a multiple of half a point, so points are
  whole numbers of half-points. 91 points is 182.
- **Cards.** A card is a (suit, rank) pair with an 8-bit rank. Score, name,
  id, trump flag and oudler flag are functions of that pair. `src/lib.rs`
  stores the name and score in the card; that record is `LibVariant.LibCard`,
  and `LibVariant.WellBuilt` says it was made by its constructor.
- **Randomness** comes in as parameters:
  - the first dealer is an index `pick`;
  - the cut is an index `k` in the drawn range;
  - the kitty-or-player draw is an oracle `draw: nat -> Dealing`;
  - the taker's kitty prompts are an oracle `choose`;
  - a shuffle is any reordering. Facts about a shuffled deck are proved
    for every sequence with the same multiset as the fresh deck.
- **Panics** become explicit error results:
  - `unwrap` on no dealer;
  - a slice past the end of the deck;
  - an index past the end of a table;
  - `u8` overflow;
  - `% 0`;
  - `todo!()`.
- **Integer width.** `rank as u8` and `len() as u8` are written out as
  truncation (`DeckModel.AsU8`).

Modules, each in its own file:

| module | file | models |
|---|---|---|
| `Wrappers` | `wrappers.dfy` | the `Option` and `Result` types |
| `Decimal` | `decimal.dfy` | `to_string` of a number and its parse |
| `Utils` | `utils.dfy` | `src/common/utils.rs`, plus sequence helpers |
| `CardModel` | `card.dfy` | `src/common/card.rs` |
| `BidLadder` | `bid.dfy` | `src/common/bid.rs`: the ladder and the available bids |
| `BidEvaluation` | `bid_evaluation.dfy` | `src/common/bid.rs`: `taker_evaluation` and `bot_choose` |
| `Scoring` | `score.dfy` | `src/common/score.rs` |
| `DeckModel` | `deck.dfy` | the deck part of `src/common/game.rs` |
| `Players` | `player.dfy` | `src/common/player.rs` |
| `KittyRules` | `kitty.dfy` | `src/common/kitty.rs` |
| `TrickEngine` | `trick.dfy` | `src/common/trick.rs` |
| `GameTable` | `game.dfy` | the table part of `src/common/game.rs` |
| `DealRules` | `deal.dfy` | `src/common/deal.rs` |
| `LibVariant` | `lib_variant.dfy` | `src/lib.rs` |
| `TarotVariant` | `tarot_variant.dfy` | `src/tarot/deck.rs`, `src/tarot/game.rs`, `src/tarot/score.rs` |

Points where the code departs from the usual rules of French tarot, or
from itself. The model follows the code in each case:

- **Passing.** Under the usual rules a player may always pass.
  `compare_bids(Passe, current)` (`src/common/bid.rs`) holds only when
  `current` is Passe. `get_available_bids` appends Passe anyway, so a
  player is still always offered a pass.
- **Trump names.** The usual names of trump 1 and the unnumbered trump
  are "Petit" and "Excuse". `src/common/card.rs` calls trump 22 "Fool"
  and names trump 1 by its number "1". `src/lib.rs` and
  `src/tarot/deck.rs` use "Petit" and "Joker". Each module of the model
  keeps the names of the file it models.
- **Kitty eligibility.** The usual rules bar kings and oudlers from the
  cards the taker puts back in the kitty. `src/common/kitty.rs:33` has
  only a TODO for this, so `KittyRules.HumanCompose` takes whatever the
  taker picks.
- **Plain-suit lead, no card of the suit.** The usual rules make a player
  who trumps overtake any trump already in the trick, when they can. The
  TODO in `check_selected_card` (`src/common/trick.rs:80-82`) asks for
  this. The rule comment above `allowed_cards_to_play`
  (`src/common/trick.rs:105`) asks only for some trump. The legality
  predicate requires a trump and leaves overtaking open.
- **Running out of cards while dealing.** Once the kitty stops growing at
  a count that is not a multiple of 3, the cards left for the players are
  not whole packets either. The last player packet then runs past the end
  of the deck. It is recorded under "## Findings".

## Model

| member | source | states |
|---|---|---|
| CardModel.Initial | src/common/card.rs:19-47 | a suit's initial is an upper-case letter |
| CardModel.InitialInjective | src/common/card.rs:19-47 | different suits have different initials (C, D, S, H, T) |
| CardModel.IconInjective | src/common/card.rs:19-47 | different suits have different display glyphs |
| CardModel.IsOudler | src/common/card.rs:148-156 | an oudler is always a trump and always a rank the deck contains |
| CardModel.Score | src/common/card.rs:106-141 | at most 4.5 points; a real card is worth x.5 points; exactly the kings and the three oudlers are worth 4.5 |
| CardModel.Name | src/common/card.rs:116-147 | the name is a word exactly for plain 11..14 and trump 22; otherwise it is the decimal rank and parses back to the rank |
| CardModel.FaceName | src/common/card.rs:116-145 | a face name never starts with a digit, so it cannot be confused with a rank number |
| CardModel.NameDeterminesRank | src/common/card.rs:116-147 | within plain suits, and within trumps, two cards with the same name have the same rank |
| CardModel.Id | src/common/card.rs:69 | the id is the suit initial followed by digits that parse back to the rank |
| CardModel.IdInjective | src/common/card.rs:69 | two different cards never share an id |
| CardModel.IsSuperiorThan | src/common/card.rs:84-95 | the two-argument comparison is "greater strength", where any trump outranks any non-trump and ranks decide otherwise, whatever the suit |
| CardModel.SuperiorThanIsStrictOrder | src/common/card.rs:84-95 | the two-argument comparison is irreflexive, asymmetric and transitive |
| CardModel.Strength | tests/card_test.rs:8-20 | any trump is stronger than any card of the led suit |
| CardModel.IsSuperior | tests/card_test.rs:8-20 | the led-suit comparison is "greater strength" for the led-suit key |
| CardModel.SuperiorIsStrictOrder | tests/card_test.rs:8-20 | for any led suit, the led-suit comparison is a strict order |
| CardModel.ComparisonsAgree | src/common/card.rs:84-95 | the two comparisons agree whenever a trump is involved or both cards follow the led suit |
| CardModel.ComparisonsDifferOffSuit | src/common/card.rs:90-93 | off the led suit they differ: Hearts 5 beats Clubs 2 by rank but not when Clubs was led |
| CardModel.CardTestVectors | tests/card_test.rs:8-20 | all twelve comparison cases of the card test hold |
| Decimal.NatToString | src/common/card.rs:122 | `to_string` of a number gives non-empty digits without a leading zero, and one digit exactly below 10 |
| Decimal.ParseNatToString | src/common/card.rs:122 | parsing the decimal text of a number gives the number back |
| Decimal.NatToStringInjective | src/common/card.rs:122 | different numbers have different decimal texts |
| Utils.GetNextIndex | src/common/utils.rs:8-14 | on a non-empty table, the successor is the next seat modulo the table size, and the last seat wraps to 0 |
| Utils.IterateNextIsModular | src/common/utils.rs:8-14 | k successor steps from seat i land on seat (i + k) mod n |
| Utils.FullCycleReturns | src/common/utils.rs:8-14 | n successor steps on an n-seat table return to the start |
| Utils.Compare | src/common/utils.rs:23-28 | with nothing to compare against the answer is yes; otherwise it is the comparator's answer |
| Utils.Rotate | src/common/game.rs:66-74 | joining the part from the start index with the part before it is a rotation: same length, same cards, position i holds the card at (i + start) mod n |
| Utils.FilterSubsequence | src/common/trick.rs:110-114 | a filter keeps its survivors in their original order |
| Utils.FilterMultiplicity | src/common/trick.rs:110-114 | a filter keeps every copy of a matching card and no copy of any other card |
| BidLadder.CompareBids | src/common/bid.rs:79-89 | Passe is accepted only over Passe; any other bid is accepted exactly over a strictly weaker bid on the ladder Passe < Petite < Garde < GardeSans < GardeContre |
| BidLadder.CompareBidsIsStrictOrder | src/common/bid.rs:82-87 | among the real bids, the comparison is irreflexive, transitive and total: of two different bids one is accepted over the other |
| BidLadder.CompareBidsTestVectors | tests/bid_test.rs:6-50 | every acceptance asserted in the bid tests holds |
| BidLadder.GetAvailableBids | src/common/bid.rs:45-53 | exactly the bids above the current one, in strictly increasing ladder order, then Passe last; 5 - rung entries in all |
| BidLadder.BasicsAbove | src/common/bid.rs:46-49 | filtering the four basic bids through the comparison keeps the bids above the current one |
| BidLadder.AvailableBidsTestVectors | tests/bid_test.rs:52-60 | the list lengths are 4, 3, 2, 1 and 5 for Petite, Garde, GardeSans, GardeContre and Passe |
| BidEvaluation.TakerEvaluation | src/common/bid.rs:91-102 | the evaluation is the oudler count times the hand's points modulo 5; the suggested bid's rung is that evaluation halved and rounded down, capped at GardeContre; a hand without oudlers always passes |
| BidEvaluation.BotChoose | src/common/bid.rs:62-76 | the announced bid is always one of the available bids; the running bid moves only on a real bid; a suggested bid above the current one is announced as is |
| Scoring.ComputePoints | src/common/score.rs:7-9 | a pile is worth at most 4.5 points per card |
| Scoring.PointsAdditive | src/common/score.rs:7-9 | the points of two piles laid together are the sum of their points |
| Scoring.PointsPermutation | src/common/score.rs:7-9 | reordering a pile does not change its points |
| Scoring.ComputeOudlers | src/common/score.rs:3-5 | the count is at most the pile size and is zero exactly when no card is an oudler |
| Scoring.OudlersAdditive | src/common/score.rs:3-5 | oudler counts add up over joined piles |
| Scoring.OudlersPermutation | src/common/score.rs:3-5 | reordering a pile does not change its oudler count |
| Scoring.GetNeededPoints | src/common/score.rs:21-29 | for 0..3 oudlers the threshold lies between 36 and 56 points; any other count gives 0 |
| Scoring.NeededPointsNonIncreasing | src/common/score.rs:21-29 | more oudlers never raise the threshold |
| Scoring.ComputeNeededPoints | src/common/score.rs:11-13 | the pile's threshold is 0 exactly when it holds more than three oudlers |
| Scoring.DiffPoints | src/common/score.rs:15-19 | the margin is at least -56 points and at most the pile's maximum; without oudlers it is points minus 56 |
| Scoring.DiffPointsMonotone | src/common/score.rs:15-19 | winning more cards never lowers the margin |
| Scoring.Multiplier | src/common/score.rs:31-39 | the multiplier is at most 6 and is zero exactly for Passe |
| Scoring.MultiplierIncreasing | src/common/score.rs:31-39 | a stronger bid has a strictly larger multiplier |
| DeckModel.GenerateCards | src/common/game.rs:102-115 | suit by suit, ranks 1..n in order: N·n cards, n per listed suit |
| DeckModel.RunsShape | src/common/game.rs:102-115 | the generated cards number N·n, each of a listed suit with a rank in 1..n |
| DeckModel.CountSuitRuns | src/common/game.rs:102-115 | a suit listed k times contributes k·n cards of that suit |
| DeckModel.FreshDeckRuns | src/common/game.rs:117-135 | the fresh deck is Spades, Hearts, Diamonds and Clubs 1..14, then trumps 1..22 |
| DeckModel.FreshDeckCounts | tests/game_tests.rs:15-60 | the fresh deck holds 22 trumps and 14 cards of each plain suit |
| DeckModel.SuitPoints | tests/score_tests.rs:22-53 | each plain suit is worth 17 points and the trumps 23 |
| DeckModel.FreshDeckPoints | tests/score_tests.rs:16-20 | the deck is worth 91 points |
| DeckModel.PlainNoOudlers | src/common/card.rs:128-130 | a plain suit holds no oudler |
| DeckModel.TrumpOudlers | src/common/card.rs:151-156 | the trumps hold exactly three oudlers |
| DeckModel.FreshDeckOudlers | tests/score_tests.rs:9-14 | the deck holds exactly three oudlers |
| DeckModel.FreshDeckDistinct | src/common/game.rs:117-135 | no card occurs twice in the deck |
| DeckModel.FreshDeckFacts | tests/game_tests.rs:9-60 | 78 distinct cards: 22 trumps, 14 per plain suit, 91 points, 3 oudlers |
| DeckModel.CreateDeck | src/common/game.rs:132-138 | up to the shuffle, the deck is the fresh deck with all of the facts above |
| DeckModel.ShuffledDeckFacts | src/common/game.rs:132-138 | any reordering of the fresh deck keeps the size, distinctness, suit counts, 91 points and 3 oudlers |
| DeckModel.SplitDeck | src/common/game.rs:39-45 | the cut fails past the end of a short deck; otherwise it keeps size and cards, and position i holds the card at (i + k) mod n |
| DeckModel.SplitChangesEnds | tests/game_tests.rs:70-78 | on distinct cards, a cut strictly inside the deck changes both the top and the bottom card |
| Players.NewPlayer | src/common/player.rs:33-39 | a new player has the given name and id, is a bot, does not deal and holds no cards |
| Players.KingsToCall | src/common/player.rs:47-53 | the king list has four kings, no trump, and no suit twice |
| Players.KingsCoverPlainSuits | src/common/player.rs:47-53 | every plain suit's king is offered |
| Players.KeyLeAntisymmetric | src/common/player.rs:90 | two cards with the same (initial, rank) key are the same card |
| Players.SortByKey | src/common/player.rs:90 | the sort gives a sorted reordering of its input |
| Players.SortedUnique | src/common/player.rs:90 | two sorted reorderings of the same cards are equal, so the unstable sort has a single possible result |
| Players.AddKittyInHand | src/common/player.rs:87-92 | the new hand is the old hand plus the kitty, reordered, sorted by (initial, rank); won cards are untouched |
| Players.AddKittyInHandDeterministic | src/common/player.rs:87-92 | the new hand is the only sorted arrangement of hand plus kitty |
| KittyRules.GetMaxSizeKitty | src/common/kitty.rs:43-49 | 0 exactly below 2 players, 3 exactly from 5 players, and 6 in between |
| KittyRules.MaxSizeKittyTestVectors | tests/deal_tests.rs:24-31 | 1→0, 2→6, 3→6, 4→6, 5→3, 6→3, 7→3 |
| KittyRules.NewKitty | src/common/kitty.rs:14-19 | a new kitty is empty, with size 0 exactly for fewer than 2 players |
| KittyRules.BotCompose | src/common/kitty.rs:21-24 | the bot returns its cards unchanged |
| KittyRules.HumanCompose | src/common/kitty.rs:26-40 | it succeeds exactly when every prompt picks a card in the hand; the result has max_size cards, the k-th being the k-th pick, and is stored as the kitty |
| TrickEngine.PlayedSuit | src/common/trick.rs:66-73 | no led suit exactly for an empty trick; otherwise the first card's suit |
| TrickEngine.ScanBest | src/common/trick.rs:25-32 | the left-to-right scan ends on a card that nothing beats and that beats every earlier card |
| TrickEngine.BestPlayedCardIndex | src/common/trick.rs:21-35 | no winner exactly for an empty trick; otherwise the earliest card that no card beats |
| TrickEngine.GetBestPlayedCardIndex | src/common/trick.rs:21-35 | the loop returns an index in the trick that no card beats and that beats every earlier card |
| TrickEngine.WinnerUnique | src/common/trick.rs:25-32 | a trick has at most one winner |
| TrickEngine.WinnerFollowsSuitOrTrumps | src/common/trick.rs:25-32 | the winning card follows the led suit or is a trump, never a discard |
| TrickEngine.TrickTestVectors | tests/trick_test.rs:12-17 | the winners of the trick tests: none, 1, 1, 2, 2 and 0 |
| TrickEngine.AllowedCardsToPlay | src/common/trick.rs:107-116 | the whole hand for an empty trick; otherwise every hand card of the led suit and nothing else, in hand order |
| TrickEngine.IsLegalPlay | src/common/trick.rs:101-106 | a legal card is in hand; on an empty trick any card in hand is legal; a held led plain suit must be followed, and any card of it may be; without it, a held trump must be played; without the led plain suit, any held trump is legal and nothing else is; on a trump lead an overtaking trump is forced when one is held, and otherwise any held trump is legal and nothing else is; with neither the led suit nor a trump any card in hand is legal |
| TrickEngine.LegalPlayExists | src/common/trick.rs:101-106 | a player with cards always has a legal card |
| TrickEngine.AllowedMatchesRuleWhenFollowing | src/common/trick.rs:101-116 | when the trick is empty, or a plain suit is led and held, a card is legal exactly when it is allowed |
| TrickEngine.OvertakesMeansBeatsWinner | src/common/trick.rs:103-104 | on a trump lead, overtaking every trump played means beating the current winner |
| TrickEngine.LegalityTestVectors | tests/trick_test.rs:34-42 | the nine legality cases of the trick test |
| GameTable.PlayerNameInjective | src/common/game.rs:82 | different player numbers give different names |
| GameTable.GeneratePlayers | src/common/game.rs:79-87 | n players with ids 1..n and names "Player i"; only the first is human; nobody deals; all names differ |
| GameTable.SetFirstDealer | src/common/game.rs:89-92 | an empty table fails; otherwise only dealer flags change, and if nobody dealt before, the picked player becomes the only dealer |
| GameTable.CreatePlayers | src/common/game.rs:94-98 | n players with the picked player the only dealer; fails for 0 players |
| GameTable.NewGame | src/common/game.rs:32-38 | the players as created, with the fresh 78-card deck |
| GameTable.FindDealer | src/common/game.rs:140-142 | the first dealing player; none exactly when nobody deals |
| GameTable.FindOnlyDealer | src/common/deal.rs:60-62 | with a single dealer, the search finds that dealer |
| GameTable.UpdateDealer | src/common/game.rs:57-65 | with one dealer before, there is exactly one after, at the next seat; nothing but the flags changes |
| GameTable.UpdateDealerCycles | src/common/game.rs:57-65 | k updates move the single dealer k seats round the table |
| GameTable.UpdateDealerFullRound | src/common/game.rs:57-65 | a full round of updates returns the deal to the first dealer |
| GameTable.ReorderPlayers | src/common/game.rs:66-74 | the reordered table is a reordering of the same players: the one after the dealer first, the dealer last |
| GameTable.ReorderIsRotation | src/common/deal.rs:79-87 | position i holds the player d + 1 + i seats round from the dealer d |
| GameTable.CollectDeck | src/common/game.rs:47-56 | every returned card is in the deck, and every deck card came from some player |
| GameTable.CollectDeckAppend | src/common/game.rs:47-56 | collecting two groups of players gives their collections in turn |
| GameTable.CollectWonCards | src/common/game.rs:47-56 | once hands are empty, the collected deck has as many cards as all the won piles |
| DealRules.GetDealSize | src/common/deal.rs:103-108 | a packet is 1 card exactly when it goes to the kitty, and 3 cards when it goes to a player |
| DealRules.GetKittyExpectedSize | src/common/deal.rs:115-121 | the expected kitty size equals the kitty's maximum size |
| DealRules.DealKittyOrPlayer | src/common/deal.rs:123-131 | a full kitty always sends the next packet to a player; otherwise the draw decides |
| DealRules.ToggleIsDealer | src/common/deal.rs:64-66 | only the toggled player's dealer flag changes, and it flips |
| DealRules.PatchDealer | src/common/deal.rs:68-77 | with a single dealer, the new single dealer is the next seat and is the player returned |
| DealRules.PatchDealerIsUpdateDealer | src/common/deal.rs:68-77 | with a single dealer, the patch and `update_dealer` leave the same table |
| DealRules.PatchDealerTwoDealers | src/common/deal.rs:68-77 | with two dealers they differ: the patch clears both flags, while `update_dealer` leaves exactly one |
| DealRules.ClearCards | src/common/deal.rs:109-113 | every player's cards are emptied and nothing else changes |
| DealRules.DealStep | src/common/deal.rs:141-153 | one pass fails with out-of-cards exactly when the packet runs past the end of the deck, and for want of players exactly when a player packet fits but nobody sits at the table; a successful pass moves on by the packet size, adds the packet to the kitty or to the seated player's hand, and lets `deal_kitty_or_player` pick the next packet |
| DealRules.DealLoop | src/common/deal.rs:140-154 | the `while` loop of `deal_cards` as a function of its state: the table size never changes |
| DealRules.DealLoopStops | src/common/deal.rs:140-154 | the loop ends with no error exactly when the whole deck is dealt; an error is the failure of the pass from where it stopped |
| DealRules.DealLoopPackets | src/common/deal.rs:140-154 | the cards not in the kitty go out in whole 3-card packets |
| DealRules.DealOutcome | src/common/deal.rs:133-155 | at a seated table the deal never fails for want of players; it runs out of cards only on a player packet with fewer than 3 cards left; on a deck of whole packets it succeeds exactly when the kitty got a multiple of 3 cards |
| DealRules.PlayersOnly | src/common/deal.rs:140-154 | when every later draw sends the packet to a player, the kitty does not change |
| DealRules.ShortKittyOverrun | src/common/deal.rs:123-131 | with an empty kitty and one kitty draw after the first packet, a deck of whole packets runs out of cards |
| DealRules.OutcomeFacts | src/common/deal.rs:133-155 | the result of the deal, seen from its last state: out of cards only with a player packet pending and fewer than 3 cards left; on a deck of whole packets at a seated table, success exactly when the kitty got a multiple of 3 cards |
| DealRules.FixedKittyOrPlayer | src/common/deal.rs:123-131 | the corrected choice agrees with `deal_kitty_or_player` while more cards are left than the kitty lacks, and otherwise sends the next card to the kitty |
| DealRules.FixedDealStep | src/common/deal.rs:141-153 | a corrected pass fails exactly when the packet runs past the deck or a player packet has nobody to go to; otherwise it moves on by the packet size |
| DealRules.FixedDealLoop | src/common/deal.rs:140-154 | the corrected loop keeps the table size |
| DealRules.FixedStepOnTrack | src/common/deal.rs:140-154 | a corrected pass from a deal that can still finish succeeds and leaves a deal that can still finish |
| DealRules.FixedLoopCompletes | src/common/deal.rs:140-154 | from a deal that can still finish, the corrected loop deals the whole deck and fills the kitty |
| DealRules.FixedDealCompletes | src/common/deal.rs:133-155 | the corrected deal completes with the kitty at its expected size whenever the deck holds the kitty's shortfall plus whole packets |
| DealRules.FixedStepAsDealStep | src/common/deal.rs:141-153 | a corrected pass is a pass of `deal_cards` whose draw for the next packet is replaced by the corrected choice |
| DealRules.FixedLoopWell | src/common/deal.rs:140-154 | the corrected loop keeps the same dealing invariant as `deal_cards`, so a corrected run that deals the whole deck has kept every card, in deck order, in round-robin packets |
| DealRules.HandsOfTurnSizes | src/common/deal.rs:147-150 | round-robin hands of `rounds` packets each, one more before the current turn, hold `rounds` packets per seat plus one per seat before the turn |
| DealRules.RoundsPerSeat | tests/deal_tests.rs:7-20 | at one to five players, the 78 cards minus the expected kitty split into whole rounds of 3-card packets (6 rounds at four players, 5 at five) |
| DealRules.WholeRounds | src/common/deal.rs:147-150 | a deal that has handed out a whole number of rounds stops with the turn back at the first seat |
| DealRules.EqualHands | tests/deal_tests.rs:7-20 | a finished 78-card deal at one to five players with the kitty full and every card kept leaves every hand at 78 minus the kitty over the number of players: 18 cards at four players, 15 at five |
| DealRules.FixedRealDeal | tests/deal_tests.rs:7-20 | with the corrected choice, a 78-card deck at any seated table deals out completely: the kitty ends at its expected size (6 at four players, 3 at five), the hands and the kitty together hold exactly the 78 cards, in deck order, and at up to five players every hand holds the same number of cards (18 at four players, 15 at five) |
| DealRules.DealStepKeeps | src/common/deal.rs:140-154 | each pass keeps the dealing invariant; it fails for want of players only at a table with nobody at it; it never fails once the kitty is full and the deck splits into whole packets |
| DealRules.DealLoopWell | src/common/deal.rs:140-154 | the loop keeps the dealing invariant to its end: a run that deals the whole deck has dealt it well, it fails for want of players exactly at an empty table with a packet to deal, and it never fails while the kitty is full and the deck splits into whole packets |
| DealRules.DealCardsContract | src/common/deal.rs:133-155 | everything listed below for `DealCards`, derived from the loop's result alone |
| DealRules.DealCards | src/common/deal.rs:133-155 | listed below the table |
| LibVariant.Trim | src/lib.rs:22 | trimming never lengthens the text and leaves no white space at either end |
| LibVariant.TrimPadded | src/lib.rs:22 | white space around a text is removed and the text itself is kept |
| LibVariant.ParseU8 | src/lib.rs:22 | an accepted text is an optional '+' followed by at least one digit, and nothing else |
| LibVariant.ParseU8NatToString | src/lib.rs:22 | the decimal text of n, with or without '+', parses to n exactly when n < 256 and fails otherwise |
| LibVariant.ParseU8Vectors | src/lib.rs:22 | "+05" is 5; "-3", "+", "" and "300" fail |
| LibVariant.Build | src/lib.rs:18-31 | a success has 2..5 players; the program name alone gives 4; more or fewer arguments hit the unimplemented branch; a parse failure happens exactly when the trimmed argument is not a u8 |
| LibVariant.BuildNumeral | src/lib.rs:22-28 | a padded number n is accepted exactly for 2..5, rejected as invalid below 256, and unparsable from 256 on |
| LibVariant.GetterFor | src/lib.rs:182-184 | the trump getters are used exactly for the trump suit |
| LibVariant.GetterScore | src/lib.rs:119-149 | the stored scores are those of the current engine |
| LibVariant.GetterName | src/lib.rs:130-156 | trump 1 is "Petit" and trump 22 is "Joker", and only they; every other name is the current engine's |
| LibVariant.LibNameAgrees | src/lib.rs:150-156 | the names differ from the current engine's exactly for trumps 1 and 22 |
| LibVariant.GetterNameInjective | src/lib.rs:130-156 | with one getter, different ranks have different names |
| LibVariant.NewLibCard | src/lib.rs:99-108 | a new card stores its rank and suit, and the getters' score and name |
| LibVariant.LibId | src/lib.rs:112-114 | the id is the glyph and the name between two bars |
| LibVariant.LibIdInjective | src/lib.rs:112-114 | two properly built cards with the same id are the same card |
| LibVariant.BuildAllKeepsCards | src/lib.rs:159-172 | building cards keeps their (suit, rank) pairs; with the suit's own getters every card is properly built |
| LibVariant.GenerateLibCards | src/lib.rs:159-172 | the loop builds, suit by suit, ranks 1..n with the given getters |
| LibVariant.BuildDeck | src/lib.rs:174-187 | up to the shuffle: the fresh deck's 78 cards, all properly built, 22 trumps, a 91-point fold |
| LibVariant.LibDeckFacts | src/lib_tests.rs:5-55 | plain runs then trumps give 78 properly built cards, 22 trumps, 91 points |
| LibVariant.FoldScoreIsPoints | src/lib.rs:204-206 | folding stored scores that are right adds the pile's points to the start value |
| LibVariant.ComputeScoreIsPoints | src/lib.rs:204-206 | on properly built cards the fold is the current engine's point total, at most 4.5 per card |
| LibVariant.KittySize | src/lib.rs:189-196 | the older kitty size agrees with the current one for every u8 player count |
| TarotVariant.SuitNameInjective | src/tarot/deck.rs:7-8 | different suits have different names |
| TarotVariant.TarotIsTrumpBySuit | src/tarot/deck.rs:30-32 | testing the suit name for "Trumps" is the same as being a trump |
| TarotVariant.TarotScore | src/tarot/deck.rs:33-49 | the name-dispatched score is the current engine's score |
| TarotVariant.TarotName | src/tarot/deck.rs:50-66 | the names are those of `src/lib.rs` (Petit, Joker, faces, numbers) |
| TarotVariant.TarotId | src/tarot/deck.rs:67-69 | the id is the one `src/lib.rs` gives the same card |
| TarotVariant.TarotIdInjective | src/tarot/deck.rs:67-69 | different cards have different ids |
| TarotVariant.DeckNew | src/tarot/deck.rs:91-101 | up to the shuffle: the fresh deck, no dealer, 78 cards, 22 trumps, 56 plain cards, 14 per plain suit by name |
| TarotVariant.TarotDeckCounts | src/tarot/tests/deck.rs:4-40 | any reordering of the fresh deck has 22 trumps, 56 plain cards and 14 per named plain suit |
| TarotVariant.UpdateDealer | src/tarot/deck.rs:102-107 | fails exactly for 0 players (empty range or `% 0`) or a dealer at 255 (overflow); the new dealer is always below n; with no dealer yet, the pick becomes the dealer |
| TarotVariant.UpdateDealerWalks | src/tarot/deck.rs:102-107 | k updates from dealer d give dealer (d + k) mod n |
| TarotVariant.UpdateDealerFollowsTable | src/tarot/deck.rs:102-107 | k updates walk the same seats as k `get_next_index` steps over a table of n players |
| TarotVariant.UpdateDealerFullRound | src/tarot/deck.rs:102-107 | n updates bring the dealer back |
| TarotVariant.Split | src/tarot/deck.rs:108-114 | the cut is the current engine's cut and keeps the dealer; it fails past the end of a short deck |
| TarotVariant.SplitPartSizes | src/tarot/deck.rs:109-110 | on a full deck the part left below the cut always has more than three cards, but a cut at 1 takes fewer than three |
| TarotVariant.SplitWithMargin | src/tarot/deck.rs:109-110 | with the index drawn from [4, 75), the cut keeps the dealer, the size and the cards |
| TarotVariant.SplitWithMarginParts | src/tarot/deck.rs:109-110 | on a full deck both parts of a corrected cut hold more than three cards |
| TarotVariant.GameNew | src/tarot/game.rs:8-14 | succeeds exactly for at most 5 players (the five names "A" to "E"), named in order, no two alike |
| TarotVariant.ReorderPlayers | src/tarot/game.rs:15-20 | fails exactly for no dealer, a dealer at 255, or a table size that truncates to 0; otherwise it reorders the same players, starting at seat (d + 1) mod n |
| TarotVariant.ReorderIsRotation | src/tarot/game.rs:15-20 | position i holds the player d + 1 + i seats round from the dealer |
| TarotVariant.ReorderAfterLastSeat | src/tarot/game.rs:15-20 | with the last seat dealing the order is unchanged |
| TarotVariant.ComputeScore | src/tarot/score.rs:1-7 | the loop total is the pile's points, at most 4.5 per card |
| TarotVariant.DeckScores91 | src/tarot/tests/compute_score.rs:4-9 | any reordering of the fresh deck scores 91 |

What `DealRules.DealCards` states:

- An empty deck only clears the hands.
- The loop fails for want of players exactly when there is a first packet
  and nobody to deal it to.
- On success:
  - the players keep everything but their cards;
  - the hands plus the kitty hold exactly the deck plus the old kitty;
  - the old kitty is kept at the front of the kitty;
  - each hand, and the new part of the kitty, are in deck order;
  - every hand is a whole number of 3-card packets;
  - an earlier seat holds at most one packet more than a later seat;
  - a kitty that started within its expected size stays within it.
- With a full kitty and a deck of whole packets, the deal succeeds and
  leaves the kitty as it was.
- The result is the one `DealRules.DealLoop` reaches from the cleared
  table.
- Out of cards happens only on a player packet with fewer than 3 cards
  left in the deck.
- At a seated table, on a deck of whole packets, the deal succeeds exactly
  when the kitty received a multiple of 3 cards.

## Left out

- Console I/O: the human prompts, display, `show_taker`/`show_kitty`,
  `run` and `src/main.rs`. None of it decides any rule.
- The random mechanisms. Each random value is a parameter or an oracle
  instead.
- The shuffles in `create_deck`, `build_deck` and `Deck::new`. The deck
  methods return the deck before its shuffle. Facts about a shuffled deck
  are proved for every reordering of the fresh deck, in
  `DeckModel.ShuffledDeckFacts`, `TarotVariant.TarotDeckCounts` and
  `TarotVariant.DeckScores91`.
- Stubs:
  - `bot_play` and `bot_call_king` are `todo!()`;
  - `Player::play` is empty;
  - `check_selected_card` has no working body, so the legality predicate
    comes from the rule comments and tests instead;
  - `Deck::deal` only prints;
  - `draw_cards` is empty;
  - the bonus score formula in `src/common/score.rs` is commented out.
- The kitty eligibility rule (no kings, no oudlers). It is only a TODO in
  the code.
- KittyRules.HumanCompose: each pick indexes the original hand. The
  removal of earlier picks by `utils::subtract` is not modelled, because
  its source is not part of this model. In `human_compose` the k-th pick
  indexes the hand left after the earlier picks.
- The 18- and 15-card hands expected by the deal tests, for `deal_cards`
  as written. They depend on the random draws there, and a run can end
  early (see "Findings"). With the corrected choice they hold for every
  draw (`DealRules.FixedRealDeal`).
- Floating point. Points are exact half-points.
- Player bookkeeping that no rule reads:
  - the `score` and `picked_up_cards` fields;
  - the `Player::new` constructors of `src/lib.rs` and `src/tarot/game.rs`,
    beyond the name that `TarotVariant.GameNew` stores.
- `Deal::new` and the bidding loop. They only chain the modelled
  operations and console prompts.
- Utils.GetNextIndex: requires a non-empty table. The source computes
  `len() - 1` on an unsigned length, which underflows on an empty one.
- TrickEngine.IsLegalPlay: a player without the led plain suit may play
  any held trump. The model does not require that trump to overtake an
  earlier one, because the code's comments contradict each other on this.
- LibVariant.Trim: white space is the Unicode White_Space property, as
  Rust's `trim` uses it. There is no further Unicode handling.
- LibVariant.Build: the `todo!()` branch for other argument counts is the
  `NotImplemented` error.

## Findings

| source | as written | input that shows it | evidently intended | confidence | as-written member | corrected member |
|---|---|---|---|---|---|---|
| src/tarot/deck.rs:109-110 | the cut index is drawn from [1, 75) | a cut at 1 on the 78-card deck takes a single card | the comment asks for more than three cards on each side, so the index should be drawn from [4, 75) | medium, not executed | TarotVariant.SplitPartSizes | TarotVariant.SplitWithMarginParts |
| src/common/deal.rs:123-142 | while the kitty is short, `deal_kitty_or_player` draws kitty or player whatever the number of cards left, and the slice `deck[index..index + 3]` for a player packet is taken without a bound check | 4 players, 78 cards, an empty kitty, and a single kitty draw right after the first packet: the kitty stays at 1 card, and the last player packet is the slice 76..79 of a 78-card deck | the deal fills the kitty to its expected size and deals the whole deck, with every card kept and equal hands, as the deal tests (tests/deal_tests.rs:7-20) expect | medium, not executed | DealRules.ShortKittyOverrun | DealRules.FixedRealDeal |
