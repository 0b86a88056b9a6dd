# Mendikot rules engine in Dafny

This project models the rules engine of a Mendikot card game app, written in
Kotlin. Mendikot is a four-player, two-team trick-taking game in which the
tens are the scoring cards. The model covers five parts:

- the cards and the 52-card deck;
- the hand rules of a player: following suit, playing a card, receiving cards;
- the per-deal tallies of a team: tricks won and tens collected, and the
  Mendikot and whitewash tests;
- the game state and its direct rules: match setup, seat and team lookups,
  trick-winner determination, trick bookkeeping, deal scoring, dealer
  rotation and the per-deal reset;
- the engine that drives a deal: team formation from a draw, the 5-4-4
  round-robin deal, trump selection and its deferred reveal, turn-checked card
  play, trick completion, deal completion, and the start of a new deal.

The model is a functional state machine over one immutable `State`. Every
Kotlin method that mutates the game state becomes a pure function from a
state to the next state. A method that reports success returns a
`(bool, State)` pair. A method that may find nothing returns an `Option`.
Seats are identified by their id. The Kotlin objects that several snapshots
share are modelled as values.

Modules follow the source files:

| module | file | source |
|---|---|---|
| `Wrappers` | wrappers.dfy | Kotlin's nullable values (`Option`) |
| `KotlinInt` | kotlin_int.dfy | Kotlin's truncating `%` |
| `Cards` | cards.dfy | model/Card.kt |
| `Players` | players.dfy | model/Player.kt |
| `Teams` | teams.dfy | model/Team.kt |
| `GameStates` | game_state.dfy | model/GameState.kt |
| `Engine` | engine.dfy | game/GameEngine.kt |
| `Conservation` | conservation.dfy | the card-count invariant over a whole deal |
| `TenConservation` | ten_conservation.dfy | which cards the state holds over a deal: none is created and every ten is kept |

The shuffled deck is a parameter of every operation that shuffles, so any
sequence of cards can be dealt. `WellFormed` is the shape every initialised
four-player match keeps:

- seat `i` has id `i` and belongs to team `i % 2`;
- team `t` has id `t`;
- the dealer is a seat, or still unset (-1).

The model follows the code. It keeps four behaviours of the code that
differ from the written rules of the game:

- **Hidden-trump lead.** When trump is still hidden and the trick is led in
  the trump suit, the first card always wins the trick (`GameStates.HiddenTrumpLeadWins`).
  The written rules give the trick to the highest card of the suit led.
- **Rosters from the draw.** Team formation returns the rosters from the draw,
  but writes only the dealer back to the state. The stored teams keep the
  fixed partnerships 0&2 and 1&3 (`Engine.FormTeamsBasedOnCards`).
- **Where the trump card goes.** On reveal the trump card goes to seat
  `(dealer + 1) % 4`, whoever selected it (`Engine.RevealTrump`). The written
  rules return it to its owner. The two agree only when that seat was the
  selector, and `Conservation.DealKeepsFiftyTwo` and
  `TenConservation.DealKeepsTens` assume that it was.
- **End of the deal.** The deal ends when seat 0's hand is empty after a
  trick. The written rules end it after the thirteenth trick, when every hand
  is empty (`Engine.CompleteTrickOutcome`).

## Model

Source paths are relative to the repository root, under
`app/src/main/java/com/example/mendikot/`.

| member | source | states |
|---|---|---|
| `KotlinInt.Rem` | app/src/main/java/com/example/mendikot/game/GameEngine.kt:113-118 | Kotlin's `%` agrees with the mathematical remainder on a non-negative left operand. On a negative one the result lies in `(-b, 0]`. |
| `KotlinInt.RemOdd` | app/src/main/java/com/example/mendikot/model/GameState.kt:89-100 | Truncating `%` is symmetric about zero: `Rem(-a, b) == -Rem(a, b)`, so a negative seat id gives a non-positive remainder. |
| `Cards.SuitOrdinal` | app/src/main/java/com/example/mendikot/model/Card.kt:70-75 | `Suit.ordinal` is the suit's position in `Suit.values()`. |
| `Cards.RankOrdinal` | app/src/main/java/com/example/mendikot/model/Card.kt:81-95 | `Rank.ordinal` is the rank's position in `Rank.values()`. |
| `Cards.Value` | app/src/main/java/com/example/mendikot/model/Card.kt:81-95 | A rank's value is 14 minus its ordinal, between 2 and 14. |
| `Cards.IsTen` | app/src/main/java/com/example/mendikot/model/Card.kt:10-11 | `isTen` holds exactly for the four tens of the deck, one per suit. |
| `Cards.RankOrdinalOfIndex` | app/src/main/java/com/example/mendikot/model/Card.kt:81-95 | The ordinal of the rank at index `i` of `Rank.values()` is `i`. |
| `Cards.ValueStrictlyDecreasing` | app/src/main/java/com/example/mendikot/model/Card.kt:81-95 | Rank values strictly decrease along the declaration order. |
| `Cards.ValueInjective` | app/src/main/java/com/example/mendikot/model/Card.kt:81-95 | Two ranks with the same value are the same rank. |
| `Cards.TensOfCounts` | app/src/main/java/com/example/mendikot/model/Card.kt:10-11 | Filtering on `isTen` keeps every ten as often as it occurs, and keeps nothing else. |
| `Cards.TensOfAppend` | app/src/main/java/com/example/mendikot/model/Card.kt:10-11 | Filtering on `isTen` distributes over concatenation, so order is kept. |
| `Cards.TensOfNoTens` | app/src/main/java/com/example/mendikot/model/Card.kt:10-11 | A sequence without tens filters to nothing. |
| `Cards.SuitRow` | app/src/main/java/com/example/mendikot/model/Card.kt:58-60 | The inner loop of `createDeck` yields each card of the suit exactly once and no card of another suit, in rank order. |
| `Cards.DeckFrom` | app/src/main/java/com/example/mendikot/model/Card.kt:56-60 | The nested loops from suit `k` on put suit `k + i / 13` and rank `i % 13` at index `i`. |
| `Cards.CreateDeck` | app/src/main/java/com/example/mendikot/model/Card.kt:53-63 | The deck has 52 cards and is suit-major. Index `i` holds `Suit.values()[i / 13]` and `Rank.values()[i % 13]`, and index 0 is the ace of hearts. |
| `Cards.DeckDistinct` | app/src/main/java/com/example/mendikot/model/Card.kt:53-63 | The 52 cards of the deck are pairwise distinct. |
| `Cards.DeckComplete` | app/src/main/java/com/example/mendikot/model/Card.kt:53-63 | Every (suit, rank) pair is in the deck, at index `13 * suit ordinal + rank ordinal`. |
| `Cards.SuitRowTens` | app/src/main/java/com/example/mendikot/model/Card.kt:10-11 | Each suit holds exactly one ten. |
| `Cards.DeckFromTens` | app/src/main/java/com/example/mendikot/model/Card.kt:53-63 | The tens of the deck from suit `k` on are the tens of those suits, in order. |
| `Cards.DeckTens` | app/src/main/java/com/example/mendikot/model/Card.kt:10-11 | Exactly four cards of the deck are tens, one per suit. |
| `Cards.RankNameRoundTrip` | app/src/main/java/com/example/mendikot/model/Card.kt:19-33 | Each rank's name reads back as that rank and contains no underscore. |
| `Cards.SuitNameRoundTrip` | app/src/main/java/com/example/mendikot/model/Card.kt:35-40 | Each suit's name reads back as that suit. |
| `Cards.ImageNameRoundTrip` | app/src/main/java/com/example/mendikot/model/Card.kt:18-43 | Parsing "rank_of_suit" gives back card `c` exactly when the name is `c`'s image name. This holds in both directions. |
| `Cards.ImageName` | app/src/main/java/com/example/mendikot/model/Card.kt:18-43 | The image resource name of a card parses back to that card. |
| `Cards.ImageNameInjective` | app/src/main/java/com/example/mendikot/model/Card.kt:18-43 | Distinct cards have distinct image resource names. |
| `Players.HasSuit` | app/src/main/java/com/example/mendikot/model/Player.kt:16-18 | `hasSuit(s)` holds exactly when some card of the hand has suit `s`. |
| `Players.OfSuitCounts` | app/src/main/java/com/example/mendikot/model/Player.kt:33 | The suit filter keeps every card of the suit as often as the hand holds it, and keeps nothing else. |
| `Players.OfSuitAppend` | app/src/main/java/com/example/mendikot/model/Player.kt:33 | The suit filter distributes over concatenation, so it keeps hand order. |
| `Players.PlayableCards` | app/src/main/java/com/example/mendikot/model/Player.kt:26-40 | The result depends on the lead suit and the hand. It is the whole hand when there is no lead suit, and also when the player is void in the suit led. Otherwise it is exactly the lead-suit cards, in hand order. It is always a sub-multiset of the hand, and it is non-empty when the hand is. |
| `Players.PlayableIgnoresTrump` | app/src/main/java/com/example/mendikot/model/Player.kt:26-40 | The trump argument has no effect on the playable cards. |
| `Players.FirstIndex` | app/src/main/java/com/example/mendikot/model/Player.kt:47-49 | A held card has a first position in the hand, and no earlier copy. |
| `Players.RemoveFirstCut` | app/src/main/java/com/example/mendikot/model/Player.kt:47-49 | `remove` cuts the hand at the first copy of the card. A card not in the hand leaves the hand unchanged. |
| `Players.RemoveFirstCounts` | app/src/main/java/com/example/mendikot/model/Player.kt:47-49 | Removing a held card takes exactly one copy out of the hand. |
| `Players.PlayCard` | app/src/main/java/com/example/mendikot/model/Player.kt:47-49 | Playing a held card returns it and removes one copy; nothing else about the player changes. Playing any other card returns null and leaves the player as it was. |
| `Players.ReceiveCards` | app/src/main/java/com/example/mendikot/model/Player.kt:54-56 | The received cards are appended, in order, after the old hand. |
| `Players.ClearHand` | app/src/main/java/com/example/mendikot/model/Player.kt:61-63 | The hand becomes empty and nothing else changes. |
| `Teams.AddPlayer` | app/src/main/java/com/example/mendikot/model/Team.kt:16-19 | The seat is appended to the roster and the player's `teamId` becomes the team's id. |
| `Teams.CollectTrick` | app/src/main/java/com/example/mendikot/model/Team.kt:24-29 | `tricksWon` grows by exactly one. The collected tens gain exactly the trick's tens, appended after the old ones. |
| `Teams.ResetScore` | app/src/main/java/com/example/mendikot/model/Team.kt:48-51 | The tallies are cleared. Id, name and roster are kept. |
| `Teams.DistinctElementCount` | app/src/main/java/com/example/mendikot/model/Team.kt:34-36 | A sequence without repeats has as many distinct elements as entries. |
| `Teams.AllTensSet` | app/src/main/java/com/example/mendikot/model/Card.kt:10-11 | There are exactly four tens, and a card is a ten exactly when it is one of them. |
| `Teams.MendikotIffAllTens` | app/src/main/java/com/example/mendikot/model/Team.kt:34-36 | Suppose the collected cards are distinct tens. Then `hasMendikot` (four collected) holds exactly when every ten of the deck was collected. |
| `Teams.HasMendikot` | app/src/main/java/com/example/mendikot/model/Team.kt:34-36 | `hasMendikot` holds exactly when four tens were collected; `Teams.MendikotIffAllTens` turns this into "every ten". |
| `Teams.HasWhitewash` | app/src/main/java/com/example/mendikot/model/Team.kt:41-43 | `hasWhitewash` holds exactly when the team won all thirteen tricks. |
| `Teams.WhitewashIffOpponentBlank` | app/src/main/java/com/example/mendikot/model/Team.kt:41-43 | When the two teams split thirteen tricks, a team has a whitewash exactly when the other won none, and the two teams never both have one. |
| `GameStates.PlayerIndex` | app/src/main/java/com/example/mendikot/model/GameState.kt:59-61 | `find` returns the first player with the id, or none when no player has it. |
| `GameStates.FirstIndexOf` | app/src/main/java/com/example/mendikot/model/GameState.kt:59-75 | `find` over the players' or the teams' ids gives the first index holding the id, or none when no index holds it. |
| `GameStates.GetPlayer` | app/src/main/java/com/example/mendikot/model/GameState.kt:59-61 | A player found has the id asked for. None is found only when no player has that id. |
| `GameStates.GetTeam` | app/src/main/java/com/example/mendikot/model/GameState.kt:73-75 | A team found has the id asked for. None is found only when no team has that id. |
| `GameStates.WellFormedLookups` | app/src/main/java/com/example/mendikot/model/GameState.kt:59-83 | In a set-up match seat `id` is found at index `id` and team `t` at index `t`. The team of seat `id` is team `id % 2`. |
| `GameStates.GetTeamIdForPlayer` | app/src/main/java/com/example/mendikot/model/GameState.kt:66-68 | The team id is the `teamId` of a player with the id. It is null exactly when no player has that id. |
| `GameStates.TeamIndexForPlayer` | app/src/main/java/com/example/mendikot/model/GameState.kt:80-83 | The index found holds the team whose id is the player's team id. None is found exactly when the player is unknown or no team has that id. |
| `GameStates.GetTeamForPlayer` | app/src/main/java/com/example/mendikot/model/GameState.kt:80-83 | The team returned is a team of the match with the player's team id, the first such. It is null exactly when the player or the team is missing. |
| `GameStates.GetNextPlayer` | app/src/main/java/com/example/mendikot/model/GameState.kt:89-92 | The next player is one of the seated players. |
| `GameStates.NextAndPartner` | app/src/main/java/com/example/mendikot/model/GameState.kt:89-100 | The next seat of `i` is `(i + 1) % 4`. The partner of `i` exists, is seat `(i + 2) % 4`, differs from `i`, and is on `i`'s team. |
| `GameStates.GetPartner` | app/src/main/java/com/example/mendikot/model/GameState.kt:97-100 | The partner is the player whose id is `(playerId + 2) % players.size`, with Kotlin's `%`. It is null exactly when no player has that id. |
| `GameStates.InitializeGame` | app/src/main/java/com/example/mendikot/model/GameState.kt:27-54 | Setup succeeds exactly when there are at least four names. Player ids equal their index and hands are empty. Team 0 is seats 0&2 and team 1 is seats 1&3, both with empty tallies. Both scores are 0, dealer and turn are -1, and no deals have been played. With four names the match is well-formed. |
| `GameStates.TrickWinnerUnique` | app/src/main/java/com/example/mendikot/model/GameState.kt:105-136 | At most one play satisfies the reference winner rule. |
| `GameStates.ContendersKept` | app/src/main/java/com/example/mendikot/model/GameState.kt:115-133 | A play that does not bring in the first revealed trump keeps which earlier plays can win. |
| `GameStates.WinnerStepFirstTrump` | app/src/main/java/com/example/mendikot/model/GameState.kt:120-125 | The first revealed trump of the trick takes the lead in the loop. The loop's winner then still meets the reference rule. |
| `GameStates.WinnerStepSameMode` | app/src/main/java/com/example/mendikot/model/GameState.kt:120-131 | Any other play is compared in the trick's current mode, and the loop's winner still meets the reference rule. |
| `GameStates.WinnerStepCorrect` | app/src/main/java/com/example/mendikot/model/GameState.kt:115-133 | One iteration of the loop keeps its winner equal to the reference winner. |
| `GameStates.WinnerIndex` | app/src/main/java/com/example/mendikot/model/GameState.kt:105-136 | The loop of `determineTrickWinner` ends on the reference winner. That is the first contender of highest value, where the contenders depend on the trick: the trumps when a revealed trump was played; only the lead when hidden trump was led; the lead-suit cards otherwise. |
| `GameStates.DetermineTrickWinner` | app/src/main/java/com/example/mendikot/model/GameState.kt:105-136 | There is no winner for an empty trick. Otherwise the winner is the player who made the reference winning play. |
| `GameStates.TrumpTrickWinner` | app/src/main/java/com/example/mendikot/model/GameState.kt:120-125 | Suppose trump is revealed and a trump was played. Then the winner played a trump at least as high as every trump of the trick. |
| `GameStates.LeadSuitTrickWinner` | app/src/main/java/com/example/mendikot/model/GameState.kt:127-131 | Suppose no revealed trump was played and hidden trump was not led. Then the winner played the highest card of the suit led. |
| `GameStates.HiddenTrumpLeadWins` | app/src/main/java/com/example/mendikot/model/GameState.kt:127 | When the still hidden trump suit is led, the first card wins whatever follows. |
| `GameStates.AddCardToTrick` | app/src/main/java/com/example/mendikot/model/GameState.kt:141-148 | The play is appended. The lead suit is set only by the trick's first card; nothing else changes. The lead suit stays the suit of the first card. |
| `GameStates.CompleteTrick` | app/src/main/java/com/example/mendikot/model/GameState.kt:154-167 | With no winner or no team, nothing changes. Otherwise it returns the id of a player in the trick, clears the trick and the lead suit, and changes only the teams. |
| `GameStates.CompleteTrickEffects` | app/src/main/java/com/example/mendikot/model/GameState.kt:154-167 | In a set-up match whose trick was played by seats, the trick is always resolved. The reference winner's team collects it and the other team is untouched. The trick and the lead suit are cleared, and the winner's id is returned. |
| `GameStates.UpdateScoreForDeal` | app/src/main/java/com/example/mendikot/model/GameState.kt:179-182 | The winning team's score grows by one. Every other team's score is unchanged. |
| `GameStates.DetermineNextDealer` | app/src/main/java/com/example/mendikot/model/GameState.kt:187-198 | For a seated dealer the next dealer is a seat. It is on the dealer's own team exactly when the dealer's team lost. |
| `GameStates.NextDealerOnLosingTeam` | app/src/main/java/com/example/mendikot/model/GameState.kt:187-198 | The next dealer is a seat on the team that lost the deal: `(d + 1) % 4` after a dealer's win, `(d + 2) % 4` after a whitewash loss, and `d` itself after any other loss. |
| `GameStates.ResetForNewDeal` | app/src/main/java/com/example/mendikot/model/GameState.kt:203-219 | Hands, team tallies, trump, lead suit and trick are cleared, and the deal counter grows by one. Rosters, seating, dealer, turn and scores are kept, and so is well-formedness. |
| `Engine.DrawCardsForTeamFormation` | app/src/main/java/com/example/mendikot/game/GameEngine.kt:28-38 | Seat `i` draws `deck[i]` for seats 0 to 3. A deck without repeats gives four distinct draws. |
| `Engine.DrawKeyInjective` | app/src/main/java/com/example/mendikot/game/GameEngine.kt:50-53 | Two cards have the same sort key exactly when they are the same card. |
| `Engine.DrawKey` | app/src/main/java/com/example/mendikot/game/GameEngine.kt:50-53 | The key `value * 100 + ordinal` lies in the rank's band of 100, so the rank always outweighs the suit. |
| `Engine.DrawKeyOrder` | app/src/main/java/com/example/mendikot/game/GameEngine.kt:48-53 | One card sorts above another exactly when its rank is higher, or the ranks are equal and its suit ordinal is higher. |
| `Engine.InsertDescending` | app/src/main/java/com/example/mendikot/game/GameEngine.kt:50-53 | Insertion adds exactly the one entry to the sequence. |
| `Engine.InsertDescendingSorted` | app/src/main/java/com/example/mendikot/game/GameEngine.kt:50-53 | Insertion keeps a descending sequence descending. |
| `Engine.SortDescending` | app/src/main/java/com/example/mendikot/game/GameEngine.kt:50-53 | `sortedByDescending` returns a permutation of the entries whose keys never increase. |
| `Engine.FormTeamsBasedOnCards` | app/src/main/java/com/example/mendikot/game/GameEngine.kt:46-65 | It returns teams 0 and 1 of two seats each. Only the dealer is written back to the state. |
| `Engine.FormTeamsRanksDraw` | app/src/main/java/com/example/mendikot/game/GameEngine.kt:46-65 | The teams and the dealer are read off a ranking of the draw. Team A is the first two entries, team B the last two, and the dealer the last one. |
| `Engine.SortRanks` | app/src/main/java/com/example/mendikot/game/GameEngine.kt:50-53 | The sort of a seat draw is a ranking of it. |
| `Engine.RankingEntries` | app/src/main/java/com/example/mendikot/game/GameEngine.kt:50-53 | Every entry of a ranking is some seat's own draw. |
| `Engine.RankingCovers` | app/src/main/java/com/example/mendikot/game/GameEngine.kt:50-53 | Every seat appears in a ranking. |
| `Engine.RankingOnce` | app/src/main/java/com/example/mendikot/game/GameEngine.kt:50-53 | No seat appears twice in a ranking. |
| `Engine.RankingStrict` | app/src/main/java/com/example/mendikot/game/GameEngine.kt:50-53 | With four distinct cards the ranked keys strictly decrease. |
| `Engine.FormTeamsPartition` | app/src/main/java/com/example/mendikot/game/GameEngine.kt:55-62 | The two teams partition the seats 0..3. The dealer is a seat of team B. |
| `Engine.FormTeamsFromDraw` | app/src/main/java/com/example/mendikot/game/GameEngine.kt:50-59 | With distinct draws, every member of team A drew a higher key than every member of team B. |
| `Engine.FormTeamsDealerLowest` | app/src/main/java/com/example/mendikot/game/GameEngine.kt:61-62 | The dealer is a seat whose draw has the lowest key. |
| `Engine.OrderFrom` | app/src/main/java/com/example/mendikot/game/GameEngine.kt:113-119 | From a seat, step `k` of the loop visits seat `(id + k) % 4`. |
| `Engine.GeneratePlayerOrder` | app/src/main/java/com/example/mendikot/game/GameEngine.kt:111-122 | The order has four entries. |
| `Engine.OrderFromSeat` | app/src/main/java/com/example/mendikot/game/GameEngine.kt:113-119 | Four steps from a seat visit the four seats in turn. |
| `Engine.PlayerOrderAfterDealer` | app/src/main/java/com/example/mendikot/game/GameEngine.kt:111-122 | For dealer `d` the order is `[(d + 1) % 4, (d + 2) % 4, (d + 3) % 4, d]`. |
| `Engine.SeatAfter` | app/src/main/java/com/example/mendikot/game/GameEngine.kt:113-118 | Counting on round the table from the seat after `d` ends at `d`. |
| `Engine.PlayerOrderBeforeFormation` | app/src/main/java/com/example/mendikot/game/GameEngine.kt:111-122 | With the dealer unset (-1) the order is 0, 1, 2, 3. |
| `Engine.PlayerOrderIsPermutation` | app/src/main/java/com/example/mendikot/game/GameEngine.kt:111-122 | For any seated or unset dealer the order names each seat exactly once. |
| `Engine.RotationIsSeatOrder` | app/src/main/java/com/example/mendikot/game/GameEngine.kt:111-122 | The order starting from any seat names every seat once. |
| `Engine.GiveCard` | app/src/main/java/com/example/mendikot/game/GameEngine.kt:101-102 | Giving a card keeps the number of players. |
| `Engine.DealSweep` | app/src/main/java/com/example/mendikot/game/GameEngine.kt:100-104 | A sweep keeps the number of players. |
| `Engine.DealRound` | app/src/main/java/com/example/mendikot/game/GameEngine.kt:95-106 | A round keeps the number of players. |
| `Engine.DealCards` | app/src/main/java/com/example/mendikot/game/GameEngine.kt:73-90 | Dealing changes only the players. |
| `Engine.DealFiveFourFour` | app/src/main/java/com/example/mendikot/game/GameEngine.kt:82-89 | The three rounds keep the number of players. |
| `Engine.EveryFourthCons` | app/src/main/java/com/example/mendikot/game/GameEngine.kt:96-104 | A position's share is its card of the first sweep, then its share of the rest. |
| `Engine.GiveCardSeated` | app/src/main/java/com/example/mendikot/game/GameEngine.kt:101-102 | Only the named seat changes, and it gains the card at the end of its hand. |
| `Engine.DealSweepFrame` | app/src/main/java/com/example/mendikot/game/GameEngine.kt:100-104 | A sweep keeps the seating and every field but the hands. |
| `Engine.DealSweepAt` | app/src/main/java/com/example/mendikot/game/GameEngine.kt:100-104 | A sweep gives dealing position `k` the card at index `k`. |
| `Engine.DealRoundFrame` | app/src/main/java/com/example/mendikot/game/GameEngine.kt:95-106 | A round keeps the seating and every field but the hands. |
| `Engine.DealRoundAt` | app/src/main/java/com/example/mendikot/game/GameEngine.kt:95-106 | `m` sweeps append position `k`'s share to its hand, in order. |
| `Engine.DealtHand` | app/src/main/java/com/example/mendikot/game/GameEngine.kt:82-89 | Position `k` receives 13 cards: deck indices `k + 4j` (j < 5), then `20 + k + 4j` (j < 4), then `36 + k + 4j` (j < 4). |
| `Engine.DealFiveFourFourFrame` | app/src/main/java/com/example/mendikot/game/GameEngine.kt:82-89 | The three rounds keep the seating and every field but the hands. |
| `Engine.DealFiveFourFourAt` | app/src/main/java/com/example/mendikot/game/GameEngine.kt:82-89 | The three rounds append `DealtHand(deck, k)` to the hand at dealing position `k`. |
| `Engine.DealCardsHands` | app/src/main/java/com/example/mendikot/game/GameEngine.kt:73-106 | After dealing, the seat at dealing position `k` holds exactly `DealtHand(deck, k)`, and the match stays well-formed. |
| `Engine.DealCardsThirteen` | app/src/main/java/com/example/mendikot/game/GameEngine.kt:73-106 | After dealing, every seat holds exactly 13 cards. |
| `Engine.SelectTrump` | app/src/main/java/com/example/mendikot/game/GameEngine.kt:129-142 | The card becomes the hidden trump and sets the trump suit. The seat after the dealer is to play. Nothing but the players, trump and turn changes. |
| `Engine.SelectTrumpSeated` | app/src/main/java/com/example/mendikot/game/GameEngine.kt:129-142 | The selector's hand loses one copy of the card, if held. Every other seat is untouched, and the match stays well-formed. |
| `Engine.RevealTrump` | app/src/main/java/com/example/mendikot/game/GameEngine.kt:147-154 | Trump becomes revealed. Nothing but the players and that flag changes. |
| `Engine.RevealTrumpSeated` | app/src/main/java/com/example/mendikot/game/GameEngine.kt:147-154 | The trump card, if any, is appended to the hand of seat `(dealer + 1) % 4`, whoever selected it. No other seat changes. |
| `Engine.PlayCard` | app/src/main/java/com/example/mendikot/game/GameEngine.kt:162-174 | A play that is out of turn, by an unknown seat, or of an unplayable card returns false and changes nothing. |
| `Engine.CommitPlay` | app/src/main/java/com/example/mendikot/game/GameEngine.kt:182-191 | A card not in the hand is rejected with no change, and a held card is accepted. Trump is never touched. |
| `Engine.RevealKeepsHands` | app/src/main/java/com/example/mendikot/game/GameEngine.kt:147-154 | A reveal only adds to hands, so every held card stays held. |
| `Engine.PlayCardAccepts` | app/src/main/java/com/example/mendikot/game/GameEngine.kt:162-194 | `playCard` returns true exactly for a legal play: in turn, by a seated player, of a playable card. |
| `Engine.PlayCardReveal` | app/src/main/java/com/example/mendikot/game/GameEngine.kt:176-179 | A revealed trump stays revealed. A legal play by a player who cannot follow the suit led, while trump is hidden, reveals it. |
| `Engine.PlayCardCommits` | app/src/main/java/com/example/mendikot/game/GameEngine.kt:162-194 | A legal play commits a held card, after the reveal when there is one. The reveal changes only hands and the revealed flag. |
| `Engine.CommitHands` | app/src/main/java/com/example/mendikot/game/GameEngine.kt:182-183 | A commit takes one copy of the card out of the player's hand and leaves every other hand alone. |
| `Engine.CommitOpen` | app/src/main/java/com/example/mendikot/game/GameEngine.kt:182-191 | Below four cards, the play joins the trick and the first card sets the lead suit. The turn passes to `(playerId + 1) % 4`; nothing else changes. |
| `Engine.CommitCloses` | app/src/main/java/com/example/mendikot/game/GameEngine.kt:182-187 | The fourth card joins the trick and the trick is then completed. |
| `Engine.CompleteTrick` | app/src/main/java/com/example/mendikot/game/GameEngine.kt:199-211 | Completing a trick changes only the teams, the trick, the lead suit, the turn, the scores and the dealer. |
| `Engine.CompleteTrickOutcome` | app/src/main/java/com/example/mendikot/game/GameEngine.kt:199-211 | The winner's team collects the trick, the other team is untouched, and no hand changes. If seat 0 still holds cards, the winner leads next. Otherwise the deal is completed and the turn is not touched. |
| `Engine.SeatZeroEmpty` | app/src/main/java/com/example/mendikot/game/GameEngine.kt:204 | In a set-up match the end-of-deal test holds exactly when seat 0's hand is empty. |
| `Engine.DealWinnerByMajority` | app/src/main/java/com/example/mendikot/game/GameEngine.kt:221-237 | Take a real deal end: four tens and thirteen tricks split between the teams, where a team without tricks has no tens. There the rule chain amounts to: more tens wins, and a 2-2 split goes to the team with more tricks. |
| `Engine.DealWinner` | app/src/main/java/com/example/mendikot/game/GameEngine.kt:221-237 | The winner is team 0 or 1. A Mendikot or whitewash for team A gives it the deal. One for team B gives it the deal unless team A has one too. |
| `Engine.CompleteDeal` | app/src/main/java/com/example/mendikot/game/GameEngine.kt:216-252 | Deal completion changes only the scores and the dealer. |
| `Engine.CompleteDealEffects` | app/src/main/java/com/example/mendikot/game/GameEngine.kt:216-252 | The winner is picked by Mendikot/whitewash (A, then B), then three tens, then the 2-2 split, then more tens, else team 1. Exactly that team gains one point. The next dealer sits on the losing team: `(d + 1) % 4` after a dealer's win, `(d + 2) % 4` after a whitewash loss, and `d` otherwise. |
| `Engine.StartNewDeal` | app/src/main/java/com/example/mendikot/game/GameEngine.kt:257-263 | A new deal clears the deal's state and keeps scores, rosters and dealer. It advances the deal counter, and the seat after the dealer is to play. |
| `Engine.StartNewDealHands` | app/src/main/java/com/example/mendikot/game/GameEngine.kt:257-263 | A new deal leaves the match well-formed with 13 cards in every hand. |
| `Conservation.HandCountUpdate` | app/src/main/java/com/example/mendikot/model/GameState.kt:6-18 | Replacing one seat changes the number of cards in hands by the difference between the two hands. |
| `Conservation.CopiesCount` | app/src/main/java/com/example/mendikot/game/GameEngine.kt:95-106 | Counting a card sweep by sweep gives its number of copies in a position's share. |
| `Conservation.CopiesCover` | app/src/main/java/com/example/mendikot/game/GameEngine.kt:95-106 | In a stretch of `4m` cards, each card goes to exactly one dealing position: the four positions' copies add up to the stretch's. |
| `Conservation.SharesCover` | app/src/main/java/com/example/mendikot/game/GameEngine.kt:95-106 | The four positions' shares together hold each card as often as the stretch does. |
| `Conservation.ShareCount` | app/src/main/java/com/example/mendikot/game/GameEngine.kt:95-106 | A share's copies are its first sweep's card plus the copies in the rest. |
| `Conservation.DealtHandsCover` | app/src/main/java/com/example/mendikot/game/GameEngine.kt:82-89 | The four dealt hands hold each card as often as the deck's first 52 cards do. |
| `Conservation.HandCardsInOrder` | app/src/main/java/com/example/mendikot/game/GameEngine.kt:111-122 | Summing the hands in any dealing order counts every hand once. |
| `Conservation.PlayerOrderRotation` | app/src/main/java/com/example/mendikot/game/GameEngine.kt:111-122 | The order from `generatePlayerOrder` starts at a seat and steps round the table. |
| `Conservation.DealCardsDealsDeck` | app/src/main/java/com/example/mendikot/game/GameEngine.kt:73-106 | After dealing, the hands together are exactly the first 52 cards of the deck, each dealt once. |
| `Conservation.DealtHandsAreDeck` | app/src/main/java/com/example/mendikot/game/GameEngine.kt:73-106 | Hands that are the four dealt shares, in a dealing order, hold the deck's first 52 cards. |
| `Conservation.HandsInOrder` | app/src/main/java/com/example/mendikot/game/GameEngine.kt:111-122 | The hands summed in dealing order are all the hands. |
| `Conservation.DealtHandsUnion` | app/src/main/java/com/example/mendikot/game/GameEngine.kt:82-89 | The four dealt hands together are the deck's first 52 cards. |
| `Conservation.DeckThirds` | app/src/main/java/com/example/mendikot/game/GameEngine.kt:83-89 | The deck's first 52 cards are its three dealing stretches. |
| `Conservation.StartNewDealCount` | app/src/main/java/com/example/mendikot/game/GameEngine.kt:257-263 | A new deal puts exactly the deck's first 52 cards in the hands, and all 52 cards are accounted for. |
| `Conservation.SelectTrumpCount` | app/src/main/java/com/example/mendikot/game/GameEngine.kt:129-142 | Selecting a held card as trump moves it from the hand to face down. The card count is unchanged. |
| `Conservation.RevealCount` | app/src/main/java/com/example/mendikot/game/GameEngine.kt:147-154 | Revealing a hidden trump moves it into a hand. The card count is unchanged. |
| `Conservation.CommitCount` | app/src/main/java/com/example/mendikot/game/GameEngine.kt:182-183 | A commit takes exactly one card out of the hands. |
| `Conservation.ResolveTeam` | app/src/main/java/com/example/mendikot/model/GameState.kt:154-167 | A full trick of seated plays is always resolved, and exactly one of the two teams collects it. |
| `Conservation.ResolveTally` | app/src/main/java/com/example/mendikot/model/GameState.kt:154-167 | Resolving a full trick adds one to the tricks won in total, touches no hand, and keeps the match well-formed. |
| `Conservation.CompleteDealCount` | app/src/main/java/com/example/mendikot/game/GameEngine.kt:216-252 | Deal completion keeps the card count and keeps a deal in progress in progress. |
| `Conservation.CompleteTrickCount` | app/src/main/java/com/example/mendikot/game/GameEngine.kt:199-211 | Completing a full trick moves its four cards into the tricks won, and the count is unchanged. |
| `Conservation.ResolveCount` | app/src/main/java/com/example/mendikot/model/GameState.kt:154-167 | The resolved trick's four cards are counted among the tricks won. |
| `Conservation.BeforeCommitCount` | app/src/main/java/com/example/mendikot/game/GameEngine.kt:176-179 | A reveal before the commit keeps the count and keeps the deal in progress. |
| `Conservation.PlayOpenCount` | app/src/main/java/com/example/mendikot/game/GameEngine.kt:182-191 | Below four cards, a commit moves the card from the hand to the trick. |
| `Conservation.CommitOpenSeated` | app/src/main/java/com/example/mendikot/game/GameEngine.kt:182-191 | Below four cards, a commit keeps the match well-formed. |
| `Conservation.PlayCloseCount` | app/src/main/java/com/example/mendikot/game/GameEngine.kt:182-211 | The fourth card moves from the hand to the trick and on into the tricks won. |
| `Conservation.PlayCardCount` | app/src/main/java/com/example/mendikot/game/GameEngine.kt:162-211 | Every `playCard` keeps every card accounted for, whether it rejects, leaves the trick open or resolves it. |
| `Conservation.PlayAllCount` | app/src/main/java/com/example/mendikot/game/GameEngine.kt:162-211 | Any sequence of plays keeps the count and keeps the deal in progress. |
| `Conservation.SelectorHand` | app/src/main/java/com/example/mendikot/game/GameEngine.kt:257-263 | After a new deal, the seat after the dealer, who selects trump, holds the first dealt share. |
| `Conservation.DealKeepsFiftyTwo` | app/src/main/java/com/example/mendikot/game/GameEngine.kt:73-211 | Start a deal, let the seat after the dealer choose one of its dealt cards as trump, then play any sequence of cards. At every point the hands, the trick, four cards per trick won and the hidden trump total 52. |
| `TenConservation.HiddenCards` | app/src/main/java/com/example/mendikot/game/GameEngine.kt:129-154 | The face-down trump is counted as one card while it is hidden, and as none once revealed or before selection. |
| `TenConservation.HandCardsUpdate` | app/src/main/java/com/example/mendikot/model/GameState.kt:6-18 | Replacing one seat changes the copies of a card in hands by the difference between the two hands. |
| `TenConservation.CardsOfAppend` | app/src/main/java/com/example/mendikot/model/GameState.kt:141-148 | Appending a play adds exactly its card to the trick's cards. |
| `TenConservation.StartNewDealHoldings` | app/src/main/java/com/example/mendikot/game/GameEngine.kt:257-263 | A new deal holds exactly the deck's first 52 cards, and no team has collected anything. |
| `TenConservation.SelectTrumpAt` | app/src/main/java/com/example/mendikot/game/GameEngine.kt:129-142 | Selecting trump moves the card from the hand to face down; every card is held as often as before. |
| `TenConservation.RevealAt` | app/src/main/java/com/example/mendikot/game/GameEngine.kt:147-154 | Revealing a hidden trump moves it into a hand; every card is held as often as before. |
| `TenConservation.CommitHandCards` | app/src/main/java/com/example/mendikot/game/GameEngine.kt:182-183 | A commit takes exactly one copy of the played card out of the hands and leaves every other card. |
| `TenConservation.CommitAt` | app/src/main/java/com/example/mendikot/game/GameEngine.kt:182-187 | The committed card moves from the hand into the trick before the trick is looked at. |
| `TenConservation.CommitOpenAt` | app/src/main/java/com/example/mendikot/game/GameEngine.kt:182-191 | Below four cards a commit keeps every card held as often as before and collects nothing. |
| `TenConservation.ResolveAt` | app/src/main/java/com/example/mendikot/model/GameState.kt:154-167 | Resolving a trick keeps its tens, now collected by the winning team, and drops its other cards. Only tens are newly collected. |
| `TenConservation.CompleteTrickAt` | app/src/main/java/com/example/mendikot/game/GameEngine.kt:199-211 | Completing a trick in the engine, deal completion included, holds every card at most as often as before and every ten exactly as often; only tens are newly collected. |
| `TenConservation.PlayCloseAt` | app/src/main/java/com/example/mendikot/game/GameEngine.kt:182-211 | The fourth card of a trick: every card is held at most as often as before, every ten exactly as often, and only tens are newly collected. |
| `TenConservation.PlayCardAt` | app/src/main/java/com/example/mendikot/game/GameEngine.kt:162-211 | Any `playCard`, accepted or not, never creates a card, keeps every ten, collects only tens, and keeps the deal in progress. |
| `TenConservation.PlayAllAt` | app/src/main/java/com/example/mendikot/game/GameEngine.kt:162-211 | The same holds for any sequence of plays. |
| `TenConservation.ChosenAt` | app/src/main/java/com/example/mendikot/game/GameEngine.kt:129-142 | After a new deal and the selection of trump by the seat after the dealer, the state holds exactly the deck's first 52 cards and nothing is collected. |
| `TenConservation.DealAt` | app/src/main/java/com/example/mendikot/game/GameEngine.kt:73-211 | Through a deal, a card is held at most as often as the deck's first 52 cards hold it, and a ten exactly as often. |
| `TenConservation.DealKeepsTens` | app/src/main/java/com/example/mendikot/game/GameEngine.kt:73-211 | Start a deal, let the seat after the dealer choose one of its dealt cards as trump, then play any sequence of cards. The hands, the trick, the collected tens and the hidden trump never hold a card more often than the deck did, hold every ten exactly as often, and the teams collect nothing but tens. |
| `TenConservation.CollectedHeld` | app/src/main/java/com/example/mendikot/model/Team.kt:24-29 | A team's collected cards are among the cards the state holds. |
| `TenConservation.CountOneDistinct` | app/src/main/java/com/example/mendikot/model/Team.kt:34-36 | A sequence holding no element twice has no repeats. |
| `TenConservation.DealMendikotIffAllTens` | app/src/main/java/com/example/mendikot/model/Team.kt:34-36 | With a deck without repeats, at any point of a deal a team's collected tens have no repeats, and `hasMendikot` holds exactly when the team has collected every ten. |

## Left out

- The user interface, view model, navigation and persisted preferences are
  not part of this model. They only render the engine's state or store
  settings.
- The shuffle (`shuffled()`) is random, so the model takes the shuffled deck
  as a parameter. Properties that need a real deck require one with at least
  52 cards, or without repeats.
- Kotlin objects shared between state snapshots are modelled as values, with
  players identified by seat id. Mutations of the same object through two
  references behave as one update of the state.
- 32-bit integer overflow of `tricksWon`, `dealsPlayed` and the scores is not
  modelled: none of them can come near the limit in a real match.
- The engine's `initializeGame` wrapper and `getGameState` only store or
  return the state, so `GameStates.InitializeGame` stands for the former.
- `toString` of the enums and the game state's screen-facing helpers are not
  modelled.
- A thrown exception (`initializeGame` with fewer than four names) is
  modelled as `None`.
- `GameStates.GetNextPlayer`: requires the remainder to be a valid index. The
  source throws for negative ids, and that throw is not modelled.
- `Engine.DealRound`: requires a four-seat order and enough cards for `m`
  sweeps. `generatePlayerOrder` always returns four seats, and `dealCards`
  always passes exact stretches; the out-of-range exception is not modelled.
- `Engine.DealCards`, `Engine.StartNewDeal`: require a deck of at least 52
  cards, which `createDeck` always provides.
- `Engine.FormTeamsBasedOnCards`: requires at least four drawn entries, which
  `drawCardsForTeamFormation` always provides. The sort's stability is used
  but not stated as a separate property.
- `Engine.GeneratePlayerOrder`, `Engine.DealSweep`, `Engine.DealRound`,
  `Engine.DealFiveFourFour`, `Engine.GiveCard`: their own contracts give only
  sizes. What they compute is stated by `Engine.PlayerOrderAfterDealer`,
  `Engine.DealSweepAt`, `Engine.DealRoundAt`, `Engine.DealFiveFourFourAt` and
  `Engine.GiveCardSeated`.
- `Conservation.DealKeepsFiftyTwo` counts cards; `TenConservation.DealKeepsTens`
  states which cards. The source keeps only the tens of a won trick, so its
  other cards are no longer recorded anywhere: the state holds every card at
  most as often as the deck and every ten exactly as often, not the whole
  deck as a multiset.
- `GameStates.GetPartner`: requires at least one player. Kotlin's `%` by zero
  throws `ArithmeticException` on an empty player list; that throw is not
  modelled.
- `Engine.Draw` stands for the `LinkedHashMap` built by
  `drawCardsForTeamFormation`, whose entries iterate in insertion order (seats
  0 to 3). `Engine.SortDescending` is stable, so entries with equal keys would
  keep that order; with `Engine.DrawKeyInjective`, distinct cards never tie.
