# Card game core in Dafny

This project models `code.java`, a small card-game state model. It has four parts:

- **Card**: an immutable rank and suit pair.
- **Deck**: the 52 cards, shuffled. Cards are drawn from the end of the list, which is the top of the deck.
- **Player**: a name and an ordered hand. Cards are appended by `drawCard` and removed by position by `playCard`.
- **Game**: the constructor seats the players in name order, builds the deck, deals five cards to each player (one player's draws all come before the next player's), and seeds the discard pile with one more draw. The model also covers the turn-ownership guard at the top of `Game.playCard`.

Everything is modelled as immutable datatypes and pure functions. Each Java mutator becomes a function that returns the new value, together with any card it hands back.

Modules, one per file:

- `Wrappers` in `wrappers.dfy`: `Option`.
- `Sequences` in `sequences.dfy`: distinctness, multiplicity and positional insertion.
- `Cards` in `card.dfy`: ranks, suits, cards, the unshuffled 52-card order and the multiset of cards held by a list with `null` entries.
- `Decks` in `deck.dfy`.
- `Players` in `player.dfy`.
- `Games` in `game.dfy`.

Design decisions:

- **`null` entries are kept.** Java's `drawCard` returns `null` on an empty deck, and the hand and discard-pile lists accept `null`. These entries are `Slot = Option<Card>`. So a game with more than ten players is modelled as the code behaves:
  - every hand still has five entries, and the later ones are `None`;
  - the discard pile is `[None]`;
  - the deck is empty.

  The card-conservation lemmas count only the `Some` entries (`Cards.Present`).
- **The shuffle is a parameter.** `Collections.shuffle` becomes the parameter `shuffled`, which must be a permutation of the constructor's ordered list (`Cards.IsShuffle`). Every property is proved for every such permutation.
- **`Game.playCard` is modelled only up to the guard.** The source stops after the turn-ownership check. `Games.PlayCard` returns either `Refused(game)`, where the state is unchanged and Java returns `false`, or `Admitted`, which stands for the unmodelled rest of the turn.

With more than ten players the code appends `null` to the later hand entries and to the discard pile, so every hand keeps five entries and the pile keeps one (`Games.NewGameHand`, `Games.NewGameSeedsDiscard`). The code does not reject an empty list of names, and neither does the model.

## Model

| member | source | states |
|---|---|---|
| Cards.RankIndex | code.java:6 | each rank's position in the declaration order of `Rank`, and that position maps back to the same rank |
| Cards.SuitIndex | code.java:7 | each suit's position in the declaration order of `Suit`, and that position maps back to the same suit |
| Cards.CardIndex | code.java:36-39 | the position at which the nested suit/rank loop adds a card lies within the 52 slots |
| Cards.CardIndexInjective | code.java:36-39 | two cards that the loop adds at the same position are the same card |
| Cards.CardAt | code.java:36-39 | the card added at position `i` is the one whose loop position is `i` (the inverse of `CardIndex`) |
| Cards.OrderedCards | code.java:34-40 | before shuffling, the deck has 52 cards, each (rank, suit) pair sits at its loop position, and no card repeats |
| Cards.OrderedCardsOnce | code.java:34-40 | every rank/suit combination occurs exactly once in the unshuffled list |
| Cards.PresentHolds | code.java:58 | a card is among those a list holds exactly when some entry of the list is that card, so `null` entries hold nothing |
| Cards.PresentAppend | code.java:58 | the cards held by two lists joined together are the cards held by each list |
| Decks.NewDeck | code.java:34-42 | a new deck has 52 cards, each of the 52 combinations exactly once, so the shuffle only permutes |
| Decks.Draw | code.java:44-53 | a card is returned exactly when the deck is non-empty; it is the last card, and `size` drops by exactly one; an empty deck returns no card and stays unchanged |
| Decks.DrawThenPutBack | code.java:48 | putting the drawn card back on top restores the original list, so the rest keeps its order |
| Decks.DrawConserves | code.java:44-49 | the deck left plus the drawn card is the deck before, so no card is lost or created |
| Decks.DrawKeepsValid | code.java:44-49 | drawing keeps the deck free of duplicates, and the drawn card is no longer in it |
| Players.NewPlayer | code.java:60-63 | a new player has the given name and an empty hand that holds no cards |
| Players.DrawCard | code.java:69-71 | the hand grows by one, earlier entries are untouched, the new last entry is the given card (even `null`), and the name is kept |
| Players.DrawCardHolds | code.java:69-71 | the cards the hand holds grow by exactly the drawn card, or by nothing for `null` |
| Players.PlayCard | code.java:73-78 | an out-of-range index returns no card and keeps the hand; an in-range index returns `hand[index]`, the other entries keep their order, and putting the card back at `index` restores the hand |
| Players.PlayCardConserves | code.java:73-78 | the hand left plus the card played is the hand before |
| Players.DrawEachAppends | code.java:69-71 | repeated draws append exactly the drawn entries to the hand, in order |
| Players.HandSizeCountsDraws | code.java:80-82 | after `k` draws, a new player's `getHandSize` is `k` |
| Games.TopSlotsAt | code.java:115-116 | the `k`-th of a run of draws is the card `from + k` places below the top, or `null` once the deck runs out |
| Games.TopSlotsShift | code.java:115-116 | drawing after `m` earlier draws yields the cards further down the original deck |
| Games.AfterDrawsCompose | code.java:115-116 | `a` draws followed by `b` draws leave the deck that `a + b` draws leave |
| Games.DealOne | code.java:115-117 | the inner loop keeps the name and adds exactly `n` entries to the hand |
| Games.DealOneHand | code.java:115-117 | the inner loop appends the next `n` draws to the hand, top card first |
| Games.DealOneDeck | code.java:115-117 | the inner loop leaves the deck as `n` draws leave it |
| Games.DealOneConserves | code.java:115-117 | the inner loop only moves cards from the deck into the hand |
| Games.DealCards | code.java:113-119 | the outer loop keeps the players' number, order and names, and each hand grows by exactly five |
| Games.DealCardsHand | code.java:113-119 | loop invariant for one hand: player `i` receives draws `5i` to `5i + 4`, after any cards it held before |
| Games.DealCardsDeck | code.java:113-119 | loop invariant for the deck: dealing to `N` players leaves what `5N` draws leave |
| Games.DealCardsConserves | code.java:113-119 | the outer loop only moves cards from the deck into the hands |
| Games.Seat | code.java:99-102 | one player per name, in the given order, each with an empty hand |
| Games.NewGame | code.java:98-111 | the players follow the names in order, every hand has five entries, the discard pile has one entry, and the turn state is `0`, `1`, `false`, `0` |
| Games.NewGameHand | code.java:98-119 | entry `k` of player `i`'s hand is the `(5i + k)`-th card from the top of the shuffled deck, or `null` when `5i + k >= 52` |
| Games.ShuffledDraw | code.java:41-48 | the `j`-th draw from a freshly shuffled deck is the `j`-th card from the end of the shuffled order, or `null` past 52 draws |
| Games.NewGameHandSlots | code.java:109 | player `i` of a new game holds draws `5i` to `5i + 4` of the shuffled deck |
| Games.NewGameSeedsDiscard | code.java:109-110 | the discard seed is the card just below the dealt ones and the deck keeps everything beneath it; with more than ten players the seed is `null` and the deck is empty |
| Games.NewGameConserves | code.java:98-119 | after construction, deck, hands and discard pile together hold the 52 cards, each exactly once |
| Games.ConservedCardsAreUnique | code.java:90-92 | when the cards are conserved, each card is in exactly one place, and the deck has no duplicates |
| Games.AtMostTenPlayersGetRealCards | code.java:98-119 | with at most ten players every dealt entry and the discard seed are real cards, and the deck has `52 - 5N - 1` cards |
| Games.PlayCard | code.java:121-124 | the turn guard refuses the play exactly when the caller is not the current player, and a refusal leaves players, hands, deck, discard pile and every turn field unchanged |
| Games.RefusedPlayConserves | code.java:121-124 | a refused play keeps the cards conserved |
| Games.TwoPlayerScenario | code.java:98-124 | with two players each has five cards, the deck has 41, the discard pile has one, and the second player cannot play first |

## Left out

- The randomness of `Collections.shuffle` (code.java:41) is a library call whose algorithm is not visible. It is replaced by an arbitrary permutation passed as a parameter.
- Everything in `Game.playCard` after the turn guard is left out, because the source ends at code.java:125. That includes delegating to `Player.playCard`, updating the discard pile, advancing the turn, and any use of `direction`, `reversed` or `drawCount`. `Admitted` marks this point.
- `Card.toString` (code.java:26-28) is left out. It is string formatting of Java enum names.
- `Player.getHand` returns the live list (code.java:84-86). That is Java reference aliasing; the model's hand is a value.
- `Card.getRank`, `Card.getSuit`, `Player.getName`, `Deck.size` and `Player.getHandSize` have no contracts of their own. They are the fields `rank`, `suit`, `name`, and the functions `Decks.Size` and `Players.HandSize`, and the contracts above use them.
- Java's 32-bit `int` is not modelled: indices and sizes are unbounded integers. Hands hold five entries and the deck at most 52 cards. Only the number of players is unbounded, and overflow would need more than two billion of them.
- Cards.Present: its own contract states only a size bound. Membership and concatenation are stated by `Cards.PresentHolds` and `Cards.PresentAppend`.
