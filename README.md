# Blackjack round engine, modelled in Dafny

This project models the game logic of a single-player blackjack web app. The
player starts with $200, bets on each hand, and plays against a dealer who
follows a fixed policy.

It has three layers, one Dafny module each, plus a module of shared types:

- `Types` (types.dfy): the suits, the card values (2–10, Jack, Queen, King,
  Ace), the card record, and the four phases of a round (out of money, placing
  a bet, in play, standing).
- `CardDeck` (card_deck.dfy): building the 52-card deck suit by suit, shuffling
  it in place with Fisher–Yates on an array, and dealing cards popped off the
  end of a copy.
- `Blackjack` (blackjack.dfy): hand scores, where an Ace always counts 11, and
  the settlement of a round as −bet, 0 or +bet. It also holds the dealer's
  draw-while-under-17 turn, specified by the reference function `DealerDraws`.
- `App` (app.dfy): the screen's state cells as the fields of the class
  `App.Game`, with the button handlers as its methods.
  - Each handler's preconditions are the guards under which its button is
    enabled.
  - `Game.Valid()` is the invariant every handler keeps. It requires that money
    is never negative and is 0 exactly when the game is out of money. While a
    round is open, the deck and the two hands together must be exactly the 52
    cards, each once. It also bounds the bet and the result.

Randomness is a parameter. `rand[p]` is the index `Math.random` picks when the
shuffle swaps position `p`. `DrawsBelow` states that each index lies in 0..p,
the range `Math.floor(Math.random() * currentPos--)` produces.

A handler reads the cells as they were when its button was pressed. This is
modelled by doing each read before any of that handler's writes. In `hit`,
that means `Stand` runs before the hand and deck cells are written. The two
functions write disjoint cells, so the final state is the same as with the
app's batched updates.

Two rules follow the code where a reader of the game's description might
expect otherwise:

- A player who busts loses the bet even when the dealer also busts. The player
  bust is tested first (src/utils/blackjack.ts:32).
- The bet input can change the bet at any time during the betting phase. The
  bet is not held at 0.

## Model

| member | source | states |
|---|---|---|
| Types.EnumerationsComplete | src/types/CardSuit.ts:1-7 | every suit and every value is listed in the fixed enumeration order, each exactly once (4 suits, 13 values) |
| CardDeck.FullDeckExactlyOnce | src/utils/card-deck.ts:8-14 | the populated deck has 52 cards, and every (suit, value) card occurs in it exactly once |
| CardDeck.CrossProductCount | src/utils/card-deck.ts:9-13 | the nested loops put each pair of a listed suit and a listed value in the deck exactly once, and no other card |
| CardDeck.ShuffleStepsPermutes | src/utils/card-deck.ts:16-23 | the Fisher–Yates steps keep the length and the multiset of cards, so the shuffle is a permutation |
| CardDeck.InitializeDeck | src/utils/card-deck.ts:5-26 | given swap indices in range, the nested push loops and the in-place swap loop return the shuffle of the full deck driven by those indices: 52 cards, a permutation of the full deck, every card exactly once; every array index in the swap loop is in bounds |
| CardDeck.DealCards | src/utils/card-deck.ts:28-45 | it deals min(count, size) cards, and none for count ≤ 0, stopping early on an empty deck; the dealt cards are the deck's last cards, last first; the new deck is the remaining prefix; no card is lost or created; the input is a value and stays unchanged |
| CardDeck.TopSplit | src/utils/card-deck.ts:38-42 | popping k cards splits the deck into the remaining prefix and the dealt cards, with the same multiset as the deck |
| Blackjack.Points | src/utils/blackjack.ts:9-24 | one card adds 2..11; it adds 11 exactly for an Ace, never 1; it adds 10 exactly for Jack, Queen, King and the 10 |
| Blackjack.Score | src/utils/blackjack.ts:5-28 | a hand of n cards scores between 2n and 11n, and the empty hand scores 0 |
| Blackjack.CalculateScore | src/utils/blackjack.ts:5-28 | the switch loop returns the sum of the cards' points, the reference `Score` |
| Blackjack.ScoreAppend | src/utils/blackjack.ts:8-25 | appending a card adds exactly its points, so drawing strictly raises the score |
| Blackjack.ScoreConcat | src/utils/blackjack.ts:8-25 | the score of a concatenation is the sum of the scores |
| Blackjack.ScoreOrderIndependent | src/utils/blackjack.ts:8-25 | two hands holding the same cards, in any order, score the same |
| Blackjack.ScoreExamples | src/utils/blackjack.ts:11-23 | 10 and Jack make 20, Ace and King make 21, and three Aces make 33 |
| Blackjack.HandResult | src/utils/blackjack.ts:30-41 | a bust player gets −bet whatever the dealer holds; a non-bust player against a bust dealer gets +bet; otherwise the higher score wins the bet and equal scores give 0; the result is always −bet, 0 or +bet |
| Blackjack.HandResultMonotone | src/utils/blackjack.ts:30-41 | against a fixed dealer score, a higher non-bust player score never settles worse |
| Blackjack.DealerDrawsTakesTop | src/utils/blackjack.ts:52-59 | the dealer's final hand is the starting hand followed by the top cards of the deck, in pop order, so the starting hand is a prefix |
| Blackjack.DealerDrawsReaches17 | src/utils/blackjack.ts:52-59 | with hand and deck together worth at least 17: the dealer ends at 17 or more; nothing is drawn from 17 up; from under 17 the final score is at most 27 |
| Blackjack.DealerDrawsStopsFirst | src/utils/blackjack.ts:52 | every hand the dealer passed through before the final one scored under 17: the dealer stops at the first score of 17 or more |
| Blackjack.DealerDrawsExhausts | src/utils/blackjack.ts:52-59 | when hand and deck together are worth under 17, the dealer takes the whole deck and stays under 17, so the app's loop cannot end |
| Blackjack.DealerTurn | src/utils/blackjack.ts:43-62 | the loop returns the reference dealer hand and its score, which is at least 17; the input hand is a prefix of the result; nothing is drawn from 17 up |
| App.ConservedCards | src/App.tsx:63-69 | when deck and hands together are the full deck, they hold 52 cards and each card is in exactly one place |
| App.DeckSuffices | src/App.tsx:85 | with one dealer card and at most 11 player cards, the deck holds at least 40 cards and enough points for the dealer's loop to end |
| App.InPlayDeckHolds | src/App.tsx:98-99 | in a valid round in play the player holds at most 10 cards and the deck at least 40, so a hit always finds a card |
| App.HitConserves | src/App.tsx:99-106 | moving the top card of the deck to the player's hand keeps every card in exactly one place |
| App.HitInPlay | src/App.tsx:99-106 | a hit that does not bust leaves a valid round in play |
| App.DealerConserves | src/App.tsx:85 | moving the dealer's draws from the deck to the dealer's hand keeps every card in exactly one place |
| App.DealerFirstDraw | src/App.tsx:85 | from under 17 the dealer draws at least once, and its first drawn card is the top card of the deck it is given |
| App.OpeningConserves | src/App.tsx:63-69 | the opening deal gives the dealer the top card and the player the next two, and loses no card |
| App.OpeningDeal | src/App.tsx:63-73 | a round dealt from a full deck and waiting for a bet satisfies the game invariant |
| App.Game.constructor | src/App.tsx:16-28 | the initial cells are round 1, money 0, out of money, an empty deck and hands, bet 0 and result 0, and they satisfy the invariant |
| App.Game.NextRound | src/App.tsx:45-74 | bet and result are reset to 0; if money plus the last result is ≤ 0, money and round become 0, the phase is out of money and no cards are dealt; otherwise money becomes money plus result, round becomes round + 1, the phase becomes betting, the dealer gets the top card of a fresh shuffled deck and the player the next two, and 49 cards are left |
| App.Game.NextHand | src/App.tsx:145 | from a settled round, the game ends exactly when the whole bankroll was bet and lost; an ended game leaves the deck and hands as they were; otherwise the result is added to the money, the round advances, and the dealer gets the top card of a fresh shuffled deck and the player the next two |
| App.Game.NewGame | src/App.tsx:76-80 | from no money, the stake becomes 200 and a round is dealt at once: betting phase, round + 1, the dealer gets the top card of a fresh shuffled deck, the player the next two, and the other 49 cards stay in the deck |
| App.Game.SetBet | src/App.tsx:138 | the bet input stores the amount as given, without checking it, and keeps the invariant |
| App.Game.PlaceBet | src/App.tsx:114-117 | a bet of 1..money moves the betting phase to play, changing nothing else |
| App.Game.Stand | src/App.tsx:82-96 | the phase becomes stand; the dealer plays out to at least 17 from the deck cell, which is not written; the result is the settlement of the given hand score against the dealer's final score and the bet |
| App.Game.Hit | src/App.tsx:98-112 | exactly one card moves from the top of the deck to the end of the player's hand; without a bust the round stays in play and nothing else changes; on a bust the round is settled at −bet after the dealer draws from the deck as it was before the hit, so the dealer's first drawn card is the card that bust the player |
| App.Game.StandCorrected | src/App.tsx:82-96 | stand as intended: as Stand, and the cards the dealer drew are removed from the deck cell, so every card stays in exactly one place |
| App.Game.HitCorrected | src/App.tsx:98-112 | hit as intended: the same hand update, and a bust settles against the deck left after the hit, whose end loses the dealer's draws, so every card stays in exactly one place |

## Left out

- The log panel and the `log` function (src/App.tsx:38-43), and all JSX
  rendering (src/App.tsx:119-190). They only display state. The
  `StatusBar` and `LogPanel` components are not part of this model.
- `Math.random` and `Math.floor` are replaced by the index sequence `rand`,
  with each index in 0..p.
- The order of `Object.values` over the suit and value objects is fixed as
  Clubs, Spades, Hearts, Diamonds and 2..10, Jack, Queen, King, Ace.
  src/types/CardValue.ts is not part of this model, so the value enumeration
  is reconstructed from its uses.
- The `isNaN(Number(...))` and `~~` coercions (src/utils/blackjack.ts:9, 23) are
  replaced by the `CardValue` datatype. The switch's `default: break` is
  therefore unreachable and has no counterpart.
- `Number(e.target.value)` on the bet input: the model takes an integer, so a
  non-numeric or fractional input is not modelled.
- `useMemo` caching of the scores: `Score` of the current hand is used instead.
- React's deferred, batched state updates are modelled as reads before writes
  inside each handler. Renders between handler calls are not modelled.
- App.Game.Hit: requires a non-empty deck. `App.InPlayDeckHolds` proves that
  every valid round in play has at least 40 cards, so this excludes no
  reachable call.
- App.Game.Stand: accepts any hand score, as the app's `stand` does; the
  "Stand" button (src/App.tsx:147) passes `Score(playerHand)`.
- Blackjack.DealerTurn: requires the hand and the deck together to be worth at
  least 17. `Blackjack.DealerDrawsExhausts` shows that otherwise the app's loop
  never ends. `App.DeckSuffices` shows that this always holds in a round in
  play. It also requires `dealerScore == Score(dealerHand)`: the only caller,
  `stand`, passes the memoised score of the dealer's hand
  (src/App.tsx:34-36, 85).
- CardDeck.InitializeDeck: the uniform distribution of the shuffle is not
  stated; only that every draw sequence in range yields a permutation.
- CardDeck.DealCards: `count` is an integer. The app's `count` is a `number`,
  and a fractional count would pop ⌈count⌉ cards. The only callers pass 1 and 3.

## Findings

| source | as written | input that shows it | evidently intended | confidence | as-written member | corrected member |
|---|---|---|---|---|---|---|
| src/App.tsx:85, 99-110 | on a bust, `hit` calls `stand`, which reads the `deck` cell from before the hit; the dealer's first draw is the card the player just drew, so that card is in both hands; `stand` also never stores what is left of the deck | any hit that takes the player over 21 while the dealer holds under 17 (every first dealer card scores at most 11) | the dealer draws from the deck left after the hit, and the deck cell loses the dealer's draws | not executed | App.Game.Hit | App.Game.HitCorrected |
