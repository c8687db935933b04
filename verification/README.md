# Blackjack round engine

A Dafny model of the blackjack game on a personal desktop-style web page. The
page keeps a deck, the player's hand, the dealer's hand, a flag saying whether a
round is in progress, and a status line. It has three buttons:

- **Start** (`deal`) builds a fresh 52-card deck in random order. It gives the
  player two cards and the dealer one. A player holding 21 wins at once;
  otherwise it is the player's turn.
- **Hit** (`hit`) gives the player one more card. Reaching 21 wins, going over
  21 loses, and anything less keeps the round going.
- **Stand** (`stand`) makes the dealer draw while the dealer's hand is worth
  less than 17. The scores are then compared.

Cards are always taken from the end of the deck (`pop`). A hand's value
(`getValue`) counts number cards at face value, court cards at 10 and Aces at
11. While the total is over 21, Aces are counted at 1 instead, one at a time.

The model has four modules:

- `Cards` (cards.dfy): cards, the unshuffled deck, and the shuffle.
- `Scoring` (scoring.dfy): hand values.
- `Game` (game.dfy): the round state, the three handlers and the button state.
- `Safety` (safety.dfy): the invariant that every reachable state keeps, and
  the proof that no `pop` ever finds the deck empty.

The page's global variables become one immutable `Round` record. Each handler
becomes a pure function from one `Round` to the next.

The deck is put into order by a sort whose comparator returns random answers.
The model does not model the randomness. The shuffle is modelled only as some
permutation of the full deck: an arbitrary list of position exchanges. Every
such list keeps the same cards, and every order of the 52 cards can be made by
some list (`Cards.NewDeckReachesEveryFullDeck`).

During a round the player's value is strictly below 21, because the round also
ends on exactly 21 (script.js:197-201).

`deck.pop()` on an empty deck gives `undefined`, and the handlers do not check
for that. So `Hit` requires a non-empty deck during a round, and `Stand`
requires enough cards for the dealer's loop to finish (`DealerCanFinish`).
`Safety` proves that both requirements hold in every state reachable from the
page's initial state. The reason is that 52 cards always sit between the deck
and the hands, and during a round the player holds at most 20 of them.

## Model

| member | source | states |
|---|---|---|
| Cards.FullDeckExactlyOnce | script.js:116-120 | The deck built from the four suits and thirteen ranks has 52 cards, and every card appears in it exactly once |
| Cards.Swap | script.js:120 | One exchange made by the sort keeps the same cards, swaps the two positions and leaves every other position unchanged |
| Cards.Shuffle | script.js:120 | Sorting into a random order only permutes the deck: same length, same multiset of cards |
| Cards.NewDeck | script.js:116-121 | `newDeck` returns 52 cards, each card exactly once, and the same cards as the unshuffled deck |
| Cards.ShuffleKeepsLast | script.js:120 | Exchanges among the first positions leave a card after them in place |
| Cards.ShuffleFirstSwap | script.js:120 | A list of exchanges beginning with (i, j) first exchanges positions i and j, then applies the rest |
| Cards.ShuffleToLast | script.js:120 | Exchanging a position with the last and then shuffling only the positions before it leaves that card last |
| Cards.FindCard | script.js:120 | A card the deck holds sits at some position of it |
| Cards.BringLastCard | script.js:120 | When two decks hold the same cards, one exchange brings the second deck's last card to the end of the first, and the cards before it match the rest of the second deck |
| Cards.ExchangesTo | script.js:120 | For any two decks with the same cards there is a list of exchanges within the deck that turns the first into the second |
| Cards.ShuffleReachesEveryOrder | script.js:120 | Every order of a deck's cards is the outcome of some list of exchanges |
| Cards.FullDecksSameCards | script.js:116-120 | Any two 52-card decks holding every card once hold the same cards |
| Cards.NewDeckReachesEveryFullDeck | script.js:116-121 | Every order of the 52 cards is a possible result of `newDeck` |
| Scoring.DowngradeSteps | script.js:136 | The Ace loop takes 10 off per downgraded Ace and downgrades at most every Ace. It stays over 21 only once every Ace counts 1, and only downgrades when needed (a lowered total is above 11) |
| Scoring.Value | script.js:128-138 | `getValue` returns the best total of the hand: between the hard total (all Aces at 1) and the soft total (all Aces at 11), a multiple of 10 below the soft total, over 21 only when the hard total is, and otherwise the highest such total not over 21 |
| Scoring.ValueDowngradesAces | script.js:128-138 | The hand value is the soft total (Aces at 11) less 10 for each downgraded Ace. A value over 21 equals the hard total, with every Ace counted at 1 |
| Scoring.BestTotalIsUnique | script.js:128-138 | At most one total of a hand meets the best-total definition |
| Scoring.ValueCharacterized | script.js:128-138 | A total is the best total of a hand if and only if `getValue` returns it |
| Scoring.TwoCardsNeverBust | script.js:172-177 | Two cards are never worth more than 21 (two Aces are worth 12), so the opening hand never busts |
| Scoring.ValueExamples | script.js:128-138 | {A,A} is worth 12, {K,A} 21 and {K,Q,A} 21 |
| Game.PopOrderPermutes | script.js:172-173 | Popping all the cards of a sequence takes each of them once |
| Game.Pop | script.js:172 | `pop` splits the deck into the rest and its last card, and pushing the card back gives the deck |
| Game.Deal | script.js:170-186 | Start gives the player the last two cards in pop order and the dealer the next one, and leaves the other 49 in place. The round is over exactly when the player holds 21 (status "Blackjack! You win! :)"); otherwise it is the player's turn |
| Game.Hit | script.js:191-209 | Outside a round nothing changes. During one, exactly one card moves from the deck's end to the player's hand. The round ends with a win iff the value is 21, ends with a loss iff it is over 21, and otherwise continues with the status unchanged |
| Game.PopOrderFirstLast | script.js:216 | A card drawn earlier lies later in the deck: popping a sequence takes its first card last |
| Game.DealerDrawStep | script.js:216 | One draw of the dealer's loop keeps the dealer's earlier cards, and the dealer's new cards are the deck's end in pop order |
| Game.DealerStopStep | script.js:216 | One draw of the dealer's loop happens only while the dealer's hand is below 17 |
| Game.DealerPlay | script.js:216 | The dealer's loop ends with a hand worth at least 17. That hand extends the old one with the cards taken from the deck's end in pop order, and every shorter extension was below 17 |
| Game.Outcome | script.js:218-222 | The player wins iff the dealer is over 21 or scores less. It is a draw iff the dealer is not over 21 and the scores are equal, and the dealer wins iff the dealer is not over 21 and scores more |
| Game.Stand | script.js:214-226 | Outside a round nothing changes. During one, the dealer ends at 17 or more and stops at the first hand worth 17 or more: every shorter hand on the way was below 17. The player's hand is unchanged, the round is over, the cards drawn come from the deck's end, and the status is the outcome of the two scores |
| Game.StatusTextsDistinct | script.js:178-222 | The status line gives every status its own non-empty text: "Blackjack! You win! :)", "Your turn", "Over 21, you lose. :(", "You win!", "Draw." and "Dealer wins." (and `Press "Start" to begin.` at load, script.js:248) |
| Game.UpdateButtons | script.js:151-165 | Start is enabled exactly when no round is in progress, and Hit and Stand exactly when one is |
| Game.Initial | script.js:245-251 | After loading, both hands are empty, no round is in progress, and the status asks for Start. The deck is still the empty deck it was declared with (script.js:109) |
| Game.ButtonsMatchMoves | script.js:151-165 | Start is enabled iff no round is in progress. Hit and Stand are enabled iff pressing them would change the state |
| Safety.InitialValid | script.js:245-251 | The state after loading (empty hands, no round in progress) satisfies the invariant |
| Safety.DealValid | script.js:170-186 | A fresh deal keeps all 52 cards between deck and hands and leaves a state that satisfies the invariant |
| Safety.PlayerHandSmall | script.js:193-208 | During a round the player holds at most 20 cards, since each card is worth at least 1 and the value is below 21 |
| Safety.HitCanDraw | script.js:193 | During a round in a valid state the deck holds at least 31 cards, so Hit's `pop` finds one |
| Safety.DealerFinishesFromHardPoints | script.js:216 | The dealer's loop finds enough cards whenever the hard totals of the dealer's hand and the deck add up to 17 |
| Safety.StandCanDraw | script.js:216 | During a round in a valid state the deck holds enough cards for the dealer's loop |
| Safety.HitConserves | script.js:193 | Hit keeps all 52 cards between deck and hands |
| Safety.StandConserves | script.js:216 | Stand keeps all 52 cards between deck and hands |
| Safety.HitValid | script.js:191-209 | Hit can draw, and it keeps the invariant: while a round is in progress the player is below 21 and the dealer holds one card |
| Safety.StandValid | script.js:214-226 | Stand can draw all it needs, and it keeps the invariant |
| Safety.Step | script.js:170-226 | Any button press from a valid state leads to a valid state. A Start leaves 49 cards in the deck with all cards accounted for, and Hit or Stand outside a round change nothing |
| Safety.Run | script.js:109-226 | Any sequence of button presses from a valid state stays valid, and every `pop` on the way finds a card |

## Left out

- The window manager (opening, closing, z-order and dragging of windows, script.js:1-106) is not modelled. It only positions and styles page elements and shares no state with the game.
- The sudoku window (script.js:254-303) is not modelled. It only wires buttons to a third-party widget whose code is not part of this model.
- `toggleList` (script.js:310-323) and `displayHands` (script.js:143-146) are not modelled. They only change styles and text on the page.
- The page-load handler (script.js:229-252) is modelled only by its effect on the game state (`Game.Initial`: empty hands, no round in progress, the "Press Start" status). Renaming buttons and setting element ids is left out.
- The randomness of the shuffle (`Math.random` in the sort comparator) is not modelled. It is replaced by an arbitrary list of exchanges, so every shuffle outcome is covered but none is preferred. Whether the sort is biased is not modelled.
- The status line is modelled as a `Status` value. `Game.StatusText` gives the exact text for each value. Writing the text and the button flags into the page is left out.
- Game.Hit and Game.Stand require a deck that can supply the cards they pop. The page does not check this: popping an empty deck yields `undefined`, and the next hand value would then fail. `Safety` proves the requirement always holds in reachable states.
- Game.Deal requires the deck it is given to be a full 52-card deck, which is what `newDeck` always returns (`Cards.NewDeck`).
