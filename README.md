# Card game round engine

A model of the round engine in `script.js`, a browser card game where a
human plays against the CPU. Each card has an owner (player or CPU) and a value
from 1 to 10. It sits in one of four containers: the player hand, the CPU hand,
the play area, or a hidden discard container. A round goes like this:

1. The player clicks a card of their own that is still in their hand. The card
   moves to the play area and the round becomes active.
2. The CPU plays a random card from its own hand.
3. The first player card and the first CPU card in the play area are compared.
   The higher value scores one point for its side; equal values score nothing.
4. Both cards go to the discard.

The New Game button sends the play area to the discard and returns every card to
its owner's hand. It also resets both scores to 0 and rolls new values.

The project has three modules:

- `Cards` (`cards.dfy`): owners, the comparison rule, and the two lookups
  the engine makes over a list of cards. They model `filter` by owner and
  `find` by owner.
- `Zones` (`zones.dfy`): the four containers as one `Layout` value. It
  defines `Relocate`, the effect of a DOM `appendChild`: the card leaves the
  container it was in and goes to the end of the target container. It also
  defines `Regroup`, the effect of the collecting loop of `resetGame`. Next to
  these are the invariant every move keeps (`Sound`: each card is in exactly
  one container, and each hand holds only its owner's cards) and the lemmas
  that prove it.
- `RoundEngine` (`engine.dfy`): the class `Game`. Its fields are the page's
  globals: the two scores, `isRoundActive`, the four containers, and the
  `data-owner`/`data-value` attributes of the cards. Each step the page chains
  with timers is its own method: `Click`, `PlayPlayerCard`, `CpuPlay`,
  `EvaluateRound` and `DiscardPlayed`. `PlayRound` runs the chain from a click
  to the end of the round. `ResetGame` models the New Game button.

Cards are numbered `0 .. n-1`. A value is `Option<int>`. `None` stands for a
`data-value` that `parseInt` does not accept, so the invalid-value branch of
`evaluateRound` can be modelled. The random draws become parameters:

- `pick` is the CPU's choice;
- `rolls` holds the values `assignValues` deals;
- `order` is the document order `resetGame` walks through.

The page has no guard against a round whose CPU hand is empty. In that case
`evaluateRound` finds no CPU card and aborts. The player's card then stays in
the play area, and every later round until New Game aborts the same way,
leaving each played card in the play area.
The model keeps this: `Idle` allows player cards in the play area once the CPU
hand is empty, and `PlayRound` states the aborted outcome.

## Model

| member | source | states |
|---|---|---|
| Cards.Compare | script.js:131-141 | the player wins exactly when p > c, the CPU exactly when c > p, and it is a tie exactly when p = c |
| Cards.Filter | script.js:95 | filtering a list in which every card belongs to the side filtered for returns the list unchanged; the result is never longer than the input |
| Cards.FilterMembers | script.js:95 | a card is in the filtered list exactly when it is in the input and belongs to the side filtered for |
| Cards.FilterAppend | script.js:196-197 | filtering a concatenation is the concatenation of the filtered parts |
| Cards.FilterSplit | script.js:196-197 | the player filter and the CPU filter of a list together are as long as the list |
| Cards.FirstOwned | script.js:109-110 | `find` by owner returns no position exactly when no card of the list has that owner; otherwise it returns a position holding such a card, with none before it |
| Cards.FirstOwnedIsHeadOfFilter | script.js:108-110 | `find` by owner fails exactly when `filter` by that owner is empty; otherwise it returns the head of that filter |
| Cards.FirstOwnedOfOneSide | script.js:110-116 | in a list holding only cards of one side, `find` for the other side fails |
| Cards.FirstOwnedOfPair | script.js:108-110 | in a play area holding a player card followed by a CPU card, `find` returns the first for the player and the second for the CPU |
| Zones.EachOnceLength | script.js:34 | a list holding each of the n cards once has length n |
| Zones.Conservation | script.js:88 | when the containers partition the n cards, their sizes add up to n |
| Zones.ExactlyOneZone | script.js:162 | under the partition, each card lies in exactly one container, and nothing outside the n cards lies in any |
| Zones.Without | script.js:88 | the removal half of a move; it never lengthens a container, and `WithoutMembers` and `WithoutMultiset` state exactly which cards it keeps and how often |
| Zones.WithoutMembers | script.js:88 | a card is left after removal exactly when it was there and was not removed |
| Zones.WithoutMultiset | script.js:88 | removal drops every copy of the removed cards and keeps every other card's count |
| Zones.WithoutAbsent | script.js:88 | removing cards that are not there changes nothing |
| Zones.WithoutConcat | script.js:172-173 | removal distributes over concatenation |
| Zones.WithoutTwice | script.js:172-173 | removing one list of cards and then another is removing both at once |
| Zones.ShiftMembers | script.js:88 | after `appendChild` the card is in a container exactly when that container is the target; other cards' membership is unchanged; a container the card was not in only gains it at the end |
| Zones.Relocate | script.js:88 | `appendChild` as a function of the whole table; it adds at most the moved card, and `RelocateMembers`, `RelocateCount` and `RelocateKeepsSound` state where every card ends up and that the table stays sound |
| Zones.RelocateUntouched | script.js:102 | each container that did not hold the moved card keeps its contents and gains only that card at the end, and only when it is the target |
| Zones.RelocateMembers | script.js:162 | after a move the card is only in the target container, and every other card stays in the same containers |
| Zones.ShiftOwnedBy | script.js:172-173 | a hand receiving only its owner's cards keeps holding only its owner's cards |
| Zones.ShiftCount | script.js:88 | a move leaves the moved card in a container once exactly when it is the target, and leaves other cards' counts alone |
| Zones.RelocateCount | script.js:88 | a move leaves the moved card once in all containers together and keeps every other card's total |
| Zones.RelocateKeepsPartition | script.js:172-174 | every move keeps each card in exactly one container |
| Zones.DealIsSound | script.js:46-51 | when the two starting hands list each card once and each card belongs to the side whose hand it starts in, the table is sound |
| Zones.RelocateKeepsSound | script.js:172-173 | a move to the owner's hand, the play area or the discard keeps the table sound |
| Zones.DiscardHead | script.js:168 | discarding the front card of the play area takes it off the front and appends it to the discard; nothing else changes |
| Zones.FrontIsAlone | script.js:168 | the front card of the play area is in no other container and occurs there once |
| Zones.PlayFromPlayerHand | script.js:88 | playing a card of the player hand removes it from that hand and appends it to the play area; nothing else changes |
| Zones.PlayFromCpuHand | script.js:102 | playing a card of the CPU hand removes it from that hand and appends it to the play area; nothing else changes |
| Zones.CpuCardIsAlone | script.js:101-102 | a card of the CPU hand is in no other container |
| Zones.DiscardPair | script.js:145-146 | discarding both cards of a two-card play area, in order, empties it and appends both to the discard in the same order |
| Zones.Home | script.js:172-173 | a player card's home is the player hand and a CPU card's home is the CPU hand |
| Zones.Regroup | script.js:171-175 | the collecting loop of `resetGame`, card by card; `RegroupSize` bounds what it adds by the listed cards, and `RegroupClosedForm` and `RegroupAll` give its closed form and its end state |
| Zones.RegroupSize | script.js:171-175 | walking a list of cards and sending each home adds at most as many cards to the table as the list holds |
| Zones.RegroupClosedForm | script.js:171-175 | walking a duplicate-free list and sending each card home removes the listed cards from every container and appends each side's listed cards, in list order, to its hand |
| Zones.RegroupAll | script.js:171-175 | walking every card once empties the play area and the discard, and leaves each hand holding exactly its owner's cards in document order |
| Zones.FilterSides | script.js:171-175 | a card is in the player-side filter of the full order exactly when it is a player card, and likewise for the CPU |
| Zones.CoveredIsEmptied | script.js:171-175 | removing a list that covers a container empties it |
| RoundEngine.AssignOwners | script.js:46-51 | each of the n cards is the player's exactly when it starts in the player hand, and the CPU's otherwise |
| RoundEngine.Game.constructor | script.js:37-43 | page load: the owners follow the starting hands, every value is rolled into 1..10, scores are 0, no round is active, and the table is sound |
| RoundEngine.Game.AssignValues | script.js:61-67 | card i gets value rolls[i], so every value lies in 1..10 |
| RoundEngine.Game.DiscardCounts | script.js:193-199 | the player and CPU discard counts add up to the number of discarded cards |
| RoundEngine.Game.Available | script.js:95 | the cards `cpuPlay` may choose from are exactly the CPU hand |
| RoundEngine.Game.MoveTo | script.js:88 | `appendChild` is `Relocate` on the table and keeps it sound; values, scores and the round flag are unchanged |
| RoundEngine.Game.MoveToDiscard | script.js:153-163 | the card ends up in the discard as the last step of a `Relocate`; nothing but the containers changes |
| RoundEngine.Game.Click | script.js:71-79 | a card is played exactly when no round is active and the target is a player card in the player hand; a played card leaves the player hand and is appended to the play area, and the round becomes active; otherwise nothing changes |
| RoundEngine.Game.PlayPlayerCard | script.js:85-91 | while a round is active nothing moves; otherwise the round becomes active and the card is appended to the play area |
| RoundEngine.Game.CpuPlay | script.js:94-104 | with no CPU card in the CPU hand nothing moves; otherwise exactly the picked CPU card of the CPU hand is appended to the play area |
| RoundEngine.Game.EvaluateRound | script.js:107-150 | a missing player or CPU card in the play area aborts: nothing moves, nothing scores, and the round ends. A value that does not parse sends both cards to the discard unscored. Otherwise the first player and CPU cards are compared with `Compare`, and exactly the winner's score goes up by one |
| RoundEngine.Game.DiscardPlayed | script.js:144-149 | both compared cards end up in the discard and the round ends; values and scores are unchanged |
| RoundEngine.Game.PlayRound | script.js:71-150 | a whole round from a click: an ignored click changes nothing. With an empty CPU hand the round aborts and the player card stays in the play area. Otherwise the two cards end up at the end of the discard, the winner scores exactly one point, and the table stays sound and idle |
| RoundEngine.Game.FollowUp | script.js:94-150 | the timer chain after a played card: with an empty CPU hand nothing moves and the round aborts. Otherwise the picked CPU card is compared with the played card, both go to the discard, and exactly the winner's score goes up |
| RoundEngine.Game.Settle | script.js:107-150 | with a player card and then a CPU card in the play area, both are compared and discarded; they are scored exactly when both values parse |
| RoundEngine.Game.ResetGame | script.js:166-184 | after New Game each hand holds exactly its owner's cards, in document order; the play area and discard are empty, scores are 0, every value is rerolled into 1..10 and no round is active |
| RoundEngine.Game.DiscardPlayArea | script.js:168 | the play area is appended, in order, to the discard; the hands do not change |
| RoundEngine.Game.DiscardFront | script.js:168 | the front card of the play area goes to the end of the discard |
| RoundEngine.Game.ReturnAll | script.js:171-175 | each hand ends up with exactly its owner's cards, in document order; the play area and discard are empty |
| RoundEngine.Game.ReturnEach | script.js:171-175 | the loop's result is `Regroup` of the table over the document order |

## Left out

- DOM lookup and construction, inline styles, the discard display element, and
  `tabIndex`/`textContent` (script.js:4-31, script.js:56, script.js:65). They
  are presentation only. The containers are the model's sequences.
- `showMessage` and its popup timer (script.js:202-226), `renderScores`
  (script.js:187-190), and the text `updateDiscardCounts` writes. These are UI
  output. `DiscardCounts` models only the two counts.
- Real `setTimeout` delays and event-listener registration (script.js:37-43,
  script.js:81, script.js:90, script.js:103, script.js:144). The chained steps
  run in order, one after another. Timer interleaving is not modelled: for
  example, a New Game pressed while a `cpuPlay` or discard callback is
  still pending.
- `Math.random` (script.js:63, script.js:101). It becomes the parameters
  `rolls` (each in 1..10) and `pick` (below the number of available CPU cards).
- The document order of `querySelectorAll` (script.js:34) depends on HTML that
  is not part of this model. `ResetGame` takes that order as the parameter
  `order`, listing every card once.
- The fallback owners of `assignOwners` (script.js:54) and `resetGame`
  (script.js:174), and the "already set" check of `assignOwners`
  (script.js:49). Every card starts in one of the two hands, and the owner is
  a two-valued type set once.
- The lazy creation of the internal discard element (script.js:155-161), and
  the `card.parentElement` null test (script.js:162). Every card of the model
  always sits in some container.
- RoundEngine.Game.DiscardCounts: states only that the two counts add up to
  the number of discarded cards. It does not say separately that each count is
  that side's discarded cards. Its body computes those counts with `Filter`.
