# Go Nuts for Donuts: card containers, scoring and turn bookkeeping in Dafny

This project models two parts of the Go Nuts for Donuts game environment.

The first part is the card containers of `classes.py`:
- the draw pile `Deck`, built from a contents table and drawn from its end;
- the `Discard` pile;
- a player's `Hand` and tableau (`Position`);
- the market slot `DonutDeckPosition`;
- the `Player` record.

Each container is a Dafny class whose `cards` field is a `seq<Card>`. Its methods reassign that field, as the source appends to and pops from its list.

The second part is the scoring and turn helpers of `gonutsfordonuts.py`:
- `score_game`, the zero-sum end-of-game reward split;
- `get_limits`, the arg-max / arg-min with masked entries;
- the majority bonuses `score_puddings` and `score_maki`;
- the per-tableau rules of `score_round`;
- the action decoding of `convert_action`;
- `switch_hands`, which passes hands one seat on;
- `reset_turn`, which refills the market slots.

The methods that update `Player.score`, `Player.hand` or the market in place are methods over the objects. Each is proved against a specification function on values: `PuddingAward`, `MakiAward`, `RoundPoints`, `Rewards`, `Limits`, `Rotated` and `Refill`. The lemmas about those functions state what the game promises:
- rewards sum to zero;
- ties split the bonus;
- passing the hands is a rotation that neither loses nor duplicates a hand;
- a refill neither makes nor loses a card.

Files:
- `wrappers.dfy`: `Option`.
- `cards.dfy`: card kinds, cards, contents tables and the stack they build (`Catalog`), plus the pure stack views `Top`, `Below` and `FindName`.
- `containers.dfy`: the container classes and the `reorder` specification.
- `ranking.dfy`: `get_limits`.
- `scoring.dfy`: `score_game`, `score_puddings`, `score_maki` and `score_round`.
- `actions.dfy`: `convert_action`.
- `turn.dfy`: `switch_hands` and `reset_turn`.

Facts about the code that the model keeps:
- `reset_turn` has no end-of-game check: it pops from the pile whatever its size.
- The standard contents table holds 37 cards for two players.
- `reorder` puts the requested cards first, then every other card in its present order, then reverses the list.

Source paths below are relative to the repository root.

## Model

| member | source | states |
|---|---|---|
| Cards.Catalog | app/environments/gonutsfordonuts/gonutsfordonuts/envs/classes.py:233-241 | the stack `create` builds: every card carries the index of a contents entry as `order`, and that entry's class |
| Cards.Block | app/environments/gonutsfordonuts/gonutsfordonuts/envs/classes.py:236-241 | one entry's copies: `count` cards with ids counting up from the start id, the entry's index as `order`, the entry's class |
| Cards.CatalogStep | app/environments/gonutsfordonuts/gonutsfordonuts/envs/classes.py:234-241 | one more contents entry appends exactly its block of copies, and the card count grows by its `count` |
| Cards.CatalogSize | app/environments/gonutsfordonuts/gonutsfordonuts/envs/classes.py:233-241 | the stack `create` builds has as many cards as the counts of the contents add up to |
| Cards.CatalogIds | app/environments/gonutsfordonuts/gonutsfordonuts/envs/classes.py:233-241 | card ids are 0, 1, 2, ... in stack order |
| Cards.CatalogAt | app/environments/gonutsfordonuts/gonutsfordonuts/envs/classes.py:234-241 | copy `j` of entry `o` sits at position (cards of the earlier entries) + `j`, has that position as id, `o` as order and the entry's class |
| Cards.StandardContents | app/environments/gonutsfordonuts/gonutsfordonuts/envs/gonutsfordonuts.py:32-42 | nine donut classes, French cruller last, with `min(players - 1, 4)` crullers (none below two players) |
| Cards.StandardSize | app/environments/gonutsfordonuts/gonutsfordonuts/envs/gonutsfordonuts.py:32-44 | the standard contents table gives a two-player game 37 cards |
| Cards.OneOfEachCards | app/test/gonutsfordonuts/testgonutsfordonuts.py:6-32 | the reversed one-of-each fixture builds 9 cards, card `o` being the single copy of entry `o` |
| Cards.OneOfEachDraws | app/test/gonutsfordonuts/testgonutsfordonuts.py:41-54 | undisturbed, the first five cards drawn from that deck are ids 8, 7, 6, 5, 4 with symbols CF, DH, ECL, GZ, JF |
| Cards.Reversed | app/environments/gonutsfordonuts/gonutsfordonuts/envs/classes.py:202-203 | `list.reverse`: same length, element `k` is element `n - 1 - k` of the original |
| Cards.Top | app/environments/gonutsfordonuts/gonutsfordonuts/envs/classes.py:207-211 | the `n` cards `draw` pops, in popping order: card `k` is the `k`-th from the end; none when `n` is not positive |
| Cards.Below | app/environments/gonutsfordonuts/gonutsfordonuts/envs/classes.py:207-211 | what `draw` leaves: the pile without its top `n` cards, the others keeping their places |
| Cards.TopStep | app/environments/gonutsfordonuts/gonutsfordonuts/envs/classes.py:209-210 | popping one more card appends the card then on top to the drawn list and removes it from the pile |
| Cards.TopBelow | app/environments/gonutsfordonuts/gonutsfordonuts/envs/classes.py:207-211 | drawn cards (reversed back) on top of what is left rebuild the pile; `n` cards are drawn, none when `n` is not positive |
| Cards.FindName | app/environments/gonutsfordonuts/gonutsfordonuts/envs/classes.py:273-276 | the index found is the first card with the name; there is none exactly when no card has it |
| Cards.FindNameAt | app/environments/gonutsfordonuts/gonutsfordonuts/envs/classes.py:273-276 | the first card with the name is the one `pick` finds |
| Cards.RemoveAt | app/environments/gonutsfordonuts/gonutsfordonuts/envs/classes.py:275-275 | `pop(i)`: one card fewer, the cards before `i` stay, the cards after it move down one |
| Cards.RemoveAtMultiset | app/environments/gonutsfordonuts/gonutsfordonuts/envs/classes.py:275-275 | `pop(i)` removes that card only: one card fewer, and with it the old multiset |
| Containers.PyIndex | app/environments/gonutsfordonuts/gonutsfordonuts/envs/classes.py:195-195 | Python list indexing: `cards[i]` is the card at `i` modulo the length, so a negative index counts from the end |
| Containers.Requested | app/environments/gonutsfordonuts/gonutsfordonuts/envs/classes.py:194-195 | the first loop of `reorder`: one card of the deck per requested index, in request order |
| Containers.Unrequested | app/environments/gonutsfordonuts/gonutsfordonuts/envs/classes.py:198-200 | the second loop: cards of the deck whose id is not requested, never more than the deck holds |
| Containers.Reordered | app/environments/gonutsfordonuts/gonutsfordonuts/envs/classes.py:189-205 | the pile `reorder` leaves: as many cards as requested plus unrequested, every one a card of the old deck |
| Containers.ReorderedDrawOrder | app/environments/gonutsfordonuts/gonutsfordonuts/envs/classes.py:189-205 | after `reorder`, drawing `len(new_order)` cards gives the requested cards in the order asked for; what remains, drawn out, gives the other cards in their previous order |
| Containers.ReorderedDrawsRequestedIds | app/environments/gonutsfordonuts/gonutsfordonuts/envs/classes.py:189-205 | on a deck whose ids are its indices, the cards drawn first carry exactly the requested ids, in order |
| Containers.UnrequestedNone | app/environments/gonutsfordonuts/gonutsfordonuts/envs/classes.py:197-200 | with nothing requested, every card stays in the second group, in order |
| Containers.UnrequestedSplit | app/environments/gonutsfordonuts/gonutsfordonuts/envs/classes.py:198-200 | naming one more id moves exactly the cards with that id out of the unrequested group |
| Containers.SplitIsPermutation | app/environments/gonutsfordonuts/gonutsfordonuts/envs/classes.py:194-200 | with distinct in-range ids, requested plus unrequested cards are the deck's cards, each once |
| Containers.RequestedSnoc | app/environments/gonutsfordonuts/gonutsfordonuts/envs/classes.py:194-195 | one more requested index appends `cards[i]` (Python indexing) to the requested cards |
| Containers.ReorderPermutes | app/environments/gonutsfordonuts/gonutsfordonuts/envs/classes.py:189-205 | with distinct in-range ids, `reorder` only permutes the deck: same size, same multiset |
| Containers.Deck.constructor | app/environments/gonutsfordonuts/gonutsfordonuts/envs/classes.py:178-184 | a new deck holds the stack its contents describe, and the base deck is the same sequence |
| Containers.Deck.Reorder | app/environments/gonutsfordonuts/gonutsfordonuts/envs/classes.py:189-205 | the new pile is the requested cards, then the rest in their present order, all reversed |
| Containers.Deck.Draw | app/environments/gonutsfordonuts/gonutsfordonuts/envs/classes.py:207-211 | returns the top `n` cards in the order popped and leaves the pile without them |
| Containers.Deck.DrawOne | app/environments/gonutsfordonuts/gonutsfordonuts/envs/classes.py:213-214 | returns the former last card and removes it |
| Containers.Deck.Add | app/environments/gonutsfordonuts/gonutsfordonuts/envs/classes.py:216-218 | appends the given cards in order; the others stay as they were |
| Containers.Deck.AddToBaseDeck | app/environments/gonutsfordonuts/gonutsfordonuts/envs/classes.py:220-222 | appends the given cards to the base deck in order |
| Containers.Deck.Create | app/environments/gonutsfordonuts/gonutsfordonuts/envs/classes.py:224-241 | both the pile and the base deck gain exactly the catalog of the contents |
| Containers.Deck.AddCopies | app/environments/gonutsfordonuts/gonutsfordonuts/envs/classes.py:236-241 | the inner loop adds one entry's block to both lists and advances the id by the entry's count |
| Containers.DonutDeckPosition.constructor | app/environments/gonutsfordonuts/gonutsfordonuts/envs/classes.py:247-250 | a new slot holds the card with both flags false |
| Containers.DonutDeckPosition.GetCard | app/environments/gonutsfordonuts/gonutsfordonuts/envs/classes.py:252-253 | returns the slot's card |
| Containers.DonutDeckPosition.SetTaken | app/environments/gonutsfordonuts/gonutsfordonuts/envs/classes.py:255-256 | sets `taken` and changes nothing else |
| Containers.DonutDeckPosition.SetToDiscard | app/environments/gonutsfordonuts/gonutsfordonuts/envs/classes.py:258-259 | sets `to_discard` and changes nothing else |
| Containers.Hand.constructor | app/environments/gonutsfordonuts/gonutsfordonuts/envs/classes.py:262-263 | a new hand is empty |
| Containers.Hand.Add | app/environments/gonutsfordonuts/gonutsfordonuts/envs/classes.py:265-267 | appends the given cards in order |
| Containers.Hand.Pick | app/environments/gonutsfordonuts/gonutsfordonuts/envs/classes.py:272-276 | removes and returns the first card with the name, keeping the others in order; with no such card returns nothing and changes nothing |
| Containers.Discard.constructor | app/environments/gonutsfordonuts/gonutsfordonuts/envs/classes.py:280-281 | a new discard pile is empty |
| Containers.Discard.Add | app/environments/gonutsfordonuts/gonutsfordonuts/envs/classes.py:283-285 | appends the given cards in order |
| Containers.Discard.Draw | app/environments/gonutsfordonuts/gonutsfordonuts/envs/classes.py:287-291 | returns the top `n` cards in the order popped and leaves the pile without them |
| Containers.Discard.DrawOne | app/environments/gonutsfordonuts/gonutsfordonuts/envs/classes.py:293-294 | returns the former last card and removes it |
| Containers.Discard.PeekOne | app/environments/gonutsfordonuts/gonutsfordonuts/envs/classes.py:296-299 | nothing exactly when the pile is empty, otherwise its last card; the pile is not changed |
| Containers.Position.constructor | app/environments/gonutsfordonuts/gonutsfordonuts/envs/classes.py:305-306 | a new tableau is empty |
| Containers.Position.Add | app/environments/gonutsfordonuts/gonutsfordonuts/envs/classes.py:308-310 | appends the given cards in order |
| Containers.Position.AddOne | app/environments/gonutsfordonuts/gonutsfordonuts/envs/classes.py:312-313 | appends the one card |
| Containers.Position.Pick | app/environments/gonutsfordonuts/gonutsfordonuts/envs/classes.py:318-322 | removes and returns the first card with the name, keeping the others in order; with no such card returns nothing and changes nothing |
| Containers.Player.constructor | app/environments/gonutsfordonuts/gonutsfordonuts/envs/classes.py:4-8 | a new player has score 0 and a new empty hand and tableau |
| Ranking.Best | app/environments/gonutsfordonuts/gonutsfordonuts/envs/gonutsfordonuts.py:144-148 | `nanmax` / `nanmin`: nothing when every entry is masked, otherwise a present value at the extreme of all present values |
| Ranking.Matches | app/environments/gonutsfordonuts/gonutsfordonuts/envs/gonutsfordonuts.py:150-154 | the loop's `m == type_counts` test: every index collected is below the bound and holds the target |
| Ranking.MatchesSpec | app/environments/gonutsfordonuts/gonutsfordonuts/envs/gonutsfordonuts.py:150-154 | the loop collects exactly the indices whose entry equals the target, ascending; a masked target matches nothing |
| Ranking.Limits | app/environments/gonutsfordonuts/gonutsfordonuts/envs/gonutsfordonuts.py:143-156 | the result is strictly ascending and every index is in range |
| Ranking.LimitsSpec | app/environments/gonutsfordonuts/gonutsfordonuts/envs/gonutsfordonuts.py:143-156 | an index is returned exactly when its entry is present and at the extreme; the result is non-empty exactly when some entry is present |
| Ranking.InLimits | app/environments/gonutsfordonuts/gonutsfordonuts/envs/gonutsfordonuts.py:152-154 | an entry at the extreme is returned |
| Ranking.NotInLimits | app/environments/gonutsfordonuts/gonutsfordonuts/envs/gonutsfordonuts.py:152-154 | an entry that some present entry goes beyond is not returned |
| Ranking.MaskedNotInLimits | app/environments/gonutsfordonuts/gonutsfordonuts/envs/gonutsfordonuts.py:144-154 | a masked entry is never returned |
| Ranking.LimitsNonEmpty | app/environments/gonutsfordonuts/gonutsfordonuts/envs/gonutsfordonuts.py:143-156 | one present entry makes the result non-empty |
| Ranking.ExtremesMatchBest | app/environments/gonutsfordonuts/gonutsfordonuts/envs/gonutsfordonuts.py:146-154 | the entries equal to `nanmax`/`nanmin` are exactly the present entries at the extreme |
| Ranking.SoleExtreme | app/environments/gonutsfordonuts/gonutsfordonuts/envs/gonutsfordonuts.py:143-156 | a present entry strictly beyond all others is the only one returned |
| Ranking.AllEqualLimits | app/environments/gonutsfordonuts/gonutsfordonuts/envs/gonutsfordonuts.py:143-156 | when all present entries are equal, the max and min lists coincide |
| Ranking.GetLimits | app/environments/gonutsfordonuts/gonutsfordonuts/envs/gonutsfordonuts.py:143-156 | the loop returns `Limits` |
| Actions.Encode | app/environments/gonutsfordonuts/gonutsfordonuts/envs/gonutsfordonuts.py:111-111 | the index of a pair `(first, second)` with `second` below `card_types` lies in the block of `first`, after the `card_types` single-card indices |
| Actions.ConvertAction | app/environments/gonutsfordonuts/gonutsfordonuts/envs/gonutsfordonuts.py:230-237 | below `card_types` the action plays that one type without chopsticks; from there on it is decoded into a first and a second type whose encoding gives the action back |
| Actions.DecodeEncode | app/environments/gonutsfordonuts/gonutsfordonuts/envs/gonutsfordonuts.py:111-111 | decoding the index `card_types + first * card_types + second` given to a pair gives that pair back |
| Scoring.Mask | app/environments/gonutsfordonuts/gonutsfordonuts/envs/gonutsfordonuts.py:188-190 | the listed entries are masked, every other entry is kept |
| Scoring.Reward | app/environments/gonutsfordonuts/gonutsfordonuts/envs/gonutsfordonuts.py:134-138 | one player's reward: a share of +1 if among the winners, minus a share of 1 if among the losers, so always between -1 and 1 |
| Scoring.Rewards | app/environments/gonutsfordonuts/gonutsfordonuts/envs/gonutsfordonuts.py:121-140 | `score_game`'s list: one reward per player, each between -1 and 1 |
| Scoring.ScoreGame | app/environments/gonutsfordonuts/gonutsfordonuts/envs/gonutsfordonuts.py:121-140 | the reward list equals `Rewards` of the scores |
| Scoring.FindExtremes | app/environments/gonutsfordonuts/gonutsfordonuts/envs/gonutsfordonuts.py:122-132 | the first loop collects the players on the best and on the worst score, in seat order |
| Scoring.CreditedRewards | app/environments/gonutsfordonuts/gonutsfordonuts/envs/gonutsfordonuts.py:134-138 | winners credited their share and losers debited theirs is `Rewards` |
| Scoring.Credit | app/environments/gonutsfordonuts/gonutsfordonuts/envs/gonutsfordonuts.py:134-138 | each listed player's reward moves by the share, every other one stays |
| Scoring.RepeatShare | app/environments/gonutsfordonuts/gonutsfordonuts/envs/gonutsfordonuts.py:135-135 | `n` shares of `1 / n` add up to 1 |
| Scoring.RewardsSumToZero | app/environments/gonutsfordonuts/gonutsfordonuts/envs/gonutsfordonuts.py:121-140 | the rewards of a game always sum to 0 |
| Scoring.TiedGameRewardsZero | app/environments/gonutsfordonuts/gonutsfordonuts/envs/gonutsfordonuts.py:121-140 | when all scores are equal every reward is 0 |
| Scoring.SoleWinnerSoleLoser | app/environments/gonutsfordonuts/gonutsfordonuts/envs/gonutsfordonuts.py:121-140 | a single best and a different single worst player get +1 and -1, everybody else 0 |
| Scoring.Award | app/environments/gonutsfordonuts/gonutsfordonuts/envs/gonutsfordonuts.py:170-171 | each listed player's score moves by the delta once; everybody else's score and every hand are unchanged |
| Scoring.PuddingAward | app/environments/gonutsfordonuts/gonutsfordonuts/envs/gonutsfordonuts.py:168-178 | a player's pudding bonus, `6 // k` for one of `k` leaders minus `6 // m` for one of `m` trailers, lies between -6 and 6 |
| Scoring.Puddings | app/environments/gonutsfordonuts/gonutsfordonuts/envs/gonutsfordonuts.py:162-164 | one pudding count per player, in seat order |
| Scoring.CountPuddings | app/environments/gonutsfordonuts/gonutsfordonuts/envs/gonutsfordonuts.py:162-164 | the loop collects `Puddings` of the players' tableaux |
| Scoring.AwardPuddings | app/environments/gonutsfordonuts/gonutsfordonuts/envs/gonutsfordonuts.py:168-177 | every player's score moves by `PuddingAward` of the counts |
| Scoring.ScorePuddings | app/environments/gonutsfordonuts/gonutsfordonuts/envs/gonutsfordonuts.py:159-178 | every player's score moves by `PuddingAward` of the pudding counts; hands unchanged |
| Scoring.TiedPuddingsCancel | app/environments/gonutsfordonuts/gonutsfordonuts/envs/gonutsfordonuts.py:159-178 | with equal counts everywhere nobody's score moves |
| Scoring.SolePuddingLeader | app/environments/gonutsfordonuts/gonutsfordonuts/envs/gonutsfordonuts.py:159-178 | a sole leader gains 6, a sole trailer loses 6, everybody else 0 |
| Scoring.MakiAward | app/environments/gonutsfordonuts/gonutsfordonuts/envs/gonutsfordonuts.py:182-199 | a player's maki bonus lies between 0 and 6: a first-place player is masked out of the second-place pass and so never gets both |
| Scoring.ScoreMaki | app/environments/gonutsfordonuts/gonutsfordonuts/envs/gonutsfordonuts.py:182-199 | every player's score moves by `MakiAward` of the maki totals; hands unchanged |
| Scoring.AwardAndMask | app/environments/gonutsfordonuts/gonutsfordonuts/envs/gonutsfordonuts.py:186-191 | each leader gains the delta and has their count masked; nothing else changes |
| Scoring.MakiAwarded | app/environments/gonutsfordonuts/gonutsfordonuts/envs/gonutsfordonuts.py:186-199 | the first-place and second-place passes add up to `MakiAward` |
| Scoring.MakiTieNoSecond | app/environments/gonutsfordonuts/gonutsfordonuts/envs/gonutsfordonuts.py:193-199 | a tie for first splits the 6 points (at most 3 each) and nobody behind gets anything |
| Scoring.MakiSoleLeader | app/environments/gonutsfordonuts/gonutsfordonuts/envs/gonutsfordonuts.py:182-199 | a sole leader gains 6; of the others exactly those with the most remaining maki share 3 |
| Scoring.MakiSoleRunnerUp | app/environments/gonutsfordonuts/gonutsfordonuts/envs/gonutsfordonuts.py:182-199 | a sole leader and a sole runner-up get 6 and 3, everybody else 0 |
| Scoring.NoNigiriNoPoints | app/environments/gonutsfordonuts/gonutsfordonuts/envs/gonutsfordonuts.py:213-217 | `NigiriPoints`, the nigiri points of a tableau, is 0 when the tableau holds no nigiri card |
| Scoring.NoMakiNoPoints | app/environments/gonutsfordonuts/gonutsfordonuts/envs/gonutsfordonuts.py:211-212 | `MakiPoints`, the maki total of a tableau, is 0 when the tableau holds no maki card |
| Scoring.DumplingPoints | app/environments/gonutsfordonuts/gonutsfordonuts/envs/gonutsfordonuts.py:221-221 | the dumpling points lie between 0 and 15 |
| Scoring.RoundPoints | app/environments/gonutsfordonuts/gonutsfordonuts/envs/gonutsfordonuts.py:206-221 | a tableau's round points are at least its nigiri points, and equal them when there is no complete tempura pair, no complete sashimi triple and no dumpling |
| Scoring.ScoreTableau | app/environments/gonutsfordonuts/gonutsfordonuts/envs/gonutsfordonuts.py:205-219 | one player's score moves by `RoundPoints` of their tableau, and the maki total is returned; the hand is unchanged |
| Scoring.ScoreRound | app/environments/gonutsfordonuts/gonutsfordonuts/envs/gonutsfordonuts.py:202-221 | every player's score moves by their own `RoundPoints` plus their `MakiAward` among all maki totals; hands unchanged |
| Scoring.DumplingScale | app/environments/gonutsfordonuts/gonutsfordonuts/envs/gonutsfordonuts.py:219-219 | dumplings score 0, 1, 3, 6, 10 and from five on 15 |
| Scoring.TableauPermutation | app/environments/gonutsfordonuts/gonutsfordonuts/envs/gonutsfordonuts.py:206-221 | any two orderings of the same cards (equal multisets) score the same round points and have the same maki total |
| Scoring.PermutationTallies | app/environments/gonutsfordonuts/gonutsfordonuts/envs/gonutsfordonuts.py:207-217 | each tally the loop keeps (nigiri points, maki total, the count of every card type) depends only on the multiset of cards |
| Scoring.DonutsScoreNothing | app/environments/gonutsfordonuts/gonutsfordonuts/envs/gonutsfordonuts.py:206-219 | a tableau of donut cards only scores 0, has no maki and no pudding |
| Turn.Rotated | app/environments/gonutsfordonuts/gonutsfordonuts/envs/gonutsfordonuts.py:264-273 | the seating after `switch_hands` has as many seats as before and neither loses nor duplicates a hand: the same multiset of hands |
| Turn.RotatedSeats | app/environments/gonutsfordonuts/gonutsfordonuts/envs/gonutsfordonuts.py:264-273 | after passing, seat 0 holds the last seat's hand and seat `i` the hand of seat `i - 1` |
| Turn.RotatedTimesSplit | app/environments/gonutsfordonuts/gonutsfordonuts/envs/gonutsfordonuts.py:264-273 | after `k` passes the last `k` hands sit, in order, in the first `k` seats |
| Turn.FullCircle | app/environments/gonutsfordonuts/gonutsfordonuts/envs/gonutsfordonuts.py:264-273 | after one pass per seat every hand is back with its first holder |
| Turn.SwitchHands | app/environments/gonutsfordonuts/gonutsfordonuts/envs/gonutsfordonuts.py:264-273 | seat 0 gets the last seat's old hand, every other seat its left neighbour's; scores unchanged |
| Turn.PassAlong | app/environments/gonutsfordonuts/gonutsfordonuts/envs/gonutsfordonuts.py:267-269 | the loop of `switch_hands`: every seat but seat 0 ends with its left neighbour's old hand; scores unchanged |
| Turn.RotatedFrom | app/environments/gonutsfordonuts/gonutsfordonuts/envs/gonutsfordonuts.py:264-273 | the seating `switch_hands` leaves is `Rotated` of the old one |
| Turn.PassHand | app/environments/gonutsfordonuts/gonutsfordonuts/envs/gonutsfordonuts.py:270-270 | seat `i` takes the hand of seat `i - 1`; nothing else changes |
| Turn.SetHand | app/environments/gonutsfordonuts/gonutsfordonuts/envs/gonutsfordonuts.py:273-273 | seat `i` is given the saved hand; nothing else changes |
| Turn.RefillSlot | app/environments/gonutsfordonuts/gonutsfordonuts/envs/gonutsfordonuts.py:337-345 | one pass of the loop body: the position is no longer flagged afterwards, and the pile loses a card exactly when it was flagged |
| Turn.Refill | app/environments/gonutsfordonuts/gonutsfordonuts/envs/gonutsfordonuts.py:336-346 | the loop over every position without stopping: as many positions as before, and the pile loses one card per flagged position |
| Turn.RefillUpTo | app/environments/gonutsfordonuts/gonutsfordonuts/envs/gonutsfordonuts.py:336-346 | the loop over the first `k` positions keeps the number of positions, leaves the later ones alone and draws one card per position that needed it |
| Turn.RefillUpToDeck | app/environments/gonutsfordonuts/gonutsfordonuts/envs/gonutsfordonuts.py:340-345 | the pile loses exactly its top card per refilled position |
| Turn.RefillUpToDiscard | app/environments/gonutsfordonuts/gonutsfordonuts/envs/gonutsfordonuts.py:342-344 | the discard pile gains the contested, untaken cards in position order |
| Turn.RefillUpToStep | app/environments/gonutsfordonuts/gonutsfordonuts/envs/gonutsfordonuts.py:336-346 | one more pass fills the next position with its own card or the card drawn for it |
| Turn.RefillUpToSlots | app/environments/gonutsfordonuts/gonutsfordonuts/envs/gonutsfordonuts.py:336-346 | each position the loop has passed holds its own card if untouched, otherwise the card drawn for it |
| Turn.RefillSpec | app/environments/gonutsfordonuts/gonutsfordonuts/envs/gonutsfordonuts.py:336-346 | after the refill nothing is flagged; untouched positions keep their card; the `j`-th flagged position gets the `j`-th card from the top; the pile loses exactly those cards; the discard pile gains the contested cards in position order |
| Turn.RefillSlotConserves | app/environments/gonutsfordonuts/gonutsfordonuts/envs/gonutsfordonuts.py:337-346 | one pass of the loop neither makes nor loses a card: only a taken card leaves the table |
| Turn.RefillUpToStepConserves | app/environments/gonutsfordonuts/gonutsfordonuts/envs/gonutsfordonuts.py:337-346 | one more pass loses from the table just the card taken at that position |
| Turn.RefillUpToConserves | app/environments/gonutsfordonuts/gonutsfordonuts/envs/gonutsfordonuts.py:336-346 | over the first `k` positions the table loses exactly the cards players took there |
| Turn.RefillConserves | app/environments/gonutsfordonuts/gonutsfordonuts/envs/gonutsfordonuts.py:336-346 | slots, pile and discard after the refill, plus the cards taken, are the cards before it |
| Turn.RefillAsWritten | app/environments/gonutsfordonuts/gonutsfordonuts/envs/gonutsfordonuts.py:336-346 | the loop as written: as many positions as before, and the pile loses one card if any position was flagged, none otherwise |
| Turn.FirstFlagged | app/environments/gonutsfordonuts/gonutsfordonuts/envs/gonutsfordonuts.py:336-346 | the position where the loop as written stops is the first flagged one, or none when no position is flagged |
| Turn.AsWrittenLeavesFlag | app/environments/gonutsfordonuts/gonutsfordonuts/envs/gonutsfordonuts.py:336-346 | with two or more positions to refill, the loop as written leaves one of them flagged |
| Turn.AsWrittenAgreesOnOne | app/environments/gonutsfordonuts/gonutsfordonuts/envs/gonutsfordonuts.py:336-346 | with at most one position to refill, the loop as written does the whole refill |
| Turn.NineCardsBuilt | app/test/gonutsfordonuts/testgonutsfordonuts.py:6-20 | the nine cards of the fixture are the stack `create` builds from it |
| Turn.PartialPicks | app/test/gonutsfordonuts/testgonutsfordonuts.py:107-116 | the partial-picks table has three positions to refill and four cards in the pile |
| Turn.PartialPicksRefill | app/test/gonutsfordonuts/testgonutsfordonuts.py:116-132 | refilled, positions 0 to 3 hold cards 3 (MB), 7 (DH), 2 (P) and 1 (POW); card 0 stays in the pile; card 8 is discarded |
| Turn.RefillPattern | app/environments/gonutsfordonuts/gonutsfordonuts/envs/gonutsfordonuts.py:336-346 | with the first of five positions contested and the third and fourth taken, the refill draws three cards into those positions in order and discards the contested card |
| Turn.PartialPicksAsWritten | app/environments/gonutsfordonuts/gonutsfordonuts/envs/gonutsfordonuts.py:336-346 | the loop as written refills only position 0, leaving the taken cards 6 and 5 in positions 2 and 3 |
| Turn.Replace | app/environments/gonutsfordonuts/gonutsfordonuts/envs/gonutsfordonuts.py:340-340 | position `i` becomes a new slot holding the pile's top card, unflagged; the pile loses that card |
| Turn.RefillPosition | app/environments/gonutsfordonuts/gonutsfordonuts/envs/gonutsfordonuts.py:337-346 | one pass of the loop body changes the table as `RefillSlot` says |
| Turn.ResetTurn | app/environments/gonutsfordonuts/gonutsfordonuts/envs/gonutsfordonuts.py:336-347 | with the loop running over every position, the table becomes `Refill` of the old table |
| Turn.ResetTurnAsWritten | app/environments/gonutsfordonuts/gonutsfordonuts/envs/gonutsfordonuts.py:336-347 | as written, the table becomes `RefillAsWritten` of the old one: only the first flagged position is refilled |

## Left out

- `observation`, `legal_actions`, `step`, `render`, `reset`, `reset_round`, `__init__` and the `current_player` property: observation vectors, gym plumbing and setup. Several of them use undefined names (`hand`, `first_card`, `remaining_donuts`), call `Deck` with the wrong arity, or call `math.min`, which does not exist.
- `play_card`: it looks up an `info['name']` key that the contents table never sets.
- `pickup_chopsticks`: it is outside the modelled core, and it picks a `'chopsticks'` card that no card class of `classes.py` declares.
- `Deck.shuffle`: it depends on a random source.
- The `size` methods appear as `Size` functions without a contract of their own.
- The first-turn branch of `reset_turn` (lines 330-333): it indexes an empty list.
- `GoNutsGame`, which the tests drive, is not part of this model. The test expectations used here are stated on the deck and refill functions directly.
- Logging calls are output only.
- The card classes' `colour` and `symbol` attributes appear as functions of `Kind`.
- The scoring code reads Sushi Go card types (tempura, sashimi, dumpling, maki, nigiri, pudding) that no card class declares. They are extra constructors of `Kind`.
- Cards.StandardContents: `math.min(self.n_players - 1, 4)` is taken as the minimum it evidently means. A negative count builds no copies, as `range` of a negative number is empty.
- Containers.Deck.Create: `create` also writes `order` and `id` into the `info` dictionaries of the contents table it reads. That mutation of the caller's table is not modelled; the model passes the values to the card directly.
- Containers.Deck.Draw: popping from an empty list raises `IndexError` in the source. The model instead requires `n <= size`.
- Containers.Deck.DrawOne: requires a non-empty pile, where `pop()` raises `IndexError`.
- Containers.Discard.Draw: requires `n <= size`, where popping the empty pile raises `IndexError`.
- Containers.Discard.DrawOne: requires a non-empty pile, where `pop()` raises `IndexError`.
- Containers.Deck.Reorder: requires every requested index to be in range, where `self.cards[i]` raises `IndexError` (classes.py line 195).
- Ranking.GetLimits: requires a non-empty list, where `np.nanmax` / `np.nanmin` raise `ValueError` on an empty array.
- Scoring.ScoreGame: requires at least one score, where `max([])` raises `ValueError`.
- Scoring.FindExtremes: requires at least one score, for the same `max([])`.
- Scoring.ScorePuddings: requires at least one player, where `get_limits` of the empty pudding list raises.
- Scoring.AwardPuddings: requires at least one player, for the same reason.
- Scoring.ScoreMaki: requires at least one player, where `get_limits` of the empty maki list raises.
- Scoring.ScoreRound: requires at least one player, because it ends in `score_maki`.
- Containers.Deck.Add: the source loops over `cards` while appending to `self.cards`, which never ends when both are the same list; the model takes the added cards as a value, so that aliasing case is not modelled. The same holds for Containers.Deck.AddToBaseDeck, Containers.Discard.Add, Containers.Hand.Add and Containers.Position.Add.
- Turn.Replace: `DonutDeckPosition(self.deck.draw(1))` stores the one-element list that `draw(1)` returns. The model stores its card, which is what the tests read through `.card.id`.
- Turn.ResetTurn: requires at least as many cards in the pile as positions to refill, because the source pops from the pile unconditionally. There is no end-of-game outcome here.
- Scoring.ScoreGame: rewards are exact reals; floating-point rounding of `1.0 / len(...)` is not modelled. Scores are passed as a sequence rather than read from `self.players`.
- Scoring.ScoreMaki: the source masks the caller's `maki` list in place. The model masks a local copy, because the one caller (`score_round`) never reads the list again.
- Ranking.GetLimits: the numpy conversion to `float` and NaN are modelled as `Option<int>`. The source's all-NaN case, where `nanmax` warns and returns NaN, gives the empty list.
- Scoring.Award, Scoring.ScoreRound, Scoring.ScorePuddings, Scoring.ScoreMaki, Turn.SwitchHands and Turn.PassAlong require the players to be distinct objects. The source's player list never holds the same object twice.
- Turn.SwitchHands: states the new seating seat by seat. That this is `Rotated` of the old seating is the separate lemma `RotatedFrom`.

## Findings

| source | as written | input that shows it | evidently intended | confidence | as-written member | corrected member |
|---|---|---|---|---|---|---|
| app/environments/gonutsfordonuts/gonutsfordonuts/envs/gonutsfordonuts.py:336-346 | both branches of the refill loop end in `break`, so only the first taken or contested position is refilled per call | the partial-picks table: position 0 contested (card 8), positions 2 and 3 taken (cards 6 and 5). Positions 2 and 3 keep the taken cards 6 and 5 | every taken or contested position is refilled in one call, as app/test/gonutsfordonuts/testgonutsfordonuts.py:118-132 expects | high, not executed | Turn.ResetTurnAsWritten, with Turn.PartialPicksAsWritten and Turn.AsWrittenLeavesFlag | Turn.ResetTurn, with Turn.RefillSpec and Turn.PartialPicksRefill |
