# Two-player UNO with DMC training, modelled in Dafny

This project models the core of a two-player UNO learning environment
built on rlcard:

- the UNO round: its state machine, legal actions, card effects, hand
  scoring and payoffs, plus the judge that picks the winner;
- the UNO card tables, the 108-card deck, and the string and one-hot
  encoders the agents see;
- the environment loop `Env.run`, which plays one game between agents and
  records each player's alternating state/action trajectory;
- the actor side of Deep Monte-Carlo (DMC) training: `act` turns finished
  trajectories into rows of six staging lists and commits windows of `T`
  rows to shared buffer slots; `get_batch` hands slots to the learner and
  returns them to the free queue;
- the rule-based UNO agent: its list filters, its colour count and its
  choice of action.

Files, one module each:

| file | module | models |
|---|---|---|
| wrappers.dfy | Wrappers | the `Option` type used for Python's exceptions and `None` |
| uno_cards.dfy | UnoCards | colours, traits, cards and their strings, `init_deck`, `cards2list`, `hand2dict` |
| planes.dfy | Planes | numpy zeros, flatten, one-hot vectors and Python indexing |
| uno_encode.dfy | UnoEncode | `encode_target`, `encode_action`, `encode_action_sequence_8/_12`, `get_one_hot_array` |
| hand_encode.dfy | HandEncode | `encode_hand` and `encode_other_cards` (the cell-by-cell plane loops) |
| uno_judger.dfy | UnoJudger | `UnoJudger.judge_winner` |
| uno_round.dfy | UnoRound | `UnoRound`: the state as a value, each operation as a function, and the class `Round` whose methods update its fields |
| round_props.dfy | RoundProps | lemmas about the round: shape, card conservation, card effects, legal actions, payoffs, `get_state` |
| env.dfy | EnvModel | `Env` over an abstract game: `reset`, `step`, `step_back`, `run`, `get_action_feature` |
| dmc_buffers.dfy | DmcBuffers | `act` (staging and window commit) and `get_batch`; queues are sequences, buffers are arrays |
| uno_rule_agent.dfy | UnoRuleAgent | `filter_wild`, `filter_draw`, `filter_color`, `count_colors`, `step` |

Conventions:

- A Python exception is an `Option` that is `None`, or a `raised` flag next
  to the resulting state.
- A Python dict is the list of its `(key, value)` items in insertion order.
- In the round, the dealer's deck and the players' hands are fields of the
  round state. The deck is a sequence whose last element is the top card
  (`deck.pop()`).
- Payoffs, returns and targets, which are floats in the source, are
  integers. The game's payoffs are integers anyway.

## Model

| member | source | states |
|---|---|---|
| UnoCards.ColorIndex | rlcard/games/uno/utils.py:19 | COLOR_MAP gives each colour an index below 4, in the order r, g, b, y |
| UnoCards.ParseCardStr | rlcard/games/uno/utils.py:19-24 | parsing a card's string through COLOR_MAP and TRAIT_MAP gives the card back |
| UnoCards.StrInjective | rlcard/games/uno/utils.py:19-28 | two cards have the same string exactly when they are the same card |
| UnoCards.SplitAtFirstSeparator | rlcard/games/uno/utils.py:205 | `split('-')` cuts at the first separator |
| UnoCards.InitDeckContents | rlcard/games/uno/utils.py:31-52 | the deck holds 108 cards: per colour one '0', two of each of 1-9, skip, reverse and draw_2, and one wild and one wild_draw_4 |
| UnoCards.ColorDeckCount | rlcard/games/uno/utils.py:36-51 | the cards one colour's pass of the loop adds, with their number of copies |
| UnoCards.ColorDeckLength | rlcard/games/uno/utils.py:36-51 | each colour contributes 27 cards |
| UnoCards.NumberCardsCount | rlcard/games/uno/utils.py:39-42 | the number-card loop adds one '0' and two of every other number |
| UnoCards.NumberCardsLength | rlcard/games/uno/utils.py:39-42 | the number-card loop from `num` on adds two cards per number, one fewer when it starts at '0': 19 cards in all |
| UnoCards.ActionCardsLength | rlcard/games/uno/utils.py:45-47 | the action-card loop adds two cards per trait it covers: 6 cards in all |
| UnoCards.ActionCardsCount | rlcard/games/uno/utils.py:45-47 | the action-card loop adds two of each of skip, reverse and draw_2 |
| UnoCards.WildCardsCount | rlcard/games/uno/utils.py:50-51 | the wild loop adds one wild and one wild_draw_4 of the colour |
| UnoCards.Cards2List | rlcard/games/uno/utils.py:55-67 | cards2list keeps the length, and entry i is the string of card i |
| UnoCards.ParseAllCards2List | rlcard/games/uno/utils.py:55-67 | parsing back every string of cards2list gives the cards, in order |
| UnoCards.Hand2DictSpec | rlcard/games/uno/utils.py:69-84 | keys are distinct and are exactly the hand's strings; each count is the string's number of occurrences; counts add up to the hand size |
| UnoCards.Hand2DictItems | rlcard/games/uno/utils.py:78-84 | every item's count is positive and equals its key's occurrences in the hand |
| UnoCards.BumpSpec | rlcard/games/uno/utils.py:80-83 | one loop step adds a new key with count 1 or raises a known key's count by one, and keeps keys distinct |
| UnoCards.KeysBump | rlcard/games/uno/utils.py:80-83 | one loop step keeps the order of the existing keys and appends a new key at the end |
| Planes.PyIndex | rlcard/games/uno/utils.py:251 | a Python index is valid exactly in [-n, n); a negative index counts from the end |
| Planes.OneHotAt | rlcard/envs/env.py:237-239 | a zero vector with a 1 written at a Python index exists exactly for a valid index, and is one-hot there |
| Planes.FlattenIndex | rlcard/games/uno/utils.py:209 | `flatten` puts cell (i, j) of a rectangular plane at i * cols + j |
| Planes.FlattenOneHot | rlcard/games/uno/utils.py:209 | a plane with a single 1 flattens to a vector with a single 1 at the cell's flat position |
| Planes.OneHotPlane | rlcard/games/uno/utils.py:204-209 | setting one cell of a zero plane and flattening gives a one-hot vector |
| Planes.OneHotDistinct | rlcard/games/uno/utils.py:204-230 | two one-hot vectors of one length are equal exactly when their hot positions are |
| UnoEncode.CardIndexInjective | rlcard/games/uno/utils.py:206-208 | `colour*15 + trait` is below 60 and different for different cards |
| UnoEncode.EncodeTarget | rlcard/games/uno/utils.py:194-209 | encode_target is defined exactly for card strings and gives 60 entries with a single 1 at `colour*15 + trait` |
| UnoEncode.EncodeTargetCard | rlcard/games/uno/utils.py:194-209 | every card encodes, and different cards encode differently |
| UnoEncode.EncodeAction | rlcard/games/uno/utils.py:211-230 | 63 entries; '' gives zeros; draw, query and pass are one-hot at 60, 61 and 62; a card is one-hot at `colour*15 + trait`; any other string raises |
| UnoEncode.EncodeActionInjective | rlcard/games/uno/utils.py:211-230 | different actions encode to different vectors |
| UnoEncode.GetOneHotArray | rlcard/games/uno/utils.py:246-252 | a single 1 at `min(n, max) - 1` for n >= 1; n = 0 wraps to the last slot; too negative an n raises |
| UnoEncode.EncodedActionsAt | rlcard/games/uno/utils.py:233-235 | row k of the action plane is the encoding of action k |
| UnoEncode.FillActionPlane | rlcard/games/uno/utils.py:233-235 | the loop filling the action plane computes the flattened encodings of all actions |
| UnoEncode.EncodeActionSequence8 | rlcard/games/uno/utils.py:232-237 | defined exactly for 8 encodable actions; the 4x126 result holds action 2i + j/63 at column j of row i |
| UnoEncode.EncodeActionSequence12 | rlcard/games/uno/utils.py:239-244 | defined exactly for 12 encodable actions; the 3x252 result holds action 4i + j/63 at column j of row i |
| HandEncode.FillHandPlane | rlcard/games/uno/utils.py:136-145 | the loop succeeds exactly when every entry reads as a card (split on '-', known colour and trait) and no non-wild entry's count falls outside 1..2; the plane has a 1 exactly at the cells the entries mark; the counters count wild and wild_draw_4 entries |
| HandEncode.EncodeHand | rlcard/games/uno/utils.py:118-153 | encode_hand computes the 110 entries of its specification (52 once-held cells, 48 twice-held cells, two 5-entry wild counters) |
| HandEncode.FillOtherPlane | rlcard/games/uno/utils.py:165-179 | the loop succeeds exactly when every entry reads as a card (split on '-', known colour and trait) and no non-wild entry's count is above 2; row 0 marks the kinds that are absent, rows 1-2 the kinds held once or twice |
| HandEncode.EncodeOtherCards | rlcard/games/uno/utils.py:155-192 | encode_other_cards computes the 162 entries of its specification |
| HandEncode.EncodeHandWild | rlcard/games/uno/utils.py:141-152 | the last two 5-blocks are one-hot at the numbers of distinct wild and wild_draw_4 strings; the encoding fails exactly on an entry that does not read as a card, a non-wild count outside the plane, or five or more distinct strings |
| HandEncode.EncodeOtherCardsWild | rlcard/games/uno/utils.py:171-190 | the same for encode_other_cards, whose blocks sit at 152 and 157 |
| HandEncode.WildCounters | rlcard/games/uno/utils.py:141-144 | the wild counter counts the distinct strings with that trait |
| HandEncode.EncodeHandCells | rlcard/games/uno/utils.py:136-153 | for a hand of cards, the once-held cell is 1 exactly for one copy, the twice-held cell exactly for two |
| HandEncode.EncodeOtherCardsCells | rlcard/games/uno/utils.py:165-192 | for a hand of cards, row 0 is 1 exactly for no copy, row 1 for one copy, row 2 for two copies |
| HandEncode.SeenByKey | rlcard/games/uno/utils.py:165-170 | a kind of card is seen in hand2dict exactly when the hand holds its string |
| HandEncode.CanonicalDefined | rlcard/games/uno/utils.py:145 | both encoders are defined for a hand of cards exactly when no non-wild card occurs more than twice |
| HandEncode.NoFaultIffFits | rlcard/games/uno/utils.py:145 | no hand2dict entry is out of the plane's range exactly when each non-wild card occurs at most twice |
| HandEncode.CanonicalFaceKeys | rlcard/games/uno/utils.py:141-144 | a hand of cards has at most four distinct strings of each wild trait, so the counters fit |
| UnoJudger.JudgeWinner | rlcard/games/uno/judger.py:5-19 | [0] exactly when payoffs[0] > payoffs[1], [1] exactly when less, None exactly when equal |
| UnoJudger.JudgeWinnerSymmetric | rlcard/games/uno/judger.py:14-19 | entries beyond index 1 are ignored; swapping the two payoffs swaps the winner |
| UnoRound.NextPlayer | rlcard/games/uno/round.py:243-244 | the next player is a player index: one step in the direction, 0 after the last player and the last player before 0 |
| UnoRound.NextPlayerMod | rlcard/games/uno/round.py:243-244 | that step equals Python's `(current + direction) % num_players` for every player index and direction ±1 |
| UnoRound.Popped | rlcard/games/uno/round.py:238 | cards dealt by popping come off the end of the deck, last first |
| UnoRound.FindCard | rlcard/games/uno/round.py:81-91 | the index removed is the first card that matches (a wild by trait alone); none exactly when nothing matches |
| UnoRound.FindCardFirst | rlcard/games/uno/round.py:81-91 | the search returns the first matching index |
| UnoRound.Scores | rlcard/games/uno/round.py:187-190 | one score per hand, each the count_hand_score of that hand |
| UnoRound.Round.constructor | rlcard/games/uno/round.py:9-28 | a fresh round: direction 1, no target, empty pile, zero payoffs, the given first player |
| UnoRound.Round.FlipTopCard | rlcard/games/uno/round.py:30-42 | the top card (a wild takes the given colour) becomes the target and goes on the pile |
| UnoRound.Round.DealCards | rlcard/games/uno/round.py:267 | the loop moves k cards from the end of the deck to player p's hand |
| UnoRound.Round.FindRemoveIndex | rlcard/games/uno/round.py:81-91 | the search loops compute the first matching index |
| UnoRound.Round.IsDrawAvailable | rlcard/games/uno/round.py:218-227 | the turn stays when the drawn card shares colour or trait with the target or is wild, and passes otherwise |
| UnoRound.Round.PerformDrawAction | rlcard/games/uno/round.py:229-241 | an empty deck ends the round; otherwise the top card moves to the current hand and is judged |
| UnoRound.Round.PerformNonNumberAction | rlcard/games/uno/round.py:246-281 | reverse, skip, draw_2 and wild_draw_4 as the non-number specification, keeping the round's shape |
| UnoRound.Round.ProceedRound | rlcard/games/uno/round.py:61-111 | one move (draw, pass or a card) changes the state as the move specification says and keeps its shape |
| UnoRound.Removed | rlcard/games/uno/round.py:94-98 | removing a card from the current hand keeps the round's shape |
| UnoRound.Round.RemoveAt | rlcard/games/uno/round.py:94-98 | `player.hand.pop(i)` returns card i; the hand loses it, the pile gains it, and an emptied hand ends the round with the current player as winner |
| UnoRound.Round.ApplyEffect | rlcard/games/uno/round.py:100-111 | a number card passes the turn and becomes the target; a wild takes the action's colour; other cards go through the non-number action |
| UnoRound.Round.PlayCardAction | rlcard/games/uno/round.py:76-111 | playing a card changes the state as the card-play specification says |
| UnoRound.Round.PerformTopCard | rlcard/games/uno/round.py:44-59 | a skip, reverse or draw_2 first card takes effect before the first move |
| UnoRound.Round.GetPayoffs | rlcard/games/uno/round.py:183-197 | get_payoffs scores the hands, judges a missing winner, pays the winner; None where the loop over a None winner raises |
| UnoRound.Round.ScoreHands | rlcard/games/uno/round.py:186-190 | the loop stores each hand's score and returns minus their sum |
| UnoRound.Round.SetPayoff | rlcard/games/uno/round.py:189-190 | one step of the scoring loop sets one player's payoff and nothing else |
| UnoRound.Round.AddWinnerPayoffs | rlcard/games/uno/round.py:195-196 | each winner's payoff grows by the winner bonus |
| RoundProps.ProceedValid | rlcard/games/uno/round.py:61-111 | every move keeps the round's shape (player count, current player in range, direction ±1, one hand and payoff per player) |
| RoundProps.DealValid | rlcard/games/uno/round.py:267 | dealing keeps the round's shape |
| RoundProps.NonNumberValid | rlcard/games/uno/round.py:246-281 | the non-number effects keep the round's shape |
| RoundProps.ProceedConserves | rlcard/games/uno/round.py:61-111 | no move creates or destroys a card: deck, hands and pile together hold the same multiset |
| RoundProps.PlayConserves | rlcard/games/uno/round.py:76-111 | playing a card conserves the cards |
| RoundProps.DrawConserves | rlcard/games/uno/round.py:229-241 | drawing conserves the cards |
| RoundProps.DealConserves | rlcard/games/uno/round.py:267 | dealing conserves the cards |
| RoundProps.NonNumberConserves | rlcard/games/uno/round.py:246-281 | the non-number effects conserve the cards |
| RoundProps.PoppedSplit | rlcard/games/uno/round.py:238 | the popped cards and the rest of the deck make up the deck |
| RoundProps.BagUpdate | rlcard/games/uno/round.py:87-98 | replacing one hand changes the cards in hands by exactly that hand |
| RoundProps.RemovalConserves | rlcard/games/uno/round.py:92-98 | moving the removed card to the pile conserves the cards |
| RoundProps.RemoveAt | rlcard/games/uno/round.py:92 | `hand.pop(i)` leaves the rest of the hand |
| RoundProps.TwoPlayerNext | rlcard/games/uno/round.py:243-244 | with two players the turn always goes to the other player, and two steps bring it back |
| RoundProps.PlayEffect | rlcard/games/uno/round.py:84-98 | Python raises exactly when no card matches; otherwise the first matching card leaves the hand for the pile, and an emptied hand ends the round with the current player as winner |
| RoundProps.PlayEffectAt | rlcard/games/uno/round.py:92-98 | the same for the index the search found |
| RoundProps.EffectKeeps | rlcard/games/uno/round.py:100-111 | a card's effect keeps the player count, the action, the pile and the winner, keeps a finished round finished, and the current hand when there are two players or more |
| RoundProps.EffectValid | rlcard/games/uno/round.py:100-111 | a card's effect keeps the round's shape |
| RoundProps.NumberCardEffect | rlcard/games/uno/round.py:101-103 | a number card advances the turn one step and becomes the target |
| RoundProps.NonNumberKeeps | rlcard/games/uno/round.py:246-281 | the non-number effects leave the winner, the pile and the current hand alone |
| RoundProps.TwoPlayerSkipAndDraw | rlcard/games/uno/round.py:254-281 | with two players, skip, draw_2 and wild_draw_4 give the same player the next move; draw_2 and wild_draw_4 move exactly 2 or 4 cards from the deck's end to the other player |
| RoundProps.TwoPlayerDeal | rlcard/games/uno/round.py:267 | dealing to the other player changes only that hand and the deck |
| RoundProps.ShortDeckEndsRound | rlcard/games/uno/round.py:259-274 | with fewer than 2 or 4 cards left, draw_2 or wild_draw_4 ends the round and changes nothing else |
| RoundProps.ReverseEffect | rlcard/games/uno/round.py:252-253 | reverse negates the direction before the turn moves, so with two players the other player moves next |
| RoundProps.DrawEffect | rlcard/games/uno/round.py:218-241 | an empty deck ends the round and changes no hand; otherwise exactly the top card moves to the current hand, and the turn passes unless it matches the target or is wild |
| RoundProps.ScanOnlyPlays | rlcard/games/uno/round.py:131-157 | the hand scan lists card plays only |
| RoundProps.ScanNonWild | rlcard/games/uno/round.py:131-157 | a non-wild card is listed exactly when the hand holds it and it follows the target |
| RoundProps.ScanWildCount | rlcard/games/uno/round.py:133-156 | each colour variant of a wild trait is listed once when the hand holds that trait, never otherwise |
| RoundProps.ScanPlayable | rlcard/games/uno/round.py:131-157 | every listed card play matches a card in the hand |
| RoundProps.LegalActionsScan | rlcard/games/uno/round.py:130-159 | the list ends with the only 'draw', has no 'pass', each wild group at most once, and a non-wild card exactly when it follows the target |
| RoundProps.LegalActionsAfterDraw | rlcard/games/uno/round.py:122-129 | right after a draw: the drawn card (four colours for a wild) then 'pass' |
| RoundProps.DrawThenLegal | rlcard/games/uno/round.py:122-129 | a draw that keeps the turn leaves the drawn card as the only card choice |
| RoundProps.LegalMovesProceed | rlcard/games/uno/round.py:61-161 | every listed move can be made without raising |
| RoundProps.HandScoreAppend | rlcard/games/uno/round.py:199-209 | count_hand_score adds up over the cards |
| RoundProps.HandScoreBounds | rlcard/games/uno/round.py:199-209 | the score is at most 0, at least -50 per card, and 0 exactly when every card is a '0' |
| RoundProps.PointsAppend | rlcard/games/uno/round.py:201-208 | the count adds up over the cards |
| RoundProps.SumUpdate | rlcard/games/uno/round.py:195-196 | raising one payoff raises the sum by as much |
| RoundProps.PayoffsOfOne | rlcard/games/uno/round.py:183-197 | with a single winner w, the payoffs are the hand scores with w's raised by minus their sum |
| RoundProps.AddToOne | rlcard/games/uno/round.py:195-196 | the winners' loop over one winner raises exactly that winner's payoff |
| RoundProps.PayoffsZeroSum | rlcard/games/uno/round.py:183-197 | with a single winner the payoffs sum to zero |
| RoundProps.PayoffsIdempotent | rlcard/games/uno/round.py:183-197 | get_payoffs a second time on the same hands gives the same state and result |
| RoundProps.PayoffsJudged | rlcard/games/uno/round.py:192-197 | with no winner, the higher of the first two scores wins; a tie leaves the winner None and the loop raises |
| RoundProps.Cards2ListAppend | rlcard/games/uno/round.py:172 | cards2list of a concatenation is the concatenation |
| RoundProps.GetStateTwoPlayers | rlcard/games/uno/round.py:163-181 | the view exists exactly with a target and legal actions; its strings read back as the hand, the deck then the opponent's hand, the pile and the target; it counts both hands |
| RoundProps.TwoPlayerViewCoversCards | rlcard/games/uno/round.py:170-173 | own hand, other cards and pile together are all the round's cards |
| EnvModel.TurnBalanced | rlcard/envs/env.py:141-160 | one turn of run keeps every trajectory alternating with one state and one action per recorded action |
| EnvModel.FinalAlternating | rlcard/envs/env.py:162-164 | a trajectory ending with an action stays alternating when the final state is added |
| EnvModel.Env.constructor | rlcard/envs/env.py:9-50 | a new environment starts with timestep 0 and no recorded actions |
| EnvModel.Env.Reset | rlcard/envs/env.py:52-63 | reset starts the game and empties the action recorder |
| EnvModel.Env.Step | rlcard/envs/env.py:65-86 | step decodes unless raw, adds exactly 1 to timestep, records (player, action), moves the game |
| EnvModel.Env.StepBack | rlcard/envs/env.py:88-108 | step_back raises when switched off, returns False when the game cannot step back, otherwise gives the earlier state |
| EnvModel.Env.ActionFeature | rlcard/envs/env.py:230-239 | a vector of num_actions entries with a single 1 at the action |
| EnvModel.Env.AppendFinal | rlcard/envs/env.py:162-164 | every player's trajectory gets the state that player sees at the end |
| EnvModel.Env.Run | rlcard/envs/env.py:120-172 | one trajectory per player, each ending with the final state; each alternates and holds 2k+1 entries for k actions; scores when training, payoffs otherwise |
| DmcBuffers.Rows | rlcard/agents/dmc_agent/utils.py:100 | `len(traj[:-1]) // 2` is k for a trajectory of 2k+1 or 2k+2 entries, and 0 for at most two |
| DmcBuffers.StageEpisode | rlcard/agents/dmc_agent/utils.py:100-115 | the staging code, with its loop over the trajectory, computes the staging specification |
| DmcBuffers.ExtendAligned | rlcard/agents/dmc_agent/utils.py:100-115 | after a game all six lists of a player have `size[p]` rows, grown by the player's decisions |
| DmcBuffers.ExtendKeeps | rlcard/agents/dmc_agent/utils.py:100-115 | the rows a player had before the game are kept, in order, in all six lists |
| DmcBuffers.ExtendFlags | rlcard/agents/dmc_agent/utils.py:101-107 | on the new rows: done only on the last, the return 0 except the payoff on the last, the target the payoff on all |
| DmcBuffers.ExtendObs | rlcard/agents/dmc_agent/utils.py:109-115 | the new rows hold the states the player acted in and the one-hot features of the actions taken, in order; the one-hot sits at the position numpy gives the action id, so a negative id counts from the end |
| DmcBuffers.ExtendNoDecision | rlcard/agents/dmc_agent/utils.py:100-102 | a trajectory of at most two entries, such as the `[s0, final]` of a game over at reset, is staged whatever its entries are and gives no rows |
| DmcBuffers.StageableAligned | rlcard/agents/dmc_agent/utils.py:100-115 | with aligned lists, staging reads the trajectory exactly when it has decisions, so it demands well-formed entries exactly then |
| DmcBuffers.RowsOfRun | rlcard/agents/dmc_agent/utils.py:100 | a trajectory from run gives one row per action of the player |
| DmcBuffers.DropKeeps | rlcard/agents/dmc_agent/utils.py:129-135 | cutting a window drops exactly the first T rows of every list, keeps the rest in order, and lowers size by T |
| DmcBuffers.SettleAligned | rlcard/agents/dmc_agent/utils.py:117-135 | after the possible cut the lists are still aligned |
| DmcBuffers.Pool.constructor | rlcard/agents/dmc_agent/utils.py:80-96 | buffers of T rows per player and slot, the free queues as given, empty full queues |
| DmcBuffers.Pool.Commit | rlcard/agents/dmc_agent/utils.py:117-135 | a None from the free queue stops with nothing written or cut; otherwise rows 0..T-1 of all six lists go to the slot, the slot goes on the full queue, and the window is dropped |
| DmcBuffers.Pool.CopyWindow | rlcard/agents/dmc_agent/utils.py:121-127 | the `for t in range(T)` loop writes row t of each list to row t of the slot and nothing else |
| DmcBuffers.CopyRows | rlcard/agents/dmc_agent/utils.py:121-127 | rows 0..T-1 of one list go to rows 0..T-1 of one slot of one buffer, and nothing else changes |
| DmcBuffers.Pool.Recycle | rlcard/agents/dmc_agent/utils.py:38-44 | the first batch_size slots leave the full queue and join the free queue in order; the slots a player owns are unchanged |
| DmcBuffers.Pool.PutAll | rlcard/agents/dmc_agent/utils.py:43-44 | the loop puts every index on the queue, in order |
| DmcBuffers.Pool.GetBatch | rlcard/agents/dmc_agent/utils.py:32-45 | batch_size slots come off the full queue and go back to the free queue; for every key, column j is slot indices[j] |
| DmcBuffers.HandlePlayer | rlcard/agents/dmc_agent/utils.py:99-135 | one player's staging then, above T rows, one commit: whether the loop halts or blocks, the player's lists, and its free and full queues after each outcome; the other players' queues are unchanged and the player keeps its slots |
| DmcBuffers.CutWindow | rlcard/agents/dmc_agent/utils.py:117-135 | above T rows the front of the free queue is taken: a None halts with the lists kept, an empty queue blocks, a slot goes on the full queue and the window is cut; at most T rows change nothing |
| DmcBuffers.ProcessEpisode | rlcard/agents/dmc_agent/utils.py:99-135 | the loop leaves the lists, queues and outcome of the episode specification; players before the stop are staged and cut, the player at a None is staged but not cut, later players are untouched; every player keeps its slots |
| DmcBuffers.Act | rlcard/agents/dmc_agent/utils.py:89-135 | the lists start empty; the lists and queues after a run of games are the fold of the episode specification over the games, ending at the first blocked queue; the lists stay aligned and every player keeps its slots |
| DmcBuffers.TurnConserves | rlcard/agents/dmc_agent/utils.py:117-128 | one player's turn keeps the combined multiset of its slots in the two queues |
| DmcBuffers.EpisodeOutcomeSpec | rlcard/agents/dmc_agent/utils.py:99-120 | the player loop passes every turn that does not halt and stops at the first that does; it is blocked exactly when that turn meets an empty free queue, and finishes exactly when no turn halts |
| DmcBuffers.EpisodeStagingSpec | rlcard/agents/dmc_agent/utils.py:99-135 | players before the stop have their lists staged and cut, the player at the stop staged only, later players untouched |
| DmcBuffers.EpisodeFreeSpec | rlcard/agents/dmc_agent/utils.py:117-120 | every player the loop reaches has its free queue as its own turn leaves it; the rest keep theirs |
| DmcBuffers.EpisodeFullSpec | rlcard/agents/dmc_agent/utils.py:117-128 | every player the loop reaches gains the slot its turn commits, if any; the rest keep their full queues |
| DmcBuffers.EpisodeFromMeaning | rlcard/agents/dmc_agent/utils.py:99-135 | the whole player loop: where it ends, the lists it leaves, and that every player keeps its slots |
| DmcBuffers.EpisodeMeaning | rlcard/agents/dmc_agent/utils.py:99-135 | the same for one game, in terms of the staging of the game's trajectories and payoffs |
| DmcBuffers.ActConserves | rlcard/agents/dmc_agent/utils.py:97-135 | over any run of games every player keeps its slots |
| DmcBuffers.SlotsFront | rlcard/agents/dmc_agent/utils.py:118 | taking the front of a free queue takes its slot, if any |
| DmcBuffers.SlotsAppend | rlcard/agents/dmc_agent/utils.py:43-44 | putting slots on a free queue adds them to its slots |
| DmcBuffers.CommitConserves | rlcard/agents/dmc_agent/utils.py:118-128 | a commit moves a slot from the free to the full queue, or drops a None |
| DmcBuffers.GetBatchConserves | rlcard/agents/dmc_agent/utils.py:38-44 | get_batch leaves the combined multiset of slots in the two queues unchanged |
| UnoRuleAgent.KeepSpec | rlcard/models/uno_rule_v2.py:55-58 | the filter loop keeps an order-preserving subsequence of exactly the elements that pass, each as often as in the input |
| UnoRuleAgent.KeepNone | rlcard/models/uno_rule_v2.py:55-60 | nothing is kept when no element passes |
| UnoRuleAgent.FallbackSpec | rlcard/models/uno_rule_v2.py:55-103 | each filter returns an order-preserving subsequence, non-empty for a non-empty input; the kept elements when any, the input otherwise |
| UnoRuleAgent.FilterWild | rlcard/models/uno_rule_v2.py:55-63 | what filter_wild returns comes from the hand |
| UnoRuleAgent.FilterWildSpec | rlcard/models/uno_rule_v2.py:55-63 | filter_wild drops exactly the strings whose characters 2..5 read 'wild', unless all do |
| UnoRuleAgent.WildStringIsWild | rlcard/models/uno_rule_v2.py:57 | for a card's string that test holds exactly for wild and wild_draw_4 |
| UnoRuleAgent.FilterDraw | rlcard/models/uno_rule_v2.py:75-83 | what filter_draw returns comes from the actions |
| UnoRuleAgent.FilterDrawSpec | rlcard/models/uno_rule_v2.py:75-83 | every 'draw' goes and every other action keeps its copies, unless only draws remain |
| UnoRuleAgent.FilterColor | rlcard/models/uno_rule_v2.py:95-103 | what filter_color returns comes from the actions |
| UnoRuleAgent.FilterColorSpec | rlcard/models/uno_rule_v2.py:95-103 | the actions whose first character is the colour, in order, or all actions if none |
| UnoRuleAgent.CountColorsSpec | rlcard/models/uno_rule_v2.py:115-122 | keys are distinct and are the cards' first characters; each count is the number of cards starting with it; counts sum to the hand size |
| UnoRuleAgent.MaxIndex | rlcard/models/uno_rule_v2.py:35 | `max(d, key=d.get)` is the first key of greatest count |
| UnoRuleAgent.CountBounded | rlcard/models/uno_rule_v2.py:35 | no key's count exceeds the chosen maximum |
| UnoRuleAgent.ChosenColorMost | rlcard/models/uno_rule_v2.py:34-35 | the chosen colour is a key of the count and has the greatest count |
| UnoRuleAgent.StepErrors | rlcard/models/uno_rule_v2.py:29-36 | step raises exactly on an empty hand or no legal action |
| UnoRuleAgent.StepChoice | rlcard/models/uno_rule_v2.py:29-36 | the chosen action is legal, is not 'draw' unless only draws are legal, and has the chosen colour whenever a legal non-draw action has it |

## Left out

- The Dealer, Player and Card classes are not part of this model. The deck is a sequence and a hand is a sequence of cards, and a card's type follows from its trait.
- UnoRound.Round.FlipTopCard: the top card is a parameter, because `Dealer.flip_top_card` is not part of this model. The deck is left as it is, so the flipped card joins the pile without leaving the deck, and the card-conservation lemmas cover the moves of a round but not its start.
- Randomness is passed in as parameters: the first player, the colour of a wild top card, the agents' choices and np.random.choice in the rule agent.
- `replace_deck` is left out because its only call is commented out in the source.
- `encode_hand_old` is left out because it is unused.
- The UNO environment that decodes action ids through a JSON action table is not part of this model.
- Torch, CUDA and multiprocessing are left out. `create_buffers` and `create_optimizers` allocate tensors, so they are out. Queue locking and cross-process ownership are concurrency, so they are out too.
- Logging and timing in `act` are left out.
- A blocking `get` on an empty queue is modelled as a result (`Blocked`, or `None` from `get_batch`) that changes nothing. It does not wait for another process.
- `act`'s `while True` loop runs over a given finite sequence of games. Its `env.run` is the trajectories each game provides.
- DmcBuffers.ProcessEpisode: does not restate the buffer contents. Pool.Commit states them for each commit it makes.
- DmcBuffers.Act: states the staging lists and the queues after the run but not the buffer contents. Pool.Commit states those for each commit it makes.
- DmcBuffers.ProcessEpisode: requires the decision entries of every player's trajectory to be well formed: a state at 2i and, at 2i+1, an action id numpy can index (from -num_actions to num_actions-1). This holds even for the players after a None on the free queue, whom the source's `break` leaves unread. DmcBuffers.Act requires the same of every game, including the games after a blocked queue, which the source never reaches. The entries after the decisions, such as the final state of a `[s0, final]` trajectory, may be anything. On a bad decision entry the source raises (a KeyError, TypeError or IndexError), and that exception path is not modelled.
- UnoRuleAgent.Step: requires non-empty card and action strings, because the source's `card[0]` raises on an empty string.
- UnoRuleAgent.Step: np.random.choice is the parameter `pick` taken modulo the number of choices.
- UnoRound.NextPlayer: requires a current player below num_players and a direction of ±1, which every round state keeps.
- UnoRound.Round.PerformTopCard: requires two cards in the deck for a draw_2 top card. The dealer's `deal_cards`, which would fail on a shorter deck, is not part of this model.
- EnvModel.Env.Run: requires the abstract game to carry a rank that every move of an unfinished game lowers. This makes the loop terminate; the source instead relies on the game ending. It also requires every player id the game reports to be below num_players. On any other id the source raises an IndexError at `trajectories[player_id]`, and that path is not modelled.
- Payoffs, returns and targets are integers, not floats.
- Registration modules, scripts, plotting and the neural network model are left out.
