# Declare card game: a verified model of the rules engine

This repository holds a Dafny model of the rules of `game.py`, a two-player declare card game between a
human and a bot. The model covers everything that decides what happens to the hands. The LCD, the
buttons, the joystick and the random number generator are replaced by parameters and
nondeterministic choices.

A card is an id in [0, 52). Its value is `c % 13 + 1` (1 to 13) and its suit is `c // 13 + 1` (1 to 4).
Each side holds three parallel lists: ids, values and suits. The `used_cards` set holds the ids
currently reserved. On each turn:

- the player moves a cursor and toggles selected positions;
- the player either declares (both buttons) or drops;
- a drop discards the cards chosen by the drop resolver;
- the bot then picks the discard up, declares, or drops a pair or its highest card;
- unless the bot declared, the player takes the bot's discard or draws a fresh card.

The lower total wins when the round ends.

Modules, one per concern of the program:

- `Lists`: the Python list operations the game uses (`pop` at one or several positions, `index`,
  `max`), stated as functions with their facts. `selected.remove` is written out in
  `Selection.Toggled` through `IndexOf`.
- `Cards`: the id encoding, the constants, `sum`, and the lemma that a free id exists while fewer
  than 52 are used.
- `Runs`: `is_full_sequence` and `is_same_suit_sequence`, written as the code computes them (sort,
  then compare neighbours; group by suit in insertion order). Each is proved equivalent to a
  declarative reading: "the values are consecutive integers in some order".
- `Selection`: the select toggle and the drop resolver inlined in `main`.
- `Scoring`: the end-of-round rule of `check_declare`.
- `BotPolicy`: the nested pair search of `bot_turn` (a method with loop invariants) and the
  first-maximum search.
- `Round`: the class `RoundState`. It holds the module-level lists, `used_cards`, `selected`, the
  cursor and `game_over`, and has a method for each operation that changes them. `Valid()` is the
  invariant every step through `main` keeps:
  - the lists are in lock-step;
  - the player holds at most 5 cards and the bot at least 5;
  - every used id is held by one of the hands;
  - while the round runs, the cursor and the selection are valid positions.

  `MidTurn()` is what holds between the player's discard and the replenishment.

Points where the code's behaviour is easy to misread; the model follows the code:

- A pair drop is tagged `"dropped_card"`, like a single drop. No separate tag exists.
- The pickup check runs before the declare check. A bot whose total is at most 7 therefore still
  picks up a discard worth less than 7 rather than declaring.
- Toggling an index twice restores the selected positions but not their order: `remove` then
  `append` moves the index to the end. The list comes back exactly only when the index was not
  selected, or was the last one selected (`Selection.ToggleTwice` states both directions).
- Card id 0 is never offered to the player, because `if dropped_card_by_bot` tests truthiness.
- The hand sizes drift. The player discards k ≥ 1 cards and takes back exactly one. The bot's hand
  grows by one on each pickup and otherwise keeps its length.
- Picked-up cards are not added back to `used_cards`, so "no id is in both hands" is not an
  invariant of this code. The model proves only the draw-level freshness and "every used id is held".

## Model

| member | source | states |
|---|---|---|
| Cards.ValueOf | game.py:145 | the value `c % 13 + 1` of an id lies in 1..13 |
| Cards.SuitOf | game.py:146 | the suit `c // 13 + 1` of an id lies in 1..4 |
| Cards.CardOf | game.py:145-146 | the id built from a value in 1..13 and a suit in 1..4 has exactly that value and suit |
| Cards.EncodingRoundTrip | game.py:145-146 | value and suit determine the id: rebuilding an id from them gives it back |
| Cards.Values | game.py:145 | the value list has one entry per id, each in 1..13, and with that id's suit it rebuilds the id |
| Cards.Suits | game.py:146 | the suit list has one entry per id, each in 1..4, and with that id's value it rebuilds the id |
| Cards.LockStepAppend | game.py:270-272 | appending an id with its value and suit keeps the three lists in lock-step |
| Cards.LockStepPop | game.py:253-255 | popping the same position from the three lists keeps them in lock-step |
| Cards.Sum | game.py:277 | Python's `sum` of a list, taken over the bot's values for the declare test and over both hands in `check_declare`; its facts are `SumBounds` and `SumPermutation` |
| Cards.SumBounds | game.py:277 | a hand of n cards totals between n and 13n, so a bot that declares holds at most 7 cards |
| Cards.SumPermutation | game.py:332-333 | the total of a hand does not depend on the order of its cards |
| Cards.FreeIdExists | game.py:117-123 | while fewer than 52 ids are used, the retry loop of `draw_unique_card` has a free id to find |
| Cards.UsedBound | game.py:117-123 | no more than 52 ids, the range of `random.randrange(52)`, can be in use |
| Runs.Consecutive | game.py:206-208 | the neighbour loop: each value is one more than the one before; `RunIff` relates it to the interval reading |
| Runs.Sort | game.py:204 | `list.sort()`: the result is ascending and a permutation of its input |
| Runs.RunIff | game.py:204-209 | sorting and checking neighbours accepts exactly the values that are a permutation of some lo, lo+1, ..., lo+n-1 |
| Runs.DuplicateBreaksRun | game.py:204-209 | two equal values never sort into a run |
| Runs.ValuesAt | game.py:203 | the list of the values at the selected positions, in selection order |
| Runs.IsFullSequence | game.py:195-209 | the full-run rule as the code computes it: the selection length equals the hand length and the sorted values pass the neighbour loop; `FullSequenceIff` states its meaning |
| Runs.FullSequenceIff | game.py:195-209 | `is_full_sequence` holds iff the selection covers the hand and its values form a run |
| Runs.FullSequenceRejectsDuplicates | game.py:195-209 | a selection with two cards of equal value is never a full sequence |
| Runs.SuitGroup | game.py:220-223 | the list `suit_groups[s]`: the values of the selected cards of suit `s`, in selection order |
| Runs.SuitKeys | game.py:220-223 | the keys of `suit_groups` in the order `setdefault` inserts them |
| Runs.GroupIsRun | game.py:227-235 | one group's check: 3 or more values that, sorted, pass the neighbour loop |
| Runs.SomeGroupIsRun | game.py:226-237 | the loop over the groups, in key order, stopping at the first group of 3 or more that sorts into a run; `SomeGroupIsRunIff` states its meaning |
| Runs.IsSameSuitSequence | game.py:211-237 | the suited-run rule as the code computes it: 3 or more selected and some group passes; `SameSuitIff` states its meaning |
| Runs.GroupedSuitIsKey | game.py:220-223 | every suit of a selected card is a key of `suit_groups` |
| Runs.SomeGroupIsRunIff | game.py:226-237 | the loop over `suit_groups.items()` succeeds iff some key's group has 3 or more values that sort into a run |
| Runs.SameSuitIff | game.py:211-237 | `is_same_suit_sequence` holds iff 3 or more cards are selected and some suit holds 3 or more selected cards whose values, all of them, form one run |
| Selection.Toggled | game.py:403-411 | the toggle changes membership of the cursor index only: it is removed if selected, otherwise added only while fewer than 5 are selected; it returns the length that result implies |
| Selection.ToggleKeepsValid | game.py:403-411 | a toggle at a valid cursor keeps the selection distinct, at most 5 long and within the hand |
| Selection.ToggleTwice | game.py:403-411 | toggling twice restores the selected set and its length, and restores the list iff the index was unselected or last |
| Selection.IsPair | game.py:431-433 | the pair test: exactly two selected cards of equal value |
| Selection.ResolveDrop | game.py:427-442 | at least one position is dropped, all valid, distinct when the selection is; nothing selected drops the cursor card; otherwise the whole selection or only its first card |
| Selection.ResolveDropAcceptsExactly | game.py:427-442 | two or more selected cards are dropped whole iff they are a pair, a full run of the hand, or contain a suited run of 3 or more; otherwise only `selected[0]` goes |
| Selection.UnequalPairExample | game.py:431-436 | selected values 3 and 9 drop only the first selected card |
| Scoring.FinalScore | game.py:332-345 | the totals are the sums of each side's values; the player wins iff lower, the bot iff lower, a tie iff equal |
| Scoring.ScoreSymmetric | game.py:340-345 | swapping the hands swaps the winner |
| Scoring.ScoreIgnoresOrder | game.py:332-345 | the score depends only on the multisets of values held |
| Scoring.PlayerWinsExample | game.py:332-341 | values [2, 3, 5] against [4, 4, 4] score 10 to 12, a player win |
| BotPolicy.FindFirstPair | game.py:287-307 | the nested loops find a pair iff one exists, and then the first (i, j), i < j, in scan order |
| Lists.Largest | game.py:247 | `max` of a non-empty list: a member of it, at least every member; the first position `drop_cards` pops |
| Lists.IndexOf | game.py:313 | `list.index`: a position holding the item, with no earlier position holding it |
| BotPolicy.FirstMaxIndex | game.py:313 | `botValue.index(max(botValue))` is the first position of the highest value |
| Round.Offered | game.py:461 | the truthiness test on the bot's discard: some card, and not id 0 |
| Round.PicksUp | game.py:267-269 | the bot's pickup test: a discard exists and is worth less than 7 |
| Round.BotMoved | game.py:258-325 | the effect of one bot turn on its hand and the used set, stated per branch: pickup iff a discard worth under 7, then declare iff the total is at most 7, otherwise the first pair or first highest card released, offered and redrawn |
| Round.RoundState.constructor | game.py:360-368 | a new round state is valid and freshly dealt |
| Round.RoundState.NewRound | game.py:360-368 | after the reset and both deals: 5 cards each, 10 distinct ids, the used set exactly those, nothing selected, cursor 0 |
| Round.RoundState.DrawUniqueCard | game.py:117-123 | the drawn id was not used, and the used set grows by exactly that id |
| Round.RoundState.GetShuffledCards | game.py:131-139 | num pairwise-distinct ids, none used before, and the used set grows by exactly them |
| Round.RoundState.InitHand | game.py:141-146 | the player gets 5 distinct fresh ids with matching values and suits |
| Round.RoundState.InitBot | game.py:148-153 | the bot gets 5 distinct fresh ids with matching values and suits |
| Round.RoundState.DropCards | game.py:239-256 | exactly the given positions leave the hand, the rest keep their order, values and suits move in lock-step, each removed id is released, and the id at the largest index is returned |
| Round.RoundState.DropHighest | game.py:247-255 | one pass of the loop pops the highest position left, which is the largest of all on the first pass, returns its original id, and extends the popped positions and released ids by it |
| Round.RoundState.PopPlayerCard | game.py:249-255 | one position is released and popped from the three lists |
| Round.RoundState.AddBotCard | game.py:270-272 | the id is appended to the bot's lists in lock-step |
| Round.RoundState.DrawBotCard | game.py:320-323 | a fresh id is drawn, reserved and appended to the bot's hand |
| Round.RoundState.RemoveBotCard | game.py:315-318 | one position is released and popped from the bot's three lists |
| Round.RoundState.BotTurn | game.py:258-325 | `BotMoved` holds of the old and new hand and used set: a discard worth under 7, and only such a discard, is picked up (the hand grows by it, nothing offered); else a total of at most 7 declares (hand unchanged, at most 7 cards); else the first pair (when the coin says so and one exists) or the first highest card goes, the card at the lower position is offered, as many fresh ids are drawn; it needs room only for the draws its path makes |
| Round.RoundState.BotDropPair | game.py:290-303 | the pair's ids are released, the other cards keep their order, two fresh distinct ids are appended, and the card at i is offered |
| Round.RoundState.BotPopPair | game.py:293-297 | popping j then i leaves the hand without both positions and releases both ids |
| Round.RoundState.BotDropOne | game.py:313-323 | the card at k is released and offered, the others keep their order, and one fresh id is appended |
| Round.RoundState.RefillBot | game.py:299-303 | count fresh distinct ids not used before are appended, and the used set grows by exactly them |
| Round.RoundState.AddPlayerCard | game.py:463-465 | the id is appended to the player's lists in lock-step |
| Round.RoundState.Move | game.py:384-394 | the cursor steps one position right or left and never leaves the hand |
| Round.RoundState.ToggleSelection | game.py:403-411 | the selection becomes the toggle at the cursor and stays valid |
| Round.RoundState.PlayerDeclare | game.py:397-400 | the round ends with the hands as they stand and the score of `check_declare` |
| Round.RoundState.PlayerDrop | game.py:423-448 | the resolver's positions are dropped, the other cards keep their order, the id at the largest position is offered to the bot, and exactly the dropped ids are released |
| Round.RoundState.BotResponds | game.py:452-457 | the bot takes its turn with the whole effect of `BotTurn` (`BotMoved`); the round ends iff it declares |
| Round.RoundState.Replenish | game.py:460-479 | the player gets the bot's discard if offered and accepted, otherwise a fresh id, and only then needs a free id; the other cards stay in order; the selection is cleared and the cursor reset |
| Round.RoundState.FinishDrop | game.py:452-479 | the bot's turn with its whole effect (`BotMoved`), then, unless it declared, exactly one card more for the player, fresh against the used set left by the bot when drawn, and a cleared selection |
| Round.RoundState.DropTurn | game.py:419-480 | the player's hand becomes the old hand without the dropped positions, plus one card unless the bot declared; the bot's turn (`BotMoved`) starts from the used set without the player's discards; a drawn card is fresh against the used set at the draw; the round ends iff the bot declared; otherwise the selection is empty, the cursor is 0, and card 0 is never offered |
| Round.RoundState.Tick | game.py:378-480 | one pass of the inner loop keeps the state valid; a score is returned iff the round ended, and it is the totals of the hands; except on a drop the cursor ends where the joystick step puts it; a select press toggles the selection at the cursor and leaves the hands and the used set alone |

## Left out

- LCD rendering and the colour schemes (`draw_card`, `draw_all_cards`, outlines, the prompt and result
  screens, `choose_color_scheme`): they are display calls with no game logic.
- Hardware input: the joystick ADC, the button pins, debounce flags, `MOVE_DELAY` timing and `sleep`.
  Each tick's joystick direction and button press are the parameters `dir` and `press` of
  `Round.RoundState.Tick`.
- The blocking prompts `ask_user_to_pickup` and the replay wait: the player's answer is the `pickUp`
  parameter, and the replay is a call to `NewRound`.
- The random number generator: `random.randrange(52)` becomes a nondeterministic choice of a free id
  (`:|`), and the coin `random.random() < 0.5` becomes the `tryPair` parameter. The draw distribution
  is not modelled.
- `shuffle` (Fisher-Yates over `random.getrandbits`): the program never calls it.
- Round.RoundState.DrawUniqueCard: requires fewer than 52 used ids. The source loops forever when none
  is free. For the same reason `BotTurn`, `BotResponds`, `Replenish`, `FinishDrop` and `DropTurn`
  require room for the draws their path makes (`BotDraws`, `TurnDraws`); a path that draws nothing
  requires only `|used| <= 52`, which `Cards.UsedBound` proves of every set of ids. The room is counted before the
  discards of the turn are released: in `BotTurn`, `BotResponds` and `FinishDrop` before the bot's,
  which can ask for up to two ids more than the source needs; in `DropTurn` and `Tick` before the
  player's as well, which can ask for up to 2 + |drop| more, one per dropped position.
- Round.RoundState.DropTurn: the card the player draws is stated fresh against the used set at the
  moment of the draw, not against the used set before the turn: the draw may return an id that the
  player or the bot released earlier in the same turn.
- Round.RoundState.Tick: on a drop press, it states validity and the score only; the effect of the
  turn is the contract of `DropTurn`. It also requires room for three draws, the most a drop turn
  makes, rather than the exact count `DropTurn` requires.
- The pair removal `for idx in [i2, i1]` is written out as its two iterations in `BotPopPair`.
