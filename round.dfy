/** One round of the declare game (game.py): the module-level lists `Hand`/`Value`/`Suit`
    and `botHand`/`botValue`/`botSuit`, the `used_cards` set, the `selected` list, the
    cursor `selected_card` and `game_over`, with every operation that changes them.
    Randomness (`random.randrange`, `random.random()`) and the player's buttons and
    joystick become nondeterministic choices and parameters. */
module Round {
  import opened Cards
  import opened Lists
  import opened Selection
  import opened BotPolicy
  import opened Scoring

  /** The joystick reading of one tick: past the threshold right, left, or neither. */
  datatype Direction = Left | Right | Stay

  /** The buttons of one tick, after debouncing. */
  datatype Press = NoPress | SelectPress | DropPress | BothPress

  /** What a drop turn led to: the card the player's drop offered the bot, then either
      the bot's declare or the bot's action, its discard and whether the player was
      asked to pick that discard up. */
  datatype TurnOutcome =
    | BotDeclared(playerDropped: Option<CardId>)
    | Continued(playerDropped: Option<CardId>, action: BotAction, botDropped: Option<CardId>, offered: bool)

  /** `if dropped_card_by_bot and ...` tests truthiness, so card id 0 is never offered. */
  predicate Offered(d: Option<CardId>)
  {
    d.Some? && d.value != 0
  }

  /** The first test of `bot_turn` (game.py:267-269): the player discarded a card worth
      less than PICKUP_BELOW. */
  predicate PicksUp(playerCard: Option<CardId>)
  {
    playerCard.Some? && ValueOf(playerCard.value) < PICKUP_BELOW
  }

  /** How many fresh ids `bot_turn` draws when its values are `v`: none on a pickup or a
      declare, two for a pair it drops, one for a single card. */
  ghost function BotDraws(playerCard: Option<CardId>, tryPair: bool, v: seq<int>): nat
  {
    if PicksUp(playerCard) || Sum(v) <= DECLARE_AT_MOST then 0
    else if tryPair && HasPair(v) then 2
    else 1
  }

  /** The most fresh ids the rest of a drop turn draws: the bot's draws and, unless the
      bot declares, the id the player may draw. */
  ghost function TurnDraws(playerCard: Option<CardId>, tryPair: bool, v: seq<int>): nat
  {
    if !PicksUp(playerCard) && Sum(v) <= DECLARE_AT_MOST then 0
    else BotDraws(playerCard, tryPair, v) + 1
  }

  /** What one `bot_turn` (game.py:258-325) does to the bot's hand, from `b0` (values
      `v0`) to `b`, and to the used set, from `u0` to `u`: a discard worth under
      PICKUP_BELOW, and only such a discard, is picked up; otherwise it declares iff its
      total is at most DECLARE_AT_MOST, keeping its hand; otherwise it releases the first
      pair (when the coin says so and one exists) or the first highest card, offers the
      card at the lower position and draws as many fresh ids. */
  ghost predicate BotMoved(playerCard: Option<CardId>, tryPair: bool, b0: seq<CardId>, v0: seq<int>,
                           u0: set<CardId>, b: seq<CardId>, u: set<CardId>, action: BotAction, dropped: Option<CardId>)
  {
    |v0| == |b0| &&
    (action == PickedUpPlayerCard <==> PicksUp(playerCard)) &&
    (dropped.Some? <==> action == DroppedCard) &&
    (PicksUp(playerCard) ==> b == b0 + [playerCard.value] && u == u0) &&
    (!PicksUp(playerCard) ==> (action == Declare <==> Sum(v0) <= DECLARE_AT_MOST)) &&
    (action == Declare ==> b == b0 && u == u0) &&
    (action == DroppedCard ==>
       v0 != [] && |b| == |b0| &&
       (if tryPair && HasPair(v0) then
          exists i, j :: IsFirstPair(v0, i, j) && dropped == Some(b0[i]) && Redrawn(b0, u0, {i, j}, b, u)
        else
          dropped == Some(b0[FirstMaxIndex(v0)]) && Redrawn(b0, u0, {FirstMaxIndex(v0)}, b, u)))
  }

  /** `h` is `kept` followed by distinct ids drawn from outside `pool`, and `u` is
      `pool` together with those drawn ids. */
  ghost predicate Refilled(kept: seq<CardId>, pool: set<CardId>, h: seq<CardId>, u: set<CardId>)
  {
    |kept| <= |h| && h[..|kept|] == kept &&
    Distinct(h[|kept|..]) &&
    (forall k :: |kept| <= k < |h| ==> h[k] !in pool) &&
    u == pool + Elements(h[|kept|..])
  }

  lemma RefillStart(kept: seq<CardId>, pool: set<CardId>)
    ensures Refilled(kept, pool, kept, pool)
  {
    assert kept[|kept|..] == [];
  }

  /** Appending a fresh draw keeps the shape. */
  lemma RefillStep(kept: seq<CardId>, pool: set<CardId>, h: seq<CardId>, u: set<CardId>, c: CardId)
    requires Refilled(kept, pool, h, u) && c !in u
    ensures Refilled(kept, pool, h + [c], u + {c})
  {
    var h' := h + [c];
    assert h'[..|kept|] == h[..|kept|];
    assert h'[|kept|..] == h[|kept|..] + [c];
    assert Elements(h'[|kept|..]) == Elements(h[|kept|..]) + {c};
  }

  /** A refill frees no id and uses one new id per card drawn. */
  lemma RefilledHeld(kept: seq<CardId>, pool: set<CardId>, h: seq<CardId>, u: set<CardId>)
    requires Refilled(kept, pool, h, u)
    ensures u - Elements(h) <= pool - Elements(kept)
    ensures |u| <= |pool| + |h| - |kept|
  {
    var tail := h[|kept|..];
    assert h == kept + tail;
    assert Elements(h) == Elements(kept) + Elements(tail);
    DistinctCard(tail);
  }

  /** Discarding the single position `k`. */
  lemma WithoutOne(h0: seq<CardId>, k: int)
    requires 0 <= k < |h0|
    ensures Without(h0, {k}) == h0[..k] + h0[k + 1..]
    ensures ItemsAt(h0, {k}) == {h0[k]}
  {
    var w := Without(h0, {});
    WithoutNothing(h0, {});
    assert w == h0;
    WithoutPop(h0, {}, k);
    assert {} + {k} == {k};
    assert Without(h0, {k}) == w[..k] + w[k + 1..];
    ItemsAtOne(h0, k);
  }

  lemma ItemsAtOne(h0: seq<CardId>, k: int)
    requires 0 <= k < |h0|
    ensures ItemsAt(h0, {k}) == {h0[k]}
  {
    assert h0[k] in ItemsAt(h0, {k});
  }

  /** After the positions `gone` of hand `h0` are discarded and as many cards drawn:
      the kept cards stay in order at the front of `h`, the drawn ids are distinct and
      were free once the discarded ids were released, and the used set is the released
      pool plus the drawn ids. */
  ghost predicate Redrawn(h0: seq<CardId>, u0: set<CardId>, gone: set<int>, h: seq<CardId>, u: set<CardId>)
  {
    |h| == |h0| && Refilled(Without(h0, gone), u0 - ItemsAt(h0, gone), h, u)
  }

  /** Part-way through `drop_cards`: the positions in `popped` are gone from the hand
      and their ids released. */
  ghost predicate Dropping(h0: seq<CardId>, u0: set<CardId>, popped: set<int>, hand: seq<CardId>, used: set<CardId>)
  {
    hand == Without(h0, popped) && used == u0 - ItemsAt(h0, popped)
  }

  /** Popping position `idx`, below every position already popped, extends the progress by `idx`. */
  lemma DroppingStep(h0: seq<CardId>, u0: set<CardId>, popped: set<int>, hand: seq<CardId>, used: set<CardId>, idx: int)
    requires Dropping(h0, u0, popped, hand, used)
    requires 0 <= idx < |h0| && idx !in popped
    requires forall d :: d in popped ==> d > idx
    ensures idx < |hand| && hand[idx] == h0[idx]
    ensures Dropping(h0, u0, popped + {idx}, hand[..idx] + hand[idx + 1..], used - {hand[idx]})
    ensures |popped + {idx}| == |popped| + 1
  {
    WithoutPop(h0, popped, idx);
    assert ItemsAt(h0, popped + {idx}) == ItemsAt(h0, popped) + {h0[idx]};
  }

  /** Part-way through `drop_cards`: the positions of `indices` are split between
      `rest`, still to drop, and `popped`, each of which lies above every one in `rest`. */
  ghost predicate Pending(indices: seq<int>, rest: seq<int>, popped: set<int>)
  {
    Elements(rest) + popped == Elements(indices) && Elements(rest) !! popped &&
    (rest != [] ==> forall d :: d in popped ==> Largest(rest) < d)
  }

  /** The next position `drop_cards` pops is the highest one left: a position of
      `indices`, below every one popped, and moving it across keeps the split. */
  lemma PendingStep(indices: seq<int>, rest: seq<int>, popped: set<int>)
    requires Pending(indices, rest, popped) && rest != []
    ensures Largest(rest) in Elements(indices) && Largest(rest) !in popped
    ensures forall d :: d in popped ==> d > Largest(rest)
    ensures Pending(indices, Erase(rest, Largest(rest)), popped + {Largest(rest)})
    ensures popped == {} ==> Largest(rest) == Largest(indices)
  {
    var idx := Largest(rest);
    var rest' := Erase(rest, idx);
    var left, left' := Elements(rest), Elements(rest');
    assert idx in left;
    assert left' == left - {idx};
    assert left' + (popped + {idx}) == left + popped;
    assert left' !! popped + {idx};
    if rest' != [] {
      var m := Largest(rest');
      assert m in left' && m in rest && m != idx;
      forall d | d in popped + {idx}
        ensures m < d
      {
      }
    }
    if popped == {} {
      FirstPopIsLargest(indices, rest);
    }
  }

  /** Before any pop, the highest position left is the highest of all. */
  lemma FirstPopIsLargest(indices: seq<int>, rest: seq<int>)
    requires rest != [] && Elements(rest) == Elements(indices)
    ensures indices != [] && Largest(rest) == Largest(indices)
  {
    assert rest[0] in Elements(indices);
    var m, n := Largest(rest), Largest(indices);
    assert m in Elements(indices) && n in Elements(rest);
  }

  /** Every id in the used set is held by one of the two hands. */
  ghost predicate Held(used: set<CardId>, hand: seq<CardId>, botHand: seq<CardId>)
  {
    used <= Elements(hand) + Elements(botHand)
  }

  /** When one hand's ids change from `a0` to `a1` and the used set from `u0` to `u1`
      leaving out no free id the change did not free, the other hand `b` untouched,
      every used id is still held. */
  lemma ShiftHeld<T>(u0: set<T>, a0: set<T>, b: set<T>, u1: set<T>, a1: set<T>)
    requires u0 <= a0 + b
    requires u1 - a1 <= u0 - a0
    ensures u1 <= a1 + b
  {
    forall x | x in u1
      ensures x in a1 + b
    {
      if x !in a1 {
        assert x in u0 - a0;
      }
    }
  }

  /** The player's hand changing from `h0` to `h1` in that way keeps the used ids held. */
  lemma HeldAfterPlayer(u0: set<CardId>, h0: seq<CardId>, b: seq<CardId>, u1: set<CardId>, h1: seq<CardId>)
    requires u1 - Elements(h1) <= u0 - Elements(h0)
    ensures Held(u0, h0, b) ==> Held(u1, h1, b)
  {
    if Held(u0, h0, b) {
      ShiftHeld(u0, Elements(h0), Elements(b), u1, Elements(h1));
    }
  }

  /** The bot's hand changing from `b0` to `b1` in that way keeps the used ids held. */
  lemma HeldAfterBot(u0: set<CardId>, h: seq<CardId>, b0: seq<CardId>, u1: set<CardId>, b1: seq<CardId>)
    requires u1 - Elements(b1) <= u0 - Elements(b0)
    ensures Held(u0, h, b0) ==> Held(u1, h, b1)
  {
    if Held(u0, h, b0) {
      ShiftHeld(u0, Elements(b0), Elements(h), u1, Elements(b1));
    }
  }

  class RoundState {
    var hand: seq<CardId>
    var value: seq<int>
    var suit: seq<int>
    var botHand: seq<CardId>
    var botValue: seq<int>
    var botSuit: seq<int>
    var used: set<CardId>
    var selected: seq<int>
    /** `selected_card`: the highlighted position of the player's hand. */
    var cursor: int
    var gameOver: bool

    /** The parallel lists stay in lock-step, the player's hand holds at most
        NUM_CARDS cards and the bot's at least NUM_CARDS, every id in the used set is
        held by one of the hands, and while the round runs the cursor and the
        selection are valid positions of the player's hand. */
    ghost predicate Valid()
      reads this
    {
      LockStep(hand, value, suit) && LockStep(botHand, botValue, botSuit) &&
      |hand| <= NUM_CARDS && NUM_CARDS <= |botHand| &&
      Held(used, hand, botHand) &&
      (!gameOver ==> 0 <= cursor < |hand| && SelectionValid(selected, |hand|))
    }

    /** Between the player's drop and the replenishment: the lists in lock-step, the
        player one card short or more, the bot at NUM_CARDS or more, every used id held,
        and the round still running. */
    ghost predicate MidTurn()
      reads this
    {
      LockStep(hand, value, suit) && LockStep(botHand, botValue, botSuit) &&
      |hand| < NUM_CARDS && NUM_CARDS <= |botHand| &&
      Held(used, hand, botHand) && !gameOver
    }

    /** A fresh deal: ten distinct ids, exactly the used set, nothing selected. */
    ghost predicate Dealt()
      reads this
    {
      !gameOver && selected == [] && cursor == 0 &&
      |hand| == NUM_CARDS && |botHand| == NUM_CARDS &&
      Distinct(hand + botHand) && used == Elements(hand) + Elements(botHand)
    }

    constructor ()
      ensures Valid() && Dealt()
    {
      hand, value, suit := [], [], [];
      botHand, botValue, botSuit := [], [], [];
      used, selected, cursor, gameOver := {}, [], 0, false;
      new;
      NewRound();
    }

    /** The top of `main`'s outer loop (game.py:361-368): clear the used set, the
        selection and the cursor, then deal the player's hand and the bot's. */
    method NewRound()
      modifies this
      ensures Valid() && Dealt()
    {
      used := {};
      selected := [];
      gameOver := false;
      cursor := 0;
      InitHand();
      DistinctCard(hand);
      InitBot();
      DisjointConcat(hand, botHand);
    }

    /** `draw_unique_card`: some id not in use, which becomes used. */
    method DrawUniqueCard() returns (c: CardId)
      requires |used| < DECK_SIZE
      modifies this`used
      ensures c !in old(used) && used == old(used) + {c}
    {
      FreeIdExists(used);
      c :| c !in used;
      used := used + {c};
    }

    /** `get_shuffled_cards(num)`: num distinct ids, none in use before, all in use after. */
    method GetShuffledCards(num: nat) returns (cards: seq<CardId>)
      requires |used| + num <= DECK_SIZE
      modifies this`used
      ensures |cards| == num && Distinct(cards)
      ensures forall k :: 0 <= k < |cards| ==> cards[k] !in old(used)
      ensures used == old(used) + Elements(cards)
    {
      cards := [];
      while |cards| < num
        invariant |cards| <= num && Distinct(cards)
        invariant forall k :: 0 <= k < |cards| ==> cards[k] !in old(used)
        invariant used == old(used) + Elements(cards)
        invariant |used| == |old(used)| + |cards|
        decreases num - |cards|
      {
        FreeIdExists(used);
        var c: CardId :| c !in used;
        assert c !in Elements(cards);
        cards := cards + [c];
        used := used + {c};
      }
    }

    /** `init_hand`: NUM_CARDS fresh ids, with their values and suits. */
    method InitHand()
      requires |used| + NUM_CARDS <= DECK_SIZE
      modifies this`hand, this`value, this`suit, this`used
      ensures |hand| == NUM_CARDS && Distinct(hand) && LockStep(hand, value, suit)
      ensures forall k :: 0 <= k < |hand| ==> hand[k] !in old(used)
      ensures used == old(used) + Elements(hand)
    {
      hand := GetShuffledCards(NUM_CARDS);
      value := Values(hand);
      suit := Suits(hand);
      LockStepOfIds(hand);
    }

    /** `init_bot`: NUM_CARDS fresh ids for the bot, with their values and suits. */
    method InitBot()
      requires |used| + NUM_CARDS <= DECK_SIZE
      modifies this`botHand, this`botValue, this`botSuit, this`used
      ensures |botHand| == NUM_CARDS && Distinct(botHand) && LockStep(botHand, botValue, botSuit)
      ensures forall k :: 0 <= k < |botHand| ==> botHand[k] !in old(used)
      ensures used == old(used) + Elements(botHand)
    {
      botHand := GetShuffledCards(NUM_CARDS);
      botValue := Values(botHand);
      botSuit := Suits(botHand);
      LockStepOfIds(botHand);
    }

    /** `drop_cards(indices)`: pops the given positions from the highest down, in
        lock-step over the three lists, releasing each id, and returns the id that was
        at the highest position. */
    method DropCards(indices: seq<int>) returns (first: Option<CardId>)
      requires LockStep(hand, value, suit)
      requires Distinct(indices) && IndicesIn(indices, hand)
      modifies this`hand, this`value, this`suit, this`used
      ensures LockStep(hand, value, suit)
      ensures hand == Without(old(hand), Elements(indices))
      ensures |hand| == |old(hand)| - |indices|
      ensures used == old(used) - ItemsAt(old(hand), Elements(indices))
      ensures used - Elements(hand) <= old(used) - Elements(old(hand))
      ensures first == if indices == [] then None else Some(old(hand)[Largest(indices)])
    {
      ghost var h0, u0 := hand, used;
      ghost var popped: set<int> := {};
      var rest := indices;
      first := None;
      WithoutNothing(h0, {});
      assert Elements(rest) + popped == Elements(indices);
      while rest != []
        invariant Pending(indices, rest, popped)
        invariant Dropping(h0, u0, popped, hand, used)
        invariant LockStep(hand, value, suit)
        invariant |hand| == |h0| - |popped|
        invariant first == if popped == {} then None else Some(h0[Largest(indices)])
        decreases |rest|
      {
        var idx, c := DropHighest(indices, h0, u0, rest, popped);
        if first == None {
          first := Some(c);
        }
        popped := popped + {idx};
        rest := Erase(rest, idx);
      }
      assert popped == Elements(indices);
      DistinctCard(indices);
      WithoutCovers(h0, popped);
    }

    /** One pass of the loop of `drop_cards`: release and pop the highest position left. */
    method DropHighest(ghost indices: seq<int>, ghost h0: seq<CardId>, ghost u0: set<CardId>, rest: seq<int>, ghost popped: set<int>)
      returns (idx: int, c: CardId)
      requires rest != [] && IndicesIn(indices, h0) && LockStep(hand, value, suit)
      requires Pending(indices, rest, popped) && Dropping(h0, u0, popped, hand, used)
      modifies this`hand, this`value, this`suit, this`used
      ensures idx == Largest(rest) && 0 <= idx < |h0| && c == h0[idx]
      ensures Pending(indices, Erase(rest, idx), popped + {idx})
      ensures Dropping(h0, u0, popped + {idx}, hand, used)
      ensures LockStep(hand, value, suit)
      ensures |hand| == |old(hand)| - 1 && |popped + {idx}| == |popped| + 1
      ensures popped == {} ==> idx == Largest(indices)
    {
      idx := Largest(rest);
      PendingStep(indices, rest, popped);
      assert idx in indices;
      DroppingStep(h0, u0, popped, hand, used, idx);
      ghost var top := hand[idx];
      assert top == h0[idx];
      c := PopPlayerCard(idx);
      assert c == top;
    }

    /** Releases the id at position `idx` of the player's hand and pops it from the three lists. */
    method PopPlayerCard(idx: int) returns (c: CardId)
      requires LockStep(hand, value, suit) && 0 <= idx < |hand|
      modifies this`hand, this`value, this`suit, this`used
      ensures LockStep(hand, value, suit)
      ensures c == old(hand[idx]) && used == old(used) - {c}
      ensures hand == old(hand[..idx] + hand[idx + 1..])
      ensures value == old(value[..idx] + value[idx + 1..])
      ensures suit == old(suit[..idx] + suit[idx + 1..])
      ensures used - Elements(hand) <= old(used) - Elements(old(hand))
    {
      c := hand[idx];
      PopRetains(hand, idx);
      LockStepPop(hand, value, suit, idx);
      used := used - {c};
      hand := hand[..idx] + hand[idx + 1..];
      value := value[..idx] + value[idx + 1..];
      suit := suit[..idx] + suit[idx + 1..];
    }

    /** `botHand.append(c)` with its value and suit. */
    method AddBotCard(c: CardId)
      requires LockStep(botHand, botValue, botSuit)
      modifies this`botHand, this`botValue, this`botSuit
      ensures LockStep(botHand, botValue, botSuit)
      ensures botHand == old(botHand) + [c]
    {
      LockStepAppend(botHand, botValue, botSuit, c);
      botHand := botHand + [c];
      botValue := botValue + [ValueOf(c)];
      botSuit := botSuit + [SuitOf(c)];
    }

    /** A fresh id drawn and appended to the bot's hand. */
    method DrawBotCard() returns (c: CardId)
      requires LockStep(botHand, botValue, botSuit) && |used| < DECK_SIZE
      modifies this`botHand, this`botValue, this`botSuit, this`used
      ensures LockStep(botHand, botValue, botSuit)
      ensures c !in old(used) && used == old(used) + {c}
      ensures botHand == old(botHand) + [c]
      ensures used - Elements(botHand) <= old(used) - Elements(old(botHand))
    {
      c := DrawUniqueCard();
      AddBotCard(c);
    }

    /** Releases the id at position `idx` of the bot's hand and pops it from the three lists. */
    method RemoveBotCard(idx: int) returns (c: CardId)
      requires LockStep(botHand, botValue, botSuit) && 0 <= idx < |botHand|
      modifies this`botHand, this`botValue, this`botSuit, this`used
      ensures LockStep(botHand, botValue, botSuit)
      ensures c == old(botHand[idx]) && used == old(used) - {c}
      ensures botHand == old(botHand[..idx] + botHand[idx + 1..])
      ensures used - Elements(botHand) <= old(used) - Elements(old(botHand))
    {
      c := botHand[idx];
      PopRetains(botHand, idx);
      LockStepPop(botHand, botValue, botSuit, idx);
      used := used - {c};
      botHand := botHand[..idx] + botHand[idx + 1..];
      botValue := botValue[..idx] + botValue[idx + 1..];
      botSuit := botSuit[..idx] + botSuit[idx + 1..];
    }

    /** `bot_turn(player_dropped_card)`, with the coin `random.random() < 0.5` as
        `tryPair`: pick up a low discard, else declare on a low total, else drop the
        first equal-value pair (when the coin says so and one exists) or the first
        highest card, drawing as many fresh cards as were dropped. */
    method BotTurn(playerCard: Option<CardId>, tryPair: bool) returns (action: BotAction, dropped: Option<CardId>)
      requires LockStep(botHand, botValue, botSuit)
      requires |used| + BotDraws(playerCard, tryPair, botValue) <= DECK_SIZE
      modifies this`botHand, this`botValue, this`botSuit, this`used
      ensures LockStep(botHand, botValue, botSuit)
      ensures Held(old(used), hand, old(botHand)) ==> Held(used, hand, botHand)
      ensures |used| <= |old(used)| + BotDraws(playerCard, tryPair, old(botValue))
      ensures |botHand| == |old(botHand)| + (if action == PickedUpPlayerCard then 1 else 0)
      ensures BotMoved(playerCard, tryPair, old(botHand), old(botValue), old(used), botHand, used, action, dropped)
      ensures action == Declare ==> |botHand| <= DECLARE_AT_MOST
    {
      ghost var u0, b0 := used, botHand;
      if playerCard.Some? {
        var val := ValueOf(playerCard.value);
        if val < PICKUP_BELOW {
          AddBotCard(playerCard.value);
          assert Elements(b0) <= Elements(botHand);
          HeldAfterBot(u0, hand, b0, used, botHand);
          return PickedUpPlayerCard, None;
        }
      }
      if Sum(botValue) <= DECLARE_AT_MOST {
        SumBounds(botHand, botValue, botSuit);
        HeldAfterBot(u0, hand, b0, used, botHand);
        return Declare, None;
      }
      dropped := None;
      var dropCount := if tryPair then 2 else 1;
      if dropCount == 2 {
        var found, i, j := FindFirstPair(botValue);
        if found {
          dropped := BotDropPair(i, j);
        } else {
          dropCount := 1;
        }
      }
      if dropCount == 1 {
        var k := FirstMaxIndex(botValue);
        dropped := BotDropOne(k);
      }
      HeldAfterBot(u0, hand, b0, used, botHand);
      action := DroppedCard;
    }

    /** The pair branch of `bot_turn`: release and pop positions j then i (i < j),
        then draw two fresh cards; the card offered is the one that was at i. */
    method BotDropPair(i: int, j: int) returns (dropped: Option<CardId>)
      requires LockStep(botHand, botValue, botSuit) && 0 <= i < j < |botHand|
      requires |used| + 2 <= DECK_SIZE
      modifies this`botHand, this`botValue, this`botSuit, this`used
      ensures LockStep(botHand, botValue, botSuit)
      ensures dropped == Some(old(botHand)[i])
      ensures Redrawn(old(botHand), old(used), {i, j}, botHand, used)
      ensures used - Elements(botHand) <= old(used) - Elements(old(botHand))
      ensures |used| <= |old(used)| + 2
    {
      ghost var u0 := used;
      dropped := Some(botHand[i]);
      BotPopPair(i, j);
      SubsetCard(used, u0);
      RefillBot(2);
    }

    /** The pair removal of `bot_turn` (game.py:293-297): release and pop the higher
        position j first, then position i (i < j). */
    method BotPopPair(i: int, j: int)
      requires LockStep(botHand, botValue, botSuit) && 0 <= i < j < |botHand|
      modifies this`botHand, this`botValue, this`botSuit, this`used
      ensures LockStep(botHand, botValue, botSuit)
      ensures botHand == Without(old(botHand), {i, j}) && |botHand| == |old(botHand)| - 2
      ensures used == old(used) - ItemsAt(old(botHand), {i, j})
      ensures used - Elements(botHand) <= old(used) - Elements(old(botHand))
    {
      ghost var h0 := botHand;
      WithoutNothing(h0, {});
      WithoutPop(h0, {}, j);
      assert {} + {j} == {j};
      ghost var w1 := Without(h0, {j});
      var second := RemoveBotCard(j);
      assert botHand == w1;
      WithoutPop(h0, {j}, i);
      assert {j} + {i} == {i, j};
      var first := RemoveBotCard(i);
      assert ItemsAt(h0, {i, j}) == {first, second};
    }

    /** The single-card branch of `bot_turn`: release and pop position k, then draw one
        fresh card; the card offered is the one that was at k. */
    method BotDropOne(k: int) returns (dropped: Option<CardId>)
      requires LockStep(botHand, botValue, botSuit) && 0 <= k < |botHand|
      requires |used| < DECK_SIZE
      modifies this`botHand, this`botValue, this`botSuit, this`used
      ensures LockStep(botHand, botValue, botSuit)
      ensures dropped == Some(old(botHand)[k])
      ensures Redrawn(old(botHand), old(used), {k}, botHand, used)
      ensures used - Elements(botHand) <= old(used) - Elements(old(botHand))
      ensures |used| <= |old(used)| + 1
    {
      ghost var h0, u0 := botHand, used;
      WithoutOne(h0, k);
      var c := RemoveBotCard(k);
      dropped := Some(c);
      SubsetCard(used, u0);
      RefillBot(1);
    }

    /** The bot's refill (game.py:299-303, 320-323): `count` times, draw a fresh id and
        append it, with its value and suit, to the bot's hand. */
    method RefillBot(count: nat)
      requires LockStep(botHand, botValue, botSuit) && |used| + count <= DECK_SIZE
      modifies this`botHand, this`botValue, this`botSuit, this`used
      ensures LockStep(botHand, botValue, botSuit)
      ensures |botHand| == |old(botHand)| + count
      ensures Refilled(old(botHand), old(used), botHand, used)
      ensures used - Elements(botHand) <= old(used) - Elements(old(botHand))
      ensures |used| <= |old(used)| + count
    {
      ghost var kept, pool := botHand, used;
      RefillStart(kept, pool);
      var n := 0;
      while n < count
        invariant 0 <= n <= count
        invariant LockStep(botHand, botValue, botSuit)
        invariant |botHand| == |kept| + n && |used| == |pool| + n
        invariant Refilled(kept, pool, botHand, used)
        decreases count - n
      {
        ghost var h, u := botHand, used;
        var c := DrawBotCard();
        RefillStep(kept, pool, h, u, c);
        n := n + 1;
      }
      RefilledHeld(kept, pool, botHand, used);
    }

    /** `Hand.append(c)` with its value and suit. */
    method AddPlayerCard(c: CardId)
      requires LockStep(hand, value, suit)
      modifies this`hand, this`value, this`suit
      ensures LockStep(hand, value, suit) && hand == old(hand) + [c]
    {
      LockStepAppend(hand, value, suit, c);
      hand := hand + [c];
      value := value + [ValueOf(c)];
      suit := suit + [SuitOf(c)];
    }

    /** The joystick step (game.py:384-394): one position right or left, never past
        either end of the hand. */
    method Move(dir: Direction)
      requires Valid() && !gameOver
      modifies this`cursor
      ensures Valid() && 0 <= cursor <= |hand| - 1
      ensures cursor == match dir
        case Right => if old(cursor) < |hand| - 1 then old(cursor) + 1 else old(cursor)
        case Left => if old(cursor) > 0 then old(cursor) - 1 else old(cursor)
        case Stay => old(cursor)
    {
      match dir
      case Right =>
        if cursor < |hand| - 1 {
          cursor := cursor + 1;
        }
      case Left =>
        if cursor > 0 {
          cursor := cursor - 1;
        }
      case Stay =>
    }

    /** The select button (game.py:403-411). */
    method ToggleSelection()
      requires Valid() && !gameOver
      modifies this`selected
      ensures Valid() && selected == Toggled(old(selected), cursor)
    {
      ToggleKeepsValid(selected, cursor, |hand|);
      selected := Toggled(selected, cursor);
    }

    /** A declare ends the round with the totals of `check_declare`; the hands stand as they are. */
    method PlayerDeclare() returns (score: Score)
      requires Valid()
      modifies this`gameOver
      ensures Valid() && gameOver && score == FinalScore(value, botValue)
    {
      gameOver := true;
      score := FinalScore(value, botValue);
    }

    /** The player's half of the drop button (game.py:422-447): resolve which
        positions go and drop them. */
    method PlayerDrop() returns (drop: seq<int>, dropped: Option<CardId>)
      requires Valid() && !gameOver
      modifies this`hand, this`value, this`suit, this`used
      ensures MidTurn()
      ensures drop == old(ResolveDrop(selected, cursor, value, suit))
      ensures hand == Without(old(hand), Elements(drop)) && |hand| == |old(hand)| - |drop|
      ensures dropped == Some(old(hand)[Largest(drop)])
      ensures used == old(used) - ItemsAt(old(hand), Elements(drop))
    {
      ghost var u0, h0 := used, hand;
      drop := ResolveDrop(selected, cursor, value, suit);
      dropped := DropCards(drop);
      HeldAfterPlayer(u0, h0, botHand, used, hand);
    }

    /** The bot's half of the drop button (game.py:451-457): the bot's turn, and the
        end of the round when it declares. */
    method BotResponds(playerCard: Option<CardId>, tryPair: bool) returns (action: BotAction, dropped: Option<CardId>)
      requires MidTurn() && |used| + BotDraws(playerCard, tryPair, botValue) <= DECK_SIZE
      modifies this`botHand, this`botValue, this`botSuit, this`used, this`gameOver
      ensures gameOver <==> action == Declare
      ensures if gameOver then Valid() else MidTurn()
      ensures |used| <= |old(used)| + BotDraws(playerCard, tryPair, old(botValue))
      ensures |botHand| == |old(botHand)| + (if action == PickedUpPlayerCard then 1 else 0)
      ensures BotMoved(playerCard, tryPair, old(botHand), old(botValue), old(used), botHand, used, action, dropped)
    {
      action, dropped := BotTurn(playerCard, tryPair);
      if action == Declare {
        gameOver := true;
      }
    }

    /** The player's replenishment and the reset that follows it (game.py:459-477):
        the bot's discard when it is offered and the player accepts, otherwise one fresh
        card; then the selection is cleared and the cursor returns to the first card. */
    method Replenish(card: Option<CardId>, pickUp: bool)
      requires MidTurn() && (!(Offered(card) && pickUp) ==> |used| < DECK_SIZE)
      modifies this`hand, this`value, this`suit, this`used, this`selected, this`cursor
      ensures Valid() && selected == [] && cursor == 0
      ensures |hand| == |old(hand)| + 1 && hand[..|old(hand)|] == old(hand)
      ensures Offered(card) && pickUp ==> hand[|hand| - 1] == card.value && used == old(used)
      ensures !(Offered(card) && pickUp) ==>
        hand[|hand| - 1] !in old(used) && used == old(used) + {hand[|hand| - 1]}
    {
      ghost var u0, h0 := used, hand;
      if Offered(card) && pickUp {
        AddPlayerCard(card.value);
      } else {
        var n := DrawUniqueCard();
        AddPlayerCard(n);
      }
      assert hand[..|old(hand)|] == old(hand);
      assert Elements(h0) <= Elements(hand);
      HeldAfterPlayer(u0, h0, botHand, used, hand);
      selected := [];
      cursor := 0;
    }

    /** The rest of the drop button after the player's drop (game.py:451-477): the
        bot's turn and, unless the bot declared, the player's replenishment. */
    method FinishDrop(playerDropped: Option<CardId>, pickUp: bool, tryPair: bool) returns (outcome: TurnOutcome)
      requires MidTurn() && |used| + TurnDraws(playerDropped, tryPair, botValue) <= DECK_SIZE
      modifies this
      ensures Valid()
      ensures gameOver <==> outcome.BotDeclared?
      ensures outcome.playerDropped == playerDropped
      ensures |hand| == |old(hand)| + (if gameOver then 0 else 1) && hand[..|old(hand)|] == old(hand)
      ensures outcome.Continued? ==>
        outcome.offered == Offered(outcome.botDropped) && selected == [] && cursor == 0
      ensures outcome.Continued? && outcome.offered && pickUp ==>
        hand[|hand| - 1] == outcome.botDropped.value
      ensures |botHand| == |old(botHand)| +
        (if outcome.Continued? && outcome.action == PickedUpPlayerCard then 1 else 0)
      ensures outcome.BotDeclared? ==>
        BotMoved(playerDropped, tryPair, old(botHand), old(botValue), old(used), botHand, used, Declare, None)
      // `botUsed` is the used set with the player's draw, if any, taken out. `BotMoved`
      // fixes it as the used set the bot's turn left, so a drawn id was free when drawn.
      ensures outcome.Continued? ==>
        var drew := !(outcome.offered && pickUp);
        var botUsed := if drew then used - {hand[|hand| - 1]} else used;
        BotMoved(playerDropped, tryPair, old(botHand), old(botValue), old(used), botHand, botUsed,
                 outcome.action, outcome.botDropped) &&
        (drew ==> used == botUsed + {hand[|hand| - 1]})
    {
      var action, botDropped := BotResponds(playerDropped, tryPair);
      if action == Declare {
        assert hand[..|hand|] == hand;
        return BotDeclared(playerDropped);
      }
      ghost var botAfter, botUsed := botHand, used;
      assert BotMoved(playerDropped, tryPair, old(botHand), old(botValue), old(used), botAfter, botUsed, action, botDropped);
      Replenish(botDropped, pickUp);
      outcome := Continued(playerDropped, action, botDropped, Offered(botDropped));
      assert botHand == botAfter;
      if !(outcome.offered && pickUp) {
        assert used - {hand[|hand| - 1]} == botUsed;
      } else {
        assert used == botUsed;
      }
    }

    /** The drop button (game.py:419-479): the player's drop, the bot's turn and,
        unless the bot declared, the player's replenishment, after which the
        selection is cleared and the cursor returns to the first card. */
    method DropTurn(pickUp: bool, tryPair: bool) returns (outcome: TurnOutcome)
      requires Valid() && !gameOver
      requires |used| + TurnDraws(Some(hand[Largest(ResolveDrop(selected, cursor, value, suit))]), tryPair, botValue)
        <= DECK_SIZE
      modifies this
      ensures Valid()
      ensures gameOver <==> outcome.BotDeclared?
      ensures var drop := old(ResolveDrop(selected, cursor, value, suit));
        |hand| == |old(hand)| - |drop| + (if gameOver then 0 else 1) &&
        hand[..|old(hand)| - |drop|] == Without(old(hand), Elements(drop)) &&
        outcome.playerDropped == Some(old(hand)[Largest(drop)])
      ensures outcome.Continued? ==>
        outcome.offered == Offered(outcome.botDropped) && selected == [] && cursor == 0
      ensures outcome.Continued? && outcome.offered && pickUp ==>
        hand[|hand| - 1] == outcome.botDropped.value
      ensures |botHand| == |old(botHand)| +
        (if outcome.Continued? && outcome.action == PickedUpPlayerCard then 1 else 0)
      ensures var drop := old(ResolveDrop(selected, cursor, value, suit));
        var released := old(used) - ItemsAt(old(hand), Elements(drop));
        outcome.BotDeclared? ==>
          BotMoved(outcome.playerDropped, tryPair, old(botHand), old(botValue), released, botHand, used, Declare, None)
      // As in `FinishDrop`, `BotMoved` fixes `botUsed` as the used set the bot's turn left.
      ensures var drop := old(ResolveDrop(selected, cursor, value, suit));
        var released := old(used) - ItemsAt(old(hand), Elements(drop));
        outcome.Continued? ==>
          var drew := !(outcome.offered && pickUp);
          var botUsed := if drew then used - {hand[|hand| - 1]} else used;
          BotMoved(outcome.playerDropped, tryPair, old(botHand), old(botValue), released, botHand, botUsed,
                   outcome.action, outcome.botDropped) &&
          (drew ==> used == botUsed + {hand[|hand| - 1]})
    {
      ghost var u0 := used;
      var drop, playerDropped := PlayerDrop();
      SubsetCard(used, u0);
      outcome := FinishDrop(playerDropped, pickUp, tryPair);
    }

    /** One pass of `main`'s inner loop: the joystick move, then a declare when both
        buttons are down, otherwise the select toggle or the drop turn. */
    method Tick(dir: Direction, press: Press, pickUp: bool, tryPair: bool) returns (score: Option<Score>)
      requires Valid() && !gameOver && (press == DropPress ==> |used| + 3 <= DECK_SIZE)
      modifies this
      ensures Valid()
      ensures press != DropPress ==> cursor == match dir
        case Right => if old(cursor) < |old(hand)| - 1 then old(cursor) + 1 else old(cursor)
        case Left => if old(cursor) > 0 then old(cursor) - 1 else old(cursor)
        case Stay => old(cursor)
      ensures score.Some? <==> gameOver
      ensures score.Some? ==> score.value == FinalScore(value, botValue)
      ensures press == BothPress ==> gameOver && hand == old(hand) && botHand == old(botHand)
      ensures press == NoPress || press == SelectPress ==>
        hand == old(hand) && botHand == old(botHand) && used == old(used)
      ensures press == NoPress ==> selected == old(selected)
      ensures press == SelectPress ==> selected == Toggled(old(selected), cursor)
    {
      Move(dir);
      if press == BothPress {
        var s := PlayerDeclare();
        return Some(s);
      }
      if press == SelectPress {
        ToggleSelection();
      }
      if press == DropPress {
        var outcome := DropTurn(pickUp, tryPair);
        if outcome.BotDeclared? {
          return Some(FinalScore(value, botValue));
        }
      }
      return None;
    }
  }
}
