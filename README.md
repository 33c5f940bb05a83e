# Jet Lag Hide and Seek: game core in Dafny

This project models the game core of the Jet Lag hide-and-seek bot and proves properties of
that model. The core has six parts:

- the task scheduler that fires timed work once per tick;
- the condition manager that tracks status effects such as an active question;
- the game-state machine that moves a round through INACTIVE, HIDERPHASE, SEEKERPHASE and
  HIDERDELAY;
- the lite game's hider deck, with its draw pile, hand, discard pile and catalogue;
- the lite cards: time bonuses, five powerups and 28 curses;
- the six question families, with their instances and the question catalogue.

Python's dynamic pieces become explicit values:

- `time.time()` is an integer `now` parameter, so every `int(time.time() + d)` is `now + d`.
- `random.choice` and `random.randint` are nondeterministic choices (`:|`) within the same
  candidate set.
- Exceptions are `Result` or `Outcome` values:
  - `assert` failures are `AssertionFailed`;
  - `list.remove` of an absent card and `randint` on an empty deck are `ValueError`;
  - `random.choice([])` is `IndexError`;
  - `QuestionActiveException` is `QuestionActive`.
- The closures the game hands to the scheduler are a tagged datatype `Work`. The scheduler
  compares closures by their bytecode, and the model compares `Work` values by their tag.
  `GameState.Run` executes a piece of work the way the closure would.

A tick walks the coroutine list and then the function list **by index**, which is what
Python's list iterator does. So:

- an entry that a handler appends during the walk is visited;
- a `start_round` that removes entries before the current index makes the walk skip the
  entry after it.

A handler that fails ends the tick at once, so the final filtering never happens.

Files:

| file | module | models |
|---|---|---|
| `exceptions.dfy` | `Exceptions` | error kinds, `Option`, `Result`, `Outcome` |
| `text.dfy` | `Text` | `str.split`, `str.strip`, `", ".join`, integer rendering in f-strings |
| `task_scheduler.dfy` | `TaskScheduling` | `TaskScheduler` class, scheduled `Work`, list filters |
| `hide_and_seek_conditions_kinds.dfy` | `ConditionKinds` | the `Condition` enum |
| `hide_and_seek_conditions.dfy` | `Conditions` | `ConditionManager` class |
| `hide_and_seek_game_state.dfy` | `Game` | `State`, `GameState` class, stub book and deck, the tick |
| `hide_and_seek_lite_cards.dfy` | `LiteCards` | lite cards and their accessors |
| `hide_and_seek_lite_deck.dfy` | `LiteDeck` | lite `HiderDeck` class and its starting deck |
| `hide_and_seek_questions.dfy` | `Questions` | question families, instances, catalogue |
| `hide_and_seek_interfaces.dfy` | `Interfaces` | defaults of the full game's `Card` and `Question` |

## Model

| member | source | states |
|---|---|---|
| TaskScheduling.SameCodeIsEquivalence | task_scheduler.py:64 | Matching two scheduled pieces of work by code is reflexive, symmetric and transitive. |
| TaskScheduling.Keep | task_scheduler.py:62-68 | An entry survives a removal exactly when its work does not match the removed work. The result is never longer than the input. |
| TaskScheduling.Pending | task_scheduler.py:30-31 | An entry survives the end-of-tick filter exactly when its time is after the tick's start. |
| TaskScheduling.Due | task_scheduler.py:23-29 | An entry is due exactly when its time is at or before the tick's start. |
| TaskScheduling.Works | task_scheduler.py:23-29 | The work run for a list of entries is each entry's work, position by position. |
| TaskScheduling.KeepNoMatch | task_scheduler.py:62-68 | `remove_function` with nothing matching leaves the list as it was. |
| TaskScheduling.KeepIdempotent | task_scheduler.py:55-68 | Removing the same work twice removes nothing more the second time. |
| TaskScheduling.KeepAppend | task_scheduler.py:62-68 | Removal distributes over concatenation, so relative order is kept. |
| TaskScheduling.PendingAppend | task_scheduler.py:30-31 | The end-of-tick filter distributes over concatenation, so relative order is kept. |
| TaskScheduling.DueAppend | task_scheduler.py:23-29 | The due entries of a concatenation are those of each part, in order. |
| TaskScheduling.DuePendingSplit | task_scheduler.py:22-31 | Every entry is either due or pending and never both, so no due entry survives the filter. |
| TaskScheduling.PendingIdempotent | task_scheduler.py:30-31 | Filtering a second time at the same start changes nothing. |
| TaskScheduling.PendingLater | task_scheduler.py:30-31 | Filtering at an earlier and then a later start equals filtering at the later start. |
| TaskScheduling.PopMatch | task_scheduler.py:67-68 | Popping the highest remaining collected index removes exactly the matching entry it was collected for. |
| TaskScheduling.UnmatchedPrefix | task_scheduler.py:62-68 | The entries before the first collected index contain no match, so removal keeps them all. |
| TaskScheduling.TaskScheduler.constructor | task_scheduler.py:12-15 | A new scheduler has two empty lists. |
| TaskScheduling.TaskScheduler.AddTask | task_scheduler.py:33-42 | The entry is appended to the coroutine list. Existing entries and the function list are unchanged. |
| TaskScheduling.TaskScheduler.AddFunction | task_scheduler.py:44-53 | The entry is appended to the function list. Existing entries and the coroutine list are unchanged. |
| TaskScheduling.TaskScheduler.RemoveFunction | task_scheduler.py:55-68 | Collecting the indices and popping them in descending order leaves exactly the non-matching entries, in their original order. The coroutine list is untouched. |
| TaskScheduling.TaskScheduler.CollectMatches | task_scheduler.py:62-65 | The collected indices are ascending, in range, and are exactly the positions of the entries whose work matches. |
| TaskScheduling.TaskScheduler.Prune | task_scheduler.py:30-31 | Each list becomes exactly its entries after the tick's start, in order. |
| Conditions.ConditionManager.constructor | hide_and_seek_conditions.py:27-28 | A new manager holds no condition. |
| Conditions.ConditionManager.AddCondition | hide_and_seek_conditions.py:30-52 | A held condition fails the assertion and changes nothing. Otherwise only that condition is added, with its callback. Exactly one expiry entry at `now + duration` is scheduled when a duration is given, and none when it is not. `has_condition` (hide_and_seek_conditions.py:54-61, `ConditionManager.HasCondition`) is membership in the held conditions and changes nothing. |
| Conditions.ConditionManager.RemoveCondition | hide_and_seek_conditions.py:63-71 | An absent condition fails the assertion and changes nothing. Otherwise only that condition is removed, and its callback is handed back to run once. |
| Conditions.AddThenRemove | hide_and_seek_conditions.py:30-71 | Adding and then removing returns the callback that was given. A second removal fails. |
| Conditions.ExpiryAfterManualRemoval | hide_and_seek_conditions.py:47-71 | Manual removal leaves the expiry entry scheduled. When that entry fires, its removal fails the absence assertion. |
| Game.Unattempted | hide_and_seek_game_state.py:226 | Only players with no recorded time are offered. The set is empty exactly when every player has hidden, which is when the choice falls back to the recorded times. |
| Game.Slower | hide_and_seek_game_state.py:228-235 | The candidates never include the current player or a holder of the minimum time. There is no candidate exactly when every recorded player other than the current one holds the minimum. |
| Game.InvestigationBook.constructor | hide_and_seek_game_state.py:52-53 | A new book has no current question. |
| Game.InvestigationBook.SetCurrentQuestion | hide_and_seek_game_state.py:68-76 | The given question becomes the current one. |
| Game.GameState.Init | hide_and_seek_game_state.py:115-127 | Every field gets its initial value. A `start_round` entry is appended at the start time. |
| Game.GameState.New | hide_and_seek_game_state.py:115-128 | With no players, construction fails with IndexError. Otherwise the game is INACTIVE, with no times, no condition, `start_round` scheduled at the start time, no current player, the given start time, and a next player taken from the players. |
| Game.GameState.ChooseNextPlayer | hide_and_seek_game_state.py:225-237 | While some player has no time, the choice is such a player. Otherwise the choice is a recorded player other than the current one whose time is not the minimum. It fails with IndexError exactly when no such player exists. |
| Game.GameState.StartRound | hide_and_seek_game_state.py:130-143 | Outside INACTIVE nothing changes. Otherwise the game enters HIDERPHASE with a fresh book, deck and condition manager, and the current player becomes the next player. Every `start_round` entry is removed and `_release_seekers` is scheduled at `now + HIDING_TIME`. |
| Game.GameState.ReleaseSeekers | hide_and_seek_game_state.py:145-155 | The game enters SEEKERPHASE, the hiding clock starts at `now` and the bonus resets to 0. The longest-hide entry is scheduled at `now + MAX_SEEKING_TIME`. |
| Game.GameState.AskQuestion | hide_and_seek_game_state.py:158-177 | With a question active, it fails with QuestionActive and changes nothing. Otherwise it schedules the answer check at `now` plus the question's allocated time and sets ACTIVEQUESTION. |
| Game.GameState.CheckQuestionAnswered | hide_and_seek_game_state.py:180-194 | The expected count is computed when the entry fires. The stub book answers 0, so the check always puts the game in HIDERDELAY, starts the delay at `now` and records the question as current. The stubs it calls are modelled as written: `get_times_answered` (`InvestigationBook.GetTimesAnswered`, hide_and_seek_game_state.py:55-66) always answers 0, and `reward_mult` (`InvestigationBook.RewardMult`) does nothing. |
| Game.GameState.AnsweredQuestion | hide_and_seek_game_state.py:197-209 | Without ACTIVEQUESTION it fails the assertion and changes nothing. Otherwise it removes ACTIVEQUESTION. From HIDERDELAY it returns to SEEKERPHASE and takes the delay off the bonus. From any other state it leaves the fields unchanged. The stub `question_answered` it calls (`InvestigationBook.QuestionAnswered`) does nothing. |
| Game.GameState.HiderCaught | hide_and_seek_game_state.py:211-222 | The game becomes INACTIVE. The deck's bonus is added (the stub `count_time_bonuses`, `Game.HiderDeck.CountTimeBonuses`, always gives 0), and the current player's time is overwritten. No other field changes. When a next player exists, it is a player who has not hidden yet if there is one, and otherwise a recorded player other than the current one whose time is not the minimum; the longest-hide entries are removed and `start_round` is scheduled at `now + PLANNING_TIME`. When none exists, it fails with IndexError, keeps the old next player, and leaves the scheduler untouched. |
| Game.GameState.RecordCatch | hide_and_seek_game_state.py:215-219 | The updates before the draw: the game becomes INACTIVE, the deck's bonus is added, and the current player's time becomes the seconds since release plus the new bonus. No other field changes. |
| Game.GameState.GetTimes | hide_and_seek_game_state.py:245-254 | Every name in the times is a player's, or the empty name of a hider caught before any round started. |
| Game.GameState.Run | task_scheduler.py:27-29 | Running a scheduled closure: `start_round` and `_release_seekers` change the function list only as stated. Every other piece of work leaves it unchanged. Only an expiry of a condition the game's current manager does not hold fails. |
| Game.GameState.RunDueTasks | task_scheduler.py:23-25 | Every due coroutine entry runs, in list order. The coroutine list is untouched. |
| Game.GameState.RunDueFunctions | task_scheduler.py:27-29 | The index walk ends even though handlers change the list. Future entries other than `start_round` are kept. Without a due `start_round`, exactly the due entries run, in order. |
| Game.GameState.CheckTasks | task_scheduler.py:17-31 | All due coroutines run first, in order. Then only entries after the start remain. Future entries other than `start_round` survive. Without a due `start_round`, the run is exactly the due coroutines then the due functions, and the final function list is the old future entries in their order followed by the future entries the handlers appended. A failing handler ends the tick unfiltered. |
| Game.RunKeepsFuture | task_scheduler.py:27-31 | No handler removes a future entry other than a `start_round`. A handler other than `start_round` only appends future entries. |
| Game.RunShrinksDue | task_scheduler.py:27-29 | After a due entry runs, fewer due entries lie ahead of the walk, so the walk over a changing list ends. |
| Game.ExtendsKeepsDue | task_scheduler.py:27-31 | Entries appended in the future change nothing about what is due. |
| Game.ExtendsTrans | task_scheduler.py:23-29 | Appending future entries in the coroutine loop and again in the function loop is one such append. |
| Game.PendingExtends | task_scheduler.py:30-31 | After such appends, the end-of-tick filter gives the old list's future entries, in order, followed by the appended entries. |
| LiteCards.TimeBonusSeconds | hide_and_seek_lite_cards.py:12-13 | A time bonus of m minutes is worth 60·m seconds. Every other card is worth 0. |
| LiteCards.InformSeekers | hide_and_seek_lite_cards.py:18-78 | Randomise, Veto and curses inform the seekers. Time bonuses, Duplicate, DiscardDraw and DrawExpand do not. |
| LiteCards.GetColour | hide_and_seek_lite_interfaces.py:105-115 | Red for time bonuses, blue exactly for powerups, purple exactly for curses. |
| LiteCards.CurseNameKey | hide_and_seek_lite_cards.py:81-382 | Every curse name starts with a capital C and is told apart by its length and its letter after "Curse of the ". |
| LiteCards.CurseNamesDistinct | hide_and_seek_lite_cards.py:81-382 | The 28 curse names are pairwise distinct. |
| LiteCards.CardNameHead | hide_and_seek_lite_cards.py:15-75 | The first two characters of a name tell the card's kind. |
| LiteCards.TimeBonusNamesDiffer | hide_and_seek_lite_cards.py:15-16 | Time bonuses with different minutes have different names. |
| LiteCards.DiscardDrawNamesDiffer | hide_and_seek_lite_cards.py:58-59 | "Discard d, Draw n" names determine both numbers. |
| LiteCards.DrawExpandNamesDiffer | hide_and_seek_lite_cards.py:74-75 | "Draw n, Expand Max Hand Size by e" names determine both numbers. |
| LiteCards.GetCardNameInjective | hide_and_seek_lite_cards.py:15-382 | No two different cards share a display name, as `get_card_name` (`LiteCards.GetCardName`) renders them. |
| LiteDeck.CatalogueCounts | hide_and_seek_lite_deck.py:24-112 | A new deck has 103 cards: 55 time bonuses, 20 powerups and 28 curses. |
| LiteDeck.CatalogueColour | hide_and_seek_lite_deck.py:24-112 | The catalogue count of each colour. |
| LiteDeck.BonusPairsCounts | hide_and_seek_lite_deck.py:24-54 | 25×3, 15×6, 10×9, 3×12 and 2×18-minute bonuses make 55 cards, all red. |
| LiteDeck.PowerupPairsCounts | hide_and_seek_lite_deck.py:55-78 | The powerups make 20 cards, all blue. |
| LiteDeck.CursePairsCounts | hide_and_seek_lite_deck.py:79-106 | The curses make 28 cards, all purple. |
| LiteDeck.CatalogueBonusesPositive | hide_and_seek_lite_deck.py:24-54 | Every time bonus in the catalogue is worth a positive number of minutes. |
| LiteDeck.BonusSecondsAreMinutes | hide_and_seek_lite_deck.py:123 | The summed `get_time_bonus` equals 60 times the minutes on the time bonuses. Other cards add nothing. |
| LiteDeck.BonusSecondsRemoveFirst | hide_and_seek_lite_deck.py:123 | Removing a card from the hand takes exactly its seconds off the sum. |
| LiteDeck.RemoveFirst | hide_and_seek_lite_deck.py:140 | `list.remove` takes out exactly one copy of the card: one fewer element, and the multiset less that card. |
| LiteDeck.FirstIndex | hide_and_seek_lite_deck.py:140 | The index `list.remove` deletes holds the card, and no earlier position does. |
| LiteDeck.FirstNamed | hide_and_seek_lite_deck.py:170-173 | The result is the first card with the given name. It fails with an assertion exactly when no card has that name. |
| LiteDeck.HiderDeck.FetchCardByName | hide_and_seek_lite_deck.py:170-173 | The assertion fails exactly when no catalogue card has the name. Otherwise the result is a catalogue card with that name. |
| LiteDeck.FirstNamedRoundTrip | hide_and_seek_lite_deck.py:170-173 | Fetching a catalogue card by its own name returns that card. |
| LiteDeck.HiderDeck.constructor | hide_and_seek_lite_deck.py:17-113 | The nested loops give `deck` and `cards` the full catalogue, in order. The hand and discard pile start empty, and the maximum hand size starts at the default. |
| LiteDeck.HiderDeck.AppendPairs | hide_and_seek_lite_deck.py:109-112 | The outer loop: each pair's card, with its copies, in order, is appended to both the deck and the catalogue. Nothing else changes. |
| LiteDeck.HiderDeck.AppendCopies | hide_and_seek_lite_deck.py:110-112 | The inner loop: `num` copies of one card are appended to both the deck and the catalogue. Nothing else changes. |
| LiteDeck.HiderDeck.CountTimeBonuses | hide_and_seek_lite_deck.py:115-123 | Sixty seconds per minute on the hand's time bonuses. Never negative for a deck built from the catalogue. |
| LiteDeck.HiderDeck.HandBonusesNonNegative | hide_and_seek_lite_deck.py:115-123 | The hand of a valid deck grants no negative time. |
| LiteDeck.HiderDeck.CardsConserved | hide_and_seek_lite_deck.py:131-168 | The deck, hand, discard pile and popped cards always hold the 103 catalogue cards between them. |
| LiteDeck.HiderDeck.Discard | hide_and_seek_lite_deck.py:145-153 | A card not in the hand is a ValueError and changes nothing. Otherwise one copy moves from the hand to the end of the discard pile. Card conservation and a legal hand are kept, and the bonus loses that card's seconds. `get_hand_size` (hide_and_seek_lite_deck.py:125-129, `HiderDeck.GetHandSize`) drops by one, and `is_legal_hand` (hide_and_seek_lite_deck.py:161-165, `HiderDeck.IsLegalHand`) compares it with the maximum hand size. |
| LiteDeck.HiderDeck.Play | hide_and_seek_lite_deck.py:131-142 | The same moves as discard, and the same ValueError for a card not in the hand, as the code does. |
| LiteDeck.HiderDeck.PopDeck | hide_and_seek_lite_deck.py:167-168 | An empty deck is a ValueError. Otherwise one card at a random index leaves the deck and is returned, and it joins no pile. |
| LiteDeck.HiderDeck.Draw | hide_and_seek_lite_deck.py:155-159 | An empty deck is a ValueError. Otherwise one card at a random index moves from the deck to the end of the hand. The discard pile is not recycled. |
| Questions.GetReward | hide_and_seek_questions.py:25-179 | Each family has a fixed (draw, keep) reward with 1 ≤ keep ≤ draw ≤ 4. |
| Questions.RewardTable | hide_and_seek_questions.py:25-179 | Matching and Measuring (3,1), Tentacles (4,2), Radar and Thermometer (2,1), Photo (1,1). |
| Questions.GetAllocatedTime | hide_and_seek_questions.py:172-173 | Photo uses DEFAULT_ALLOCATED_PHOTO_TIME. Every other family uses the base default. |
| Questions.ToInstance | hide_and_seek_questions.py:28-191 | The instance keeps its template. Radar and Photo refuse non-empty input, and Thermometer refuses raw input whose length is not 2. Tentacles and Thermometer parse the input as a split on "," and a strip. |
| Questions.InstanceKeepsTemplate | hide_and_seek_questions.py:28-191 | An instance has its template's reward, allocated time and short question. |
| Questions.UserInputRoundTrip | hide_and_seek_questions.py:94-100 | For every family but Thermometer, rebinding the template to the input an instance reports gives the same instance. The reported input is `get_user_input` (lines 99-100, 157-158 and 190-192, `Questions.GetUserInput`): the raw text, the parsed parts rejoined with ", ", or "". |
| Questions.ThermometerRenderedInputRefused | hide_and_seek_questions.py:152-159 | A Thermometer instance made from a place and a comma, such as "a,", has the points "a" and "". It reports its input as "a, ", which the template then refuses. |
| Questions.ThermometerRefusesTwoPlaces | hide_and_seek_questions.py:153-162 | As written, two places "a, b" are always refused, although the full question reads two points. |
| Questions.ThermometerAcceptsOnePoint | hide_and_seek_questions.py:153-155 | As written, a two-character input without a comma is accepted as a single point. |
| Questions.ToInstanceCorrected | hide_and_seek_questions.py:152-162 | A Thermometer instance is made exactly when the parsed input has two points. Every other family is unchanged. |
| Questions.GetOptions | hide_and_seek_questions.py:22-186 | Every option list offers "NULL". Tentacles options end with the parsed places. |
| Questions.TentaclesOptions | hide_and_seek_questions.py:102-103 | Tentacles options are "OUT OF RANGE", "NULL", then the parsed places in input order. |
| Questions.OfFamily | hide_and_seek_questions.py:267-270 | A question is kept exactly when it is in the list and of the family. |
| Questions.GetQuestionsOfType | hide_and_seek_questions.py:267-270 | The evidently intended result: exactly the catalogue questions of the requested family. |
| Questions.CatalogueShape | hide_and_seek_questions.py:194-262 | 59 questions, in order: 15 matching, 16 measuring, 9 radar, 3 thermometer, 4 tentacles, 12 photo. |
| Text.SplitStrip | hide_and_seek_questions.py:96 | One part per comma-separated piece of the input, in order. No part holds a comma, and stripping a part again changes nothing. |
| Text.StripIdempotent | hide_and_seek_questions.py:96 | Stripping twice is stripping once. |
| Text.SplitStripJoin | hide_and_seek_questions.py:96-100 | Joining parsed parts with ", " and parsing again gives the parts back. |
| Text.ParseRenderParse | hide_and_seek_questions.py:96-100 | Parsing the rendered parse of any input yields the first parse. |
| Text.IntToStringInjective | hide_and_seek_lite_cards.py:16 | Different integers render differently in a card name. |
| Interfaces.CardDefaults | hide_and_seek_interfaces.py:40-50 | A card that overrides nothing is worth 0 seconds and is always playable. |
| Interfaces.EqualsIsEquivalence | hide_and_seek_interfaces.py:137-139 | Question equality by rendering is reflexive, symmetric and transitive. |

## Left out

- One scheduler is threaded through the game and its condition manager. The source creates
  one per module (`hide_and_seek_game_state.py:26`, `hide_and_seek_conditions.py:10`) and a
  third in the frontend, which is not part of this model.
- Scheduled closures are compared by tag. The source compares bytecode, so all expiry entries
  of all conditions match each other, and so do entries of different games. The model's tag
  comparison behaves the same way.
- Condition callbacks other than the default no-op are external code. `RemoveCondition` hands
  the callback back, and running it is not modelled.
- Coroutines (`add_task`, `await`) run as plain sequential work. Nothing is awaited
  concurrently. When a handler fails, the tick leaves the coroutine entries in place, and the
  model runs them again as plain work on the next tick. Python cannot await the same
  coroutine object twice, so the source would raise a RuntimeError there instead.
- `HIDING_TIME`, `PLANNING_TIME`, `MAX_SEEKING_TIME`, `DEFAULT_MAX_HAND_SIZE`,
  `DEFAULT_ALLOCATED_QUESTION_TIME` and `DEFAULT_ALLOCATED_PHOTO_TIME` come from
  hide_and_seek.cfg, which is not part of this model. The values are placeholders. The
  proofs use only that the three phase lengths are positive.
- `int(time.time() + d)` is `now + d` with an integer `now`. Handlers see the instant the tick
  started (`task_scheduler.py:22`), where the source reads the clock again
  (`hide_and_seek_game_state.py:143`, 151, 153, 193), so the source's times can be a second
  later. The fraction of a second is
  dropped.
- Game.GameState.CheckTasks: when a due `start_round` runs during the walk, the contract does
  not say which later due entries run. The walk may skip the entry after it, and that entry
  is then filtered out without running. The contract keeps only the survival facts for that
  case.
- Game.GameState.Run: an expiry entry removes its condition from the game's current
  condition manager. The source closure captures the manager that scheduled it
  (`hide_and_seek_conditions.py:50-52`), and `start_round` replaces the game's manager
  (`hide_and_seek_game_state.py:141`). So after a new round starts, an old expiry would empty
  the new manager in the model but the old one in the source. The game itself never schedules
  an expiry: `ask_question` adds its condition without a duration. Carrying the manager inside
  `Work` would make the scheduler module depend on the condition module, which depends on it.
- Questions.GetQuestionsOfType: as written, every call raises TypeError. It builds a set of
  questions, and `Question` defines `__eq__` without `__hash__`
  (`hide_and_seek_interfaces.py:137-139`), so questions cannot be hashed. The model gives the
  evidently intended family filter instead.
- LiteDeck.HiderDeck.Play: the docstring (`hide_and_seek_lite_deck.py:133-134`) promises a
  `CardNotPlayable` exception, which no file defines, and a return value saying whether to
  inform the seekers. The code raises ValueError from `list.remove` and returns nothing. The
  model follows the code. Whether a card informs the seekers is `LiteCards.InformSeekers`.
- `hide_and_seek_game_state.py:17` imports `StandardQuestion`, which
  `hide_and_seek_interfaces.py` does not define. As written, the game-state module fails at
  import. The model types `ask_question`'s argument as any question.
- Game.GameState.New: the source constructor raises when `players` is empty. The model
  returns that as an error instead of a half-built object.
- The full game's `HiderDeck` and `InvestigationBook` are the source's stubs. Times answered
  is always 0, the bonus is always 0, and `reward_mult` and `question_answered` do nothing.
  Their intended logic is not invented.
- Cards are compared by value. In the source, `list.remove` and `==` on cards compare object
  identity, but each starting-deck entry is one object appended as many times as it has
  copies, and no two entries are equal. So value and identity agree for every card a deck
  holds.
- The `popped` cards of the lite deck are ghost bookkeeping. The source forgets a card that
  `pop_deck` returns.
- Radar and Thermometer distances are tenths of a kilometre, not Python floats. Their
  rendering is the decimal text of the catalogue's values.
- `Question.__eq__` compares `str()` renderings. The rendering is a parameter, because Python's
  default rendering depends on the object.
- `get_possible_questions` is left out. Building a set of questions fails in Python, because
  `Question` defines `__eq__` without `__hash__`. The catalogue is modelled as a sequence with
  a family filter.
- Card text, embeds, colours as disnake objects (modelled as a three-valued tag), curse
  effect and cost descriptions, the frontend and the slash-command handlers are not part of
  this model.

## Findings

| source | as written | input that shows it | evidently intended | confidence | as-written member | corrected member |
|---|---|---|---|---|---|---|
| hide_and_seek_questions.py:155 | The Thermometer instance asserts that the raw input string has length 2. | "a, b" (two places) is refused, and "ab" (one place) is accepted, although the full question at line 162 reads a first and a second point. | Check that the parsed input has two points. | not executed | Questions.ThermometerRefusesTwoPlaces | Questions.ToInstanceCorrected |
