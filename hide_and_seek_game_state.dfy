/** The game-phase state machine: a round goes INACTIVE -> HIDERPHASE -> SEEKERPHASE, with
    HIDERDELAY while an overdue question is pending, and back to INACTIVE when the hider is
    caught. Transitions are driven by the players' commands and by scheduler entries. */
module Game {
  import opened Exceptions
  import opened ConditionKinds
  import opened TaskScheduling
  import opened Conditions
  import Questions

  /** A positive number of seconds. */
  type Seconds = n: nat | n > 0 witness 1

  /** The phase lengths are read from hide_and_seek.cfg, which is not part of this model.
      The values below are placeholders: the proofs use only that they are positive. */
  const HIDING_TIME: Seconds := 1800
  const PLANNING_TIME: Seconds := 600
  const MAX_SEEKING_TIME: Seconds := 10800

  /** The name held as current player before the first round starts. */
  const NO_PLAYER: string := ""

  datatype State = Inactive | HiderPhase | SeekerPhase | HiderDelay

  /** The investigation book of the full game, as far as it is written: the counters and
      rewards are unimplemented, so a question always counts as answered 0 times. */
  class InvestigationBook {
    var currentQuestion: Option<Questions.Question>

    constructor ()
      ensures currentQuestion == None
    {
      currentQuestion := None;
    }

    /** `get_times_answered`, unimplemented in the source: always 0. */
    function GetTimesAnswered(question: Questions.Question): (n: nat)
    {
      0
    }

    /** `set_current_question` */
    method SetCurrentQuestion(question: Questions.Question)
      modifies this
      ensures currentQuestion == Some(question)
    {
      currentQuestion := Some(question);
    }

    /** `reward_mult`, unimplemented in the source: does nothing. */
    method RewardMult(multiplier: int, numQuestions: int)
    {
    }

    /** `question_answered`, unimplemented in the source: does nothing. */
    method QuestionAnswered(deck: HiderDeck)
    {
    }
  }

  /** The full game's hider deck, as far as it is written: holds no cards, so its time
      bonuses come to 0. */
  class HiderDeck {
    constructor ()
    {
    }

    /** `count_time_bonuses`, unimplemented in the source: always 0. */
    function CountTimeBonuses(): (seconds: int)
    {
      0
    }
  }

  /** The plain fields of a game, gathered so that a transition can say which of them it
      changes and that the rest keep their values. */
  datatype Fields = Fields(
    state: State,
    startTime: int,
    players: seq<string>,
    currPlayer: string,
    nextPlayer: string,
    times: map<string, int>,
    hideTimeStart: int,
    delayStart: int,
    hiderTimeBonus: int)

  /** The players that have not hidden yet. There is none exactly when every player has a
      recorded time. */
  function Unattempted(players: seq<string>, times: map<string, int>): (r: set<string>)
    ensures forall p :: p in r ==> p in players && p !in times
    ensures r == {} <==> forall p :: p in players ==> p in times
  {
    var r := set p | p in players && p !in times;
    assert forall p :: p in players && p !in times ==> p in r;
    r
  }

  /** `p` holds the smallest recorded time. */
  predicate IsFastest(times: map<string, int>, p: string)
  {
    p in times && forall q :: q in times ==> times[p] <= times[q]
  }

  /** The recorded players other than `current` whose time is not the minimum, that is, for
      whom some recorded time is smaller. It never holds `current` or a holder of the
      minimum, and it is empty exactly when every recorded player other than `current`
      holds the minimum. */
  function Slower(times: map<string, int>, current: string): (r: set<string>)
    ensures current !in r && forall p :: p in r ==> p in times
    ensures forall p :: IsFastest(times, p) ==> p !in r
    ensures r == {} <==> forall p :: p in times && p != current ==> IsFastest(times, p)
  {
    var r := set p | p in times && p != current && exists q :: q in times && times[q] < times[p];
    assert forall p :: p in times && p != current && !IsFastest(times, p) ==> p in r;
    r
  }

  class GameState {
    var state: State
    var startTime: int
    var players: seq<string>
    var currPlayer: string
    var nextPlayer: string
    var book: InvestigationBook
    var deck: HiderDeck
    var conditions: ConditionManager
    var times: map<string, int>
    var hideTimeStart: int
    var delayStart: int
    var hiderTimeBonus: int
    /** The scheduler the game and its condition manager add their entries to. */
    const scheduler: TaskScheduler

    /** The condition manager schedules on the game's scheduler, and every name the game
        holds or records is a player's or the initial empty name. */
    predicate Valid()
      reads this, conditions
    {
      conditions.scheduler == scheduler
      && (currPlayer in players || currPlayer == NO_PLAYER)
      && (nextPlayer in players || nextPlayer == NO_PLAYER)
      && forall p :: p in times ==> p in players || p == NO_PLAYER
    }

    function Snapshot(): Fields
      reads this
    {
      Fields(state, startTime, players, currPlayer, nextPlayer, times, hideTimeStart,
             delayStart, hiderTimeBonus)
    }

    /** The part of `__init__` that cannot fail: every field set, and `start_round`
        scheduled at the start time. */
    constructor Init(scheduler: TaskScheduler, startTime: int, players: seq<string>)
      modifies scheduler
      ensures Snapshot() == Fields(Inactive, startTime, players, NO_PLAYER, NO_PLAYER, map[], 0, 0, 0)
      ensures this.scheduler == scheduler && fresh(book) && fresh(deck) && fresh(conditions)
      ensures conditions.conditions == map[] && conditions.scheduler == scheduler
      ensures scheduler.functions == old(scheduler.functions) + [Entry(startTime, Work.StartRound)]
      ensures scheduler.tasks == old(scheduler.tasks)
    {
      state := Inactive;
      this.startTime := startTime;
      this.players := players;
      currPlayer := NO_PLAYER;
      nextPlayer := NO_PLAYER;
      book := new InvestigationBook();
      deck := new HiderDeck();
      conditions := new ConditionManager(scheduler);
      times := map[];
      hideTimeStart := 0;
      delayStart := 0;
      hiderTimeBonus := 0;
      this.scheduler := scheduler;
      new;
      scheduler.AddFunction(startTime, Work.StartRound);
    }

    /** `__init__`: a new game is INACTIVE with no recorded times, `start_round` is
        scheduled at the start time, and the first hider is drawn from the players. With no
        players the draw raises IndexError, after `start_round` has been scheduled. */
    static method New(scheduler: TaskScheduler, startTime: int, players: seq<string>)
      returns (r: Result<GameState>)
      modifies scheduler
      ensures scheduler.functions == old(scheduler.functions) + [Entry(startTime, Work.StartRound)]
      ensures scheduler.tasks == old(scheduler.tasks)
      ensures r.Err? <==> players == []
      ensures r.Err? ==> r.error == IndexError
      ensures r.Ok? ==> fresh(r.value) && r.value.Valid() && r.value.scheduler == scheduler
      ensures r.Ok? ==> r.value.state == Inactive && r.value.times == map[]
      ensures r.Ok? ==> r.value.players == players && r.value.nextPlayer in players
      ensures r.Ok? ==> r.value.conditions.conditions == map[]
      ensures r.Ok? ==> r.value.currPlayer == NO_PLAYER && r.value.startTime == startTime
    {
      var g := new GameState.Init(scheduler, startTime, players);
      if players != [] {
        assert players[0] in Unattempted(players, g.times);
      }
      var next := g.ChooseNextPlayer();
      if next.Err? {
        return Err(next.error);
      }
      g.nextPlayer := next.value;
      return Ok(g);
    }

    /** `_get_next_player`: a player who has not hidden yet if there is one; otherwise a
        recorded player other than the current one whose time is not the minimum. When
        there is no such player the choice raises IndexError. */
    method ChooseNextPlayer() returns (r: Result<string>)
      ensures Unattempted(players, times) != {} ==>
        r.Ok? && r.value in players && r.value !in times
      ensures Unattempted(players, times) == {} ==>
        (r.Ok? <==> Slower(times, currPlayer) != {})
      ensures Unattempted(players, times) == {} && r.Ok? ==>
        r.value in times && r.value != currPlayer
        && exists q :: q in times && times[q] < times[r.value]
      ensures r.Err? ==> r.error == IndexError
    {
      var unattempted := Unattempted(players, times);
      if unattempted == {} {
        var slower := Slower(times, currPlayer);
        if slower == {} {
          return Err(IndexError);
        }
        var p :| p in slower;
        return Ok(p);
      }
      var p :| p in unattempted;
      return Ok(p);
    }

    /** `start_round`: does nothing unless the game is INACTIVE. Otherwise every
        `start_round` entry is removed, the phase becomes HIDERPHASE, the book, deck and
        condition manager are replaced by fresh ones (so no condition is active), the next
        player becomes the current one, and `_release_seekers` is scheduled at
        `now + HIDING_TIME`. */
    method StartRound(now: int)
      requires Valid()
      modifies this, scheduler
      ensures Valid()
      ensures scheduler.tasks == old(scheduler.tasks)
      ensures old(state) != Inactive ==>
        Snapshot() == old(Snapshot()) && scheduler.functions == old(scheduler.functions)
        && book == old(book) && deck == old(deck) && conditions == old(conditions)
      ensures old(state) == Inactive ==>
        Snapshot() == old(Snapshot()).(state := HiderPhase, currPlayer := old(nextPlayer))
        && fresh(book) && fresh(deck) && fresh(conditions) && conditions.conditions == map[]
        && scheduler.functions ==
             Keep(old(scheduler.functions), Work.StartRound) + [Entry(now + HIDING_TIME, Work.ReleaseSeekers)]
    {
      if state == Inactive {
        scheduler.RemoveFunction(Work.StartRound);
        ghost var fields := Snapshot();
        assert fields == old(Snapshot());
        state := HiderPhase;
        book := new InvestigationBook();
        deck := new HiderDeck();
        conditions := new ConditionManager(scheduler);
        currPlayer := nextPlayer;
        assert Snapshot() == fields.(state := HiderPhase, currPlayer := fields.nextPlayer);
        assert Valid();
        scheduler.AddFunction(now + HIDING_TIME, Work.ReleaseSeekers);
      }
    }

    /** `_release_seekers`: the phase becomes SEEKERPHASE, the hiding clock starts at `now`,
        the time bonus is reset, and the end of the longest allowed hide is scheduled at
        `now + MAX_SEEKING_TIME`. */
    method ReleaseSeekers(now: int)
      requires Valid()
      modifies this, scheduler
      ensures Valid()
      ensures Snapshot() == old(Snapshot()).(state := SeekerPhase, hideTimeStart := now, hiderTimeBonus := 0)
      ensures book == old(book) && deck == old(deck) && conditions == old(conditions)
      ensures scheduler.functions ==
        old(scheduler.functions) + [Entry(now + MAX_SEEKING_TIME, Work.MaxHidingTimeReached)]
      ensures scheduler.tasks == old(scheduler.tasks)
    {
      state := SeekerPhase;
      hideTimeStart := now;
      scheduler.AddFunction(now + MAX_SEEKING_TIME, Work.MaxHidingTimeReached);
      hiderTimeBonus := 0;
    }

    /** `ask_question`: while a question is active this raises QuestionActive and schedules
        nothing. Otherwise the check of the answer is scheduled at `now` plus the question's
        allocated time, and the active-question condition is set, with no expiry and the
        no-op callback. */
    method AskQuestion(question: Questions.Question, now: int) returns (outcome: Outcome)
      requires Valid()
      modifies scheduler, conditions
      ensures Valid()
      ensures scheduler.tasks == old(scheduler.tasks)
      ensures ActiveQuestion in old(conditions.conditions) ==>
        outcome == Fail(QuestionActive) && conditions.conditions == old(conditions.conditions)
        && scheduler.functions == old(scheduler.functions)
      ensures ActiveQuestion !in old(conditions.conditions) ==>
        outcome == Pass && conditions.conditions == old(conditions.conditions)[ActiveQuestion := NoOp]
        && scheduler.functions == old(scheduler.functions) +
             [Entry(now + Questions.GetAllocatedTime(question), Work.CheckQuestionAnswered(question))]
    {
      if conditions.HasCondition(ActiveQuestion) {
        return Fail(QuestionActive);
      }
      scheduler.AddFunction(now + Questions.GetAllocatedTime(question), Work.CheckQuestionAnswered(question));
      outcome := conditions.AddCondition(ActiveQuestion, None, NoOp, now);
    }

    /** `_check_question_answered`, run when a question's time is up. The count it expects
        is taken when it runs, one more than the book's count then; as the book counts
        nothing, the question is always overdue, so the phase becomes HIDERDELAY whatever it
        was, the delay clock starts at `now` and the question becomes the book's current
        one. */
    method CheckQuestionAnswered(question: Questions.Question, now: int)
      requires Valid()
      modifies this, book
      ensures Valid()
      ensures Snapshot() == old(Snapshot()).(state := HiderDelay, delayStart := now)
      ensures book == old(book) && deck == old(deck) && conditions == old(conditions)
      ensures book.currentQuestion == Some(question)
    {
      var timesAnswered := book.GetTimesAnswered(question) + 1;
      if book.GetTimesAnswered(question) < timesAnswered {
        state := HiderDelay;
        book.RewardMult(0, 1);
        delayStart := now;
        book.SetCurrentQuestion(question);
      }
    }

    /** `answered_question`: fails the assertion of the condition manager when no question is
        active. Otherwise the active-question condition is removed; from HIDERDELAY the
        phase returns to SEEKERPHASE and the hider's bonus loses the seconds spent in the
        delay, and from any other phase nothing else changes. */
    method AnsweredQuestion(now: int) returns (outcome: Outcome)
      requires Valid()
      modifies this, conditions
      ensures Valid()
      ensures book == old(book) && deck == old(deck) && conditions == old(conditions)
      ensures ActiveQuestion !in old(conditions.conditions) ==>
        outcome == Fail(AssertionFailed) && Snapshot() == old(Snapshot())
        && conditions.conditions == old(conditions.conditions)
      ensures ActiveQuestion in old(conditions.conditions) ==>
        outcome == Pass && conditions.conditions == old(conditions.conditions) - {ActiveQuestion}
      ensures ActiveQuestion in old(conditions.conditions) && old(state) == HiderDelay ==>
        Snapshot() == old(Snapshot()).(state := SeekerPhase,
                                       hiderTimeBonus := old(hiderTimeBonus) - (now - old(delayStart)))
      ensures ActiveQuestion in old(conditions.conditions) && old(state) != HiderDelay ==>
        Snapshot() == old(Snapshot())
    {
      var removed := conditions.RemoveCondition(ActiveQuestion);
      if removed.Err? {
        return Fail(removed.error);
      }
      if state == HiderDelay {
        state := SeekerPhase;
        hiderTimeBonus := hiderTimeBonus - (now - delayStart);
        book.QuestionAnswered(deck);
      } else {
        book.QuestionAnswered(deck);
      }
      return Pass;
    }

    /** `hider_caught`: the game becomes INACTIVE, the deck's time bonuses are added to the
        hider's bonus, and the hider's time is recorded (overwriting an earlier one) as the
        seconds since the seekers were released plus the bonus. Then the next hider is
        drawn; when none can be drawn this raises IndexError with those updates made and the
        scheduler untouched. Otherwise the longest-hide entries are removed and
        `start_round` is scheduled at `now + PLANNING_TIME`. */
    method HiderCaught(now: int) returns (outcome: Outcome)
      requires Valid()
      modifies this, scheduler
      ensures Valid()
      ensures scheduler.tasks == old(scheduler.tasks)
      ensures book == old(book) && deck == old(deck) && conditions == old(conditions)
      ensures state == Inactive && hiderTimeBonus == old(hiderTimeBonus) + deck.CountTimeBonuses()
      ensures times == old(times)[old(currPlayer) := now - old(hideTimeStart) + hiderTimeBonus]
      ensures currPlayer == old(currPlayer) && players == old(players)
      ensures outcome.Fail? ==>
        outcome.error == IndexError && scheduler.functions == old(scheduler.functions)
        && Unattempted(players, times) == {} && Slower(times, currPlayer) == {}
      ensures Snapshot() == old(Snapshot()).(state := Inactive, hiderTimeBonus := hiderTimeBonus,
                                             times := times, nextPlayer := nextPlayer)
      ensures outcome.Fail? ==> nextPlayer == old(nextPlayer)
      ensures outcome.Pass? && Unattempted(players, times) != {} ==>
        nextPlayer in Unattempted(players, times)
      ensures outcome.Pass? && Unattempted(players, times) == {} ==>
        nextPlayer in Slower(times, currPlayer)
      ensures outcome.Pass? ==>
        nextPlayer != currPlayer
        && scheduler.functions ==
             Keep(old(scheduler.functions), Work.MaxHidingTimeReached) + [Entry(now + PLANNING_TIME, Work.StartRound)]
    {
      RecordCatch(now);
      ghost var fields := Snapshot();
      var next := ChooseNextPlayer();
      if next.Err? {
        return Fail(next.error);
      }
      nextPlayer := next.value;
      assert Snapshot() == fields.(nextPlayer := next.value) && Valid();
      scheduler.RemoveFunction(Work.MaxHidingTimeReached);
      scheduler.AddFunction(now + PLANNING_TIME, Work.StartRound);
      return Pass;
    }

    /** The updates `hider_caught` makes before it draws the next hider: the game becomes
        INACTIVE, the deck's time bonuses are added to the hider's bonus, and the hider's
        time is recorded. */
    method RecordCatch(now: int)
      requires Valid()
      modifies this
      ensures Valid()
      ensures book == old(book) && deck == old(deck) && conditions == old(conditions)
      ensures hiderTimeBonus == old(hiderTimeBonus) + deck.CountTimeBonuses()
      ensures Snapshot() == old(Snapshot()).(state := Inactive, hiderTimeBonus := hiderTimeBonus,
        times := old(times)[old(currPlayer) := now - old(hideTimeStart) + hiderTimeBonus])
    {
      state := Inactive;
      hiderTimeBonus := hiderTimeBonus + deck.CountTimeBonuses();
      times := times[currPlayer := now - hideTimeStart + hiderTimeBonus];
    }

    /** `get_times`: the recorded hiding times. Every name in it is a player's, or the empty
        name of a hider caught before any round started. */
    function GetTimes(): (r: map<string, int>)
      requires Valid()
      reads this, conditions
      ensures forall p :: p in r ==> p in players || p == NO_PLAYER
    {
      times
    }

    /** Runs one scheduled piece of work, as the closure the source scheduled would, except
        that an expiry removes its condition from the game's current condition manager and
        not from the manager that scheduled it (the two differ once a round has started).
        The handlers reach the scheduler only as follows: a `start_round` that starts a round
        removes every `start_round` entry and adds one `_release_seekers` entry, and
        `_release_seekers` adds one longest-hide entry; both added entries lie in the
        future. A removal of a condition that is not held fails. */
    method Run(work: Work, now: int) returns (outcome: Outcome)
      requires Valid()
      modifies this, scheduler, conditions, book
      ensures Valid()
      ensures scheduler.tasks == old(scheduler.tasks)
      ensures conditions == old(conditions) || fresh(conditions)
      ensures book == old(book) || fresh(book)
      ensures work.StartRound? && old(state) == Inactive ==>
        scheduler.functions ==
          Keep(old(scheduler.functions), Work.StartRound) + [Entry(now + HIDING_TIME, Work.ReleaseSeekers)]
      ensures work.ReleaseSeekers? ==>
        scheduler.functions ==
          old(scheduler.functions) + [Entry(now + MAX_SEEKING_TIME, Work.MaxHidingTimeReached)]
      ensures !(work.StartRound? && old(state) == Inactive) && !work.ReleaseSeekers? ==>
        scheduler.functions == old(scheduler.functions)
      ensures HandlerEffect(work, old(scheduler.functions), scheduler.functions, now)
      ensures outcome.Fail? <==>
        work.RemoveCondition? && work.condition !in old(conditions.conditions)
      ensures outcome.Fail? ==> outcome.error == AssertionFailed
    {
      match work
      case StartRound =>
        StartRound(now);
        outcome := Pass;
      case ReleaseSeekers =>
        ReleaseSeekers(now);
        outcome := Pass;
      case MaxHidingTimeReached =>
        outcome := Pass;
      case CheckQuestionAnswered(question) =>
        CheckQuestionAnswered(question, now);
        outcome := Pass;
      case RemoveCondition(condition) =>
        var removed := conditions.RemoveCondition(condition);
        outcome := if removed.Err? then Fail(removed.error) else Pass;
    }

    /** `Run`, seen from a walk over the lists: what it may do to the function list, and
        that it keeps the future entries of `s0` the walk must not lose. */
    method RunEntry(work: Work, now: int, ghost s0: seq<Entry>) returns (outcome: Outcome)
      requires Valid()
      modifies this, scheduler, conditions, book
      ensures Valid()
      ensures scheduler.tasks == old(scheduler.tasks)
      ensures conditions == old(conditions) || fresh(conditions)
      ensures book == old(book) || fresh(book)
      ensures outcome.Fail? ==> outcome.error == AssertionFailed
      ensures HandlerEffect(work, old(scheduler.functions), scheduler.functions, now)
      ensures Survives(s0, old(scheduler.functions), now) ==> Survives(s0, scheduler.functions, now)
      ensures !work.StartRound? && Extends(old(scheduler.functions), s0, now) ==>
        Extends(scheduler.functions, s0, now)
    {
      ghost var before := scheduler.functions;
      outcome := Run(work, now);
      RunKeepsFuture(work, before, scheduler.functions, s0, now);
    }

    /** `check_tasks`, one tick of the scheduler at `now`. It walks the coroutine list and
        then the function list by index, as Python's list iterator does, running each entry
        that is due; handlers that append to the list being walked are seen by the walk, and
        a `start_round` that removes entries before the current index makes the walk skip
        the entry after it. A handler that fails ends the tick at once, without the final
        filtering. Otherwise both lists are filtered down to the entries still in the
        future. Then:
        - no due entry survives, whether or not it ran;
        - every future entry survives, except `start_round` entries a started round removed;
        - the due coroutine entries ran first, in list order;
        - when no due entry is a `start_round`, exactly the due entries ran, coroutines
          first, each list in order. */
    method CheckTasks(now: int) returns (outcome: Outcome, ran: seq<Work>)
      requires Valid()
      modifies this, scheduler, conditions, book
      ensures Valid()
      ensures outcome.Fail? ==> outcome.error == AssertionFailed && scheduler.tasks == old(scheduler.tasks)
      ensures outcome.Pass? ==> scheduler.tasks == Pending(old(scheduler.tasks), now)
      ensures outcome.Pass? ==> forall e :: e in scheduler.functions ==> now < e.time
      ensures outcome.Pass? ==> forall e ::
        e in old(scheduler.functions) && now < e.time && !e.work.StartRound? ==> e in scheduler.functions
      ensures outcome.Pass? ==> Works(Due(old(scheduler.tasks), now)) <= ran
      ensures outcome.Pass? && NoDueStart(old(scheduler.tasks), now) && NoDueStart(old(scheduler.functions), now) ==>
        ran == Works(Due(old(scheduler.tasks), now)) + Works(Due(old(scheduler.functions), now))
      ensures outcome.Pass? && NoDueStart(old(scheduler.tasks), now) && NoDueStart(old(scheduler.functions), now) ==>
        Extends(scheduler.functions, Pending(old(scheduler.functions), now), now)
    {
      ghost var functions0 := scheduler.functions;
      var ranTasks, ranFunctions;
      outcome, ranTasks := RunDueTasks(now);
      ran := ranTasks;
      if outcome.Fail? {
        return;
      }
      ghost var functions1 := scheduler.functions;
      outcome, ranFunctions := RunDueFunctions(now);
      ran := ranTasks + ranFunctions;
      if outcome.Fail? {
        return;
      }
      ghost var noStart := NoDueStart(old(scheduler.tasks), now) && NoDueStart(functions0, now);
      if noStart {
        ExtendsKeepsDue(functions1, functions0, now);
        ExtendsTrans(scheduler.functions, functions1, functions0, now);
      }
      ghost var functions2 := scheduler.functions;
      scheduler.Prune(now);
      if noStart {
        PendingExtends(functions2, functions0, now);
      }
    }

    /** One due coroutine entry, run by the first loop of `check_tasks`: the function list
        keeps the future entries the walk must not lose. */
    method RunTask(work: Work, now: int, ghost functions0: seq<Entry>, ghost noStart: bool)
      returns (outcome: Outcome)
      requires Valid()
      requires noStart ==> !work.StartRound?
      requires Survives(functions0, scheduler.functions, now)
      requires noStart ==> Extends(scheduler.functions, functions0, now)
      modifies this, scheduler, conditions, book
      ensures Valid()
      ensures scheduler.tasks == old(scheduler.tasks)
      ensures conditions == old(conditions) || fresh(conditions)
      ensures book == old(book) || fresh(book)
      ensures outcome.Fail? ==> outcome.error == AssertionFailed
      ensures Survives(functions0, scheduler.functions, now)
      ensures noStart ==> Extends(scheduler.functions, functions0, now)
    {
      outcome := RunEntry(work, now, functions0);
    }

    /** The first loop of `check_tasks`: every due coroutine entry runs, in list order. No
        handler touches the coroutine list. */
    method RunDueTasks(now: int) returns (outcome: Outcome, ran: seq<Work>)
      requires Valid()
      modifies this, scheduler, conditions, book
      ensures Valid()
      ensures conditions == old(conditions) || fresh(conditions)
      ensures book == old(book) || fresh(book)
      ensures scheduler.tasks == old(scheduler.tasks)
      ensures outcome.Fail? ==> outcome.error == AssertionFailed
      ensures outcome.Pass? ==> ran == Works(Due(old(scheduler.tasks), now))
      ensures Survives(old(scheduler.functions), scheduler.functions, now)
      ensures NoDueStart(old(scheduler.tasks), now) ==> Extends(scheduler.functions, old(scheduler.functions), now)
    {
      ghost var tasks0, functions0 := scheduler.tasks, scheduler.functions;
      ghost var noStart := NoDueStart(tasks0, now);
      ran := [];
      outcome := Pass;
      var i := 0;
      assert functions0[..|functions0|] == functions0;
      while i < |scheduler.tasks|
        invariant 0 <= i <= |tasks0| && scheduler.tasks == tasks0
        invariant outcome == Pass
        invariant Valid()
        invariant conditions == old(conditions) || fresh(conditions)
        invariant book == old(book) || fresh(book)
        invariant ran == Works(Due(tasks0[..i], now))
        invariant Survives(functions0, scheduler.functions, now)
        invariant noStart ==> Extends(scheduler.functions, functions0, now)
      {
        var entry := scheduler.tasks[i];
        RanPrefixStep(tasks0, i, now);
        if now >= entry.time {
          assert entry == tasks0[i] && (noStart ==> !entry.work.StartRound?);
          outcome := RunTask(entry.work, now, functions0, noStart);
          assert scheduler.tasks == tasks0 && Valid();
          ran := ran + [entry.work];
          if outcome.Fail? {
            return;
          }
        }
        i := i + 1;
      }
      assert tasks0[..i] == tasks0;
    }

    /** The second loop of `check_tasks`: walks the function list by index while handlers
        change it. Future entries other than `start_round` are kept; when no due entry is a
        `start_round`, every due entry runs, in list order. */
    method RunDueFunctions(now: int) returns (outcome: Outcome, ran: seq<Work>)
      requires Valid()
      modifies this, scheduler, conditions, book
      ensures Valid()
      ensures conditions == old(conditions) || fresh(conditions)
      ensures book == old(book) || fresh(book)
      ensures scheduler.tasks == old(scheduler.tasks)
      ensures outcome.Fail? ==> outcome.error == AssertionFailed
      ensures Survives(old(scheduler.functions), scheduler.functions, now)
      ensures NoDueStart(old(scheduler.functions), now) ==>
        Extends(scheduler.functions, old(scheduler.functions), now)
      ensures outcome.Pass? && NoDueStart(old(scheduler.functions), now) ==>
        ran == Works(Due(old(scheduler.functions), now))
    {
      ghost var functions0 := scheduler.functions;
      ghost var noStart := NoDueStart(functions0, now);
      ran := [];
      outcome := Pass;
      assert functions0[..|functions0|] == functions0;
      var j := 0;
      while j < |scheduler.functions|
        invariant 0 <= j && outcome == Pass
        invariant Valid()
        invariant conditions == old(conditions) || fresh(conditions)
        invariant book == old(book) || fresh(book)
        invariant scheduler.tasks == old(scheduler.tasks)
        invariant Survives(functions0, scheduler.functions, now)
        invariant noStart ==> Extends(scheduler.functions, functions0, now) && j <= |scheduler.functions|
        invariant noStart ==> ran == Works(Due(functions0[..if j < |functions0| then j else |functions0|], now))
        decreases DueFrom(scheduler.functions, j, now), |scheduler.functions| - j
      {
        var entry := scheduler.functions[j];
        ghost var before := scheduler.functions;
        DueFromStep(before, j, now);
        if j < |functions0| {
          RanPrefixStep(functions0, j, now);
        }
        if now >= entry.time {
          outcome := RunEntry(entry.work, now, functions0);
          ran := ran + [entry.work];
          if outcome.Fail? {
            return;
          }
          RunShrinksDue(entry.work, before, scheduler.functions, j, now);
        }
        j := j + 1;
      }
    }
  }

  /** Entries appended in the future change nothing that is due, and bring no due
      `start_round`. */
  lemma ExtendsKeepsDue(s: seq<Entry>, s0: seq<Entry>, now: int)
    requires Extends(s, s0, now)
    ensures Due(s, now) == Due(s0, now)
    ensures NoDueStart(s0, now) ==> NoDueStart(s, now)
  {
    var extra := s[|s0|..];
    assert s == s0 + extra;
    DueAppend(s0, extra, now);
    DuePendingSplit(extra, now);
    assert Pending(extra, now) == extra by {
      PendingAllFuture(extra, now);
    }
  }

  /** Extending an extension of `s0` extends `s0`. */
  lemma ExtendsTrans(s2: seq<Entry>, s1: seq<Entry>, s0: seq<Entry>, now: int)
    requires Extends(s2, s1, now) && Extends(s1, s0, now)
    ensures Extends(s2, s0, now)
  {
    assert s2[..|s0|] == s1[..|s0|];
  }

  /** The end-of-tick filter of an extension of `s0` is the filter of `s0` followed by the
      appended entries, all of which are in the future. */
  lemma PendingExtends(s: seq<Entry>, s0: seq<Entry>, now: int)
    requires Extends(s, s0, now)
    ensures Extends(Pending(s, now), Pending(s0, now), now)
  {
    var extra := s[|s0|..];
    assert s == s0 + extra;
    PendingAppend(s0, extra, now);
    PendingAllFuture(extra, now);
    assert Pending(s, now)[..|Pending(s0, now)|] == Pending(s0, now);
  }

  /** Every future entry of `s0` other than a `start_round` is still in `s`. */
  predicate Survives(s0: seq<Entry>, s: seq<Entry>, now: int)
  {
    forall e :: e in s0 && now < e.time && !e.work.StartRound? ==> e in s
  }

  /** No due entry of `s` is a `start_round`. */
  predicate NoDueStart(s: seq<Entry>, now: int)
  {
    forall k :: 0 <= k < |s| && s[k].time <= now ==> !s[k].work.StartRound?
  }

  /** `s` is `s0` followed by entries in the future that are not `start_round`. */
  predicate Extends(s: seq<Entry>, s0: seq<Entry>, now: int)
  {
    |s0| <= |s| && s[..|s0|] == s0
    && forall k :: |s0| <= k < |s| ==> now < s[k].time && !s[k].work.StartRound?
  }

  /** What running `work` can do to the function list: nothing, or what a started round or
      a release of the seekers does to it. */
  predicate HandlerEffect(work: Work, before: seq<Entry>, after: seq<Entry>, now: int)
  {
    after == before
    || (work.StartRound? &&
        after == Keep(before, Work.StartRound) + [Entry(now + HIDING_TIME, Work.ReleaseSeekers)])
    || (work.ReleaseSeekers? &&
        after == before + [Entry(now + MAX_SEEKING_TIME, Work.MaxHidingTimeReached)])
  }

  /** A handler removes no future entry other than a `start_round`, and one that is not a
      `start_round` only appends future entries that are not `start_round` either. */
  lemma RunKeepsFuture(work: Work, before: seq<Entry>, after: seq<Entry>, s0: seq<Entry>, now: int)
    requires HandlerEffect(work, before, after, now)
    ensures Survives(s0, before, now) ==> Survives(s0, after, now)
    ensures !work.StartRound? && Extends(before, s0, now) ==> Extends(after, s0, now)
  {
    if !work.StartRound? && Extends(before, s0, now) && after != before {
      assert after[..|s0|] == before[..|s0|];
    }
  }

  /** Running a due entry at index `j` leaves fewer due entries from `j + 1` on than there
      were from `j` on: the measure that ends the walk over a list its handlers change. */
  lemma RunShrinksDue(work: Work, before: seq<Entry>, after: seq<Entry>, j: nat, now: int)
    requires HandlerEffect(work, before, after, now)
    requires j < |before| && before[j].time <= now
    ensures DueFrom(after, j + 1, now) < DueFrom(before, j, now)
  {
    DueFromStep(before, j, now);
    if after == before {
    } else if work.StartRound? && after == Keep(before, Work.StartRound) + [Entry(now + HIDING_TIME, Work.ReleaseSeekers)] {
      DueFromAppendFuture(Keep(before, Work.StartRound), Entry(now + HIDING_TIME, Work.ReleaseSeekers), j + 1, now);
      KeepDueFrom(before, Work.StartRound, j + 1, now);
    } else {
      DueFromAppendFuture(before, Entry(now + MAX_SEEKING_TIME, Work.MaxHidingTimeReached), j + 1, now);
    }
  }
}
