/** The condition manager: which conditions (status effects) the game currently has, each
    with the callback to run when it is removed. */
module Conditions {
  import opened Exceptions
  import opened ConditionKinds
  import opened TaskScheduling

  /** The callback stored with a condition. The default is a no-op; any other callback is
      code outside this model, told apart by a number. */
  datatype Callback = NoOp | External(id: nat)

  class ConditionManager {
    var conditions: map<Condition, Callback>
    /** The scheduler that expiry entries go to. */
    const scheduler: TaskScheduler

    constructor (scheduler: TaskScheduler)
      ensures conditions == map[]
      ensures this.scheduler == scheduler
    {
      conditions := map[];
      this.scheduler := scheduler;
    }

    /** `add_condition`: a condition already present is an assertion failure and changes
        nothing. Otherwise the condition is stored with its callback (a no-op unless one is
        given) and, when a duration is given, one entry removing it is scheduled at
        `now + duration`; without a duration nothing is scheduled. */
    method AddCondition(condition: Condition, duration: Option<int>, callback: Callback, now: int)
      returns (outcome: Outcome)
      modifies this, scheduler
      ensures condition in old(conditions) ==>
        outcome == Fail(AssertionFailed) && conditions == old(conditions)
        && scheduler.functions == old(scheduler.functions)
      ensures condition !in old(conditions) ==>
        outcome == Pass && conditions == old(conditions)[condition := callback]
        && scheduler.functions == old(scheduler.functions) +
             (if duration.Some? then [Entry(now + duration.value, Work.RemoveCondition(condition))] else [])
      ensures scheduler.tasks == old(scheduler.tasks)
    {
      if condition in conditions {
        return Fail(AssertionFailed);
      }
      conditions := conditions[condition := callback];
      if duration.Some? {
        scheduler.AddFunction(now + duration.value, Work.RemoveCondition(condition));
      }
      return Pass;
    }

    /** `has_condition`: plain membership; reading it changes nothing. */
    predicate HasCondition(condition: Condition)
      reads this
    {
      condition in conditions
    }

    /** `remove_condition`: an absent condition is an assertion failure and changes nothing.
        Otherwise the condition is removed and its callback is handed back to be run once;
        every other condition keeps its callback, and the scheduler is not touched, so an
        expiry entry scheduled for the condition stays pending. */
    method RemoveCondition(condition: Condition) returns (r: Result<Callback>)
      modifies this
      ensures condition !in old(conditions) ==>
        r == Err(AssertionFailed) && conditions == old(conditions)
      ensures condition in old(conditions) ==>
        r == Ok(old(conditions)[condition]) && conditions == old(conditions) - {condition}
    {
      if condition !in conditions {
        return Err(AssertionFailed);
      }
      var callback := conditions[condition];
      conditions := conditions - {condition};
      return Ok(callback);
    }
  }

  /** Adding a condition and then removing it hands back the callback given; removing it a
      second time fails. */
  method AddThenRemove(scheduler: TaskScheduler, condition: Condition, callback: Callback, now: int)
    returns (first: Result<Callback>, second: Result<Callback>)
    modifies scheduler
    ensures first == Ok(callback)
    ensures second == Err(AssertionFailed)
  {
    var manager := new ConditionManager(scheduler);
    var added := manager.AddCondition(condition, None, callback, now);
    assert added == Pass;
    first := manager.RemoveCondition(condition);
    second := manager.RemoveCondition(condition);
  }

  /** Removing a condition by hand does not cancel its expiry: the entry stays scheduled, and
      when it fires the removal it performs fails the absence assertion. */
  method ExpiryAfterManualRemoval(scheduler: TaskScheduler, condition: Condition, duration: int, now: int)
    returns (manual: Result<Callback>, expiry: Result<Callback>)
    modifies scheduler
    ensures manual == Ok(NoOp)
    ensures Entry(now + duration, Work.RemoveCondition(condition)) in scheduler.functions
    ensures expiry == Err(AssertionFailed)
  {
    var manager := new ConditionManager(scheduler);
    var added := manager.AddCondition(condition, Some(duration), NoOp, now);
    assert added == Pass;
    manual := manager.RemoveCondition(condition);
    var entry := scheduler.functions[|scheduler.functions| - 1];
    expiry := manager.RemoveCondition(entry.work.condition);
  }
}
