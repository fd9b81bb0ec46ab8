/** The two session gates of Behavior: the time-of-day window
    (is_sleep_time) and the hydration threshold (is_hydrated).
    Instants are whole seconds on the local clock; the setup offsets
    `start_time` and `stop_time` are seconds after midnight. */
module SessionGates {
  import opened Wrappers
  import opened SessionHistory

  const Day: int := 86400

  /** `now.replace(hour=0, minute=0, second=0)`: the start of now's day. */
  function Midnight(now: int): (m: int)
    ensures m <= now < m + Day
    ensures m % Day == 0
  {
    now - now % Day
  }

  /** is_sleep_time: start and stop are taken on today's date, and stop is
      pushed to the next day when it falls before start. The result is
      true outside [start, stop], so both ends count as awake. */
  function SleepTimeAt(now: int, startOffset: int, stopOffset: int): bool
  {
    var start := Midnight(now) + startOffset;
    var stop0 := Midnight(now) + stopOffset;
    var stop := if stop0 < start then stop0 + Day else stop0;
    now < start || now > stop
  }

  /** The gate in time-of-day terms, for offsets inside one day. A daytime
      window [start, stop] is awake exactly inside it. An overnight window
      (stop before start) is awake from start until midnight only: start is
      always today's, so in the small hours `now < start` holds and the
      session sleeps although the window has not yet closed. */
  lemma SleepTimeOfDay(now: int, startOffset: int, stopOffset: int)
    requires 0 <= startOffset < Day && 0 <= stopOffset < Day
    ensures SleepTimeAt(now, startOffset, stopOffset) ==
            if startOffset <= stopOffset then now % Day < startOffset || now % Day > stopOffset
            else now % Day < startOffset
  {
    var m := Midnight(now);
    assert now - m == now % Day;
  }

  /** The window's two end instants themselves count as awake. */
  lemma WindowEndsAreAwake(now: int, startOffset: int, stopOffset: int)
    requires 0 <= startOffset < Day && 0 <= stopOffset < Day
    ensures now % Day == startOffset ==> !SleepTimeAt(now, startOffset, stopOffset)
    ensures startOffset <= stopOffset && now % Day == stopOffset ==> !SleepTimeAt(now, startOffset, stopOffset)
  {
    SleepTimeOfDay(now, startOffset, stopOffset);
  }

  /** is_hydrated(rew): a non-zero `rew` is the threshold; otherwise a
      non-zero `max_reward` is; with neither the session is never hydrated.
      Python's False is 0 and True is 1. */
  function Hydrated(totalReward: real, rew: real, maxReward: real): bool
  {
    if rew != 0.0 then totalReward >= rew
    else if maxReward != 0.0 then totalReward >= maxReward
    else false
  }

  /** Once hydrated, a session stays hydrated as non-negative rewards are
      recorded: the recomputed total never drops below its old value. */
  lemma HydrationPersists(rewards: seq<Option<real>>, more: seq<Option<real>>, rew: real, maxReward: real)
    requires forall i :: 0 <= i < |more| ==> RewardOrZero(more[i]) >= 0.0
    requires Hydrated(NanSum(rewards), rew, maxReward)
    ensures Hydrated(NanSum(rewards + more), rew, maxReward)
  {
    NanSumMonotone(rewards, more);
  }
}
