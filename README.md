# Behavior session model (EthoPy)

A verified Dafny model of the `Behavior` class of EthoPy's `core/Behavior.py`, the part of the
experiment framework that:

- registers reward conditions for the persistence layer (`make_conditions`);
- keeps the per-session choice and reward histories (`setup`, `update_history`);
- derives the reward total and the current failure streak (`get_false_history`);
- gates the session by time of day (`is_sleep_time`) and by cumulative reward (`is_hydrated`).

Modules, one per part of the class:

- `ConditionRegistry` (condition_registry.dfy): the class constants `cond_tables`,
  `required_fields` and `default_key`. A caller's condition dictionary is a `Condition` object
  whose `fields` map `MakeConditions` rewrites in place, as `cond.update(...)` does.
  `Enrich` is the merge `{**default_key, **cond, 'behavior_class': cond_tables[0]}` followed by
  the update.
- `SessionHistory` (session_history.dfy): pure functions over the two histories.
  - `NanSum` is `np.nansum`.
  - `TailSlice` is Python's `idx[-h:]`, for every integer `h`.
  - `Flip`, `CumProd` and `Sum` are the NumPy calls of `get_false_history`.
  - `FalseStreak` is their composition.
  - A missing value (NumPy's NaN) is `None`.
- `SessionGates` (session_gates.dfy): the time-of-day window and the hydration threshold, as
  functions of their inputs.
- `SessionTracker` (session_tracker.dfy): the `Logger` collaborator, which holds `total_reward`
  and the setup's `start_time`/`stop_time`, and the `Behavior` class.
  - `setup` is the constructor `Behavior.Setup`.
  - `update_history` is a method that appends to both history fields and writes
    `logger.totalReward`.
  - The remaining operations only read state and are functions.
- `Scenarios` (scenarios.dfy): client methods that drive the model as the experiment loop does.
  They show that the contracts alone fix the outcomes: a streak of three, its reset, the
  hydration cap, the 22:00–06:00 window, a refused condition, and defaults under a caller's own
  value.

Time is an integer count of seconds on the local clock; `now` is a parameter. Rewards are
`real`; Python's `False`/`True` passed as `rew` are `0.0`/`1.0`, and a zero (falsy) `rew` or
`max_reward` falls through exactly as in the source.

Where the evident intent and the code differ, the model follows the code:

- With an overnight window (stop before start, e.g. 22:00–06:00), `is_sleep_time` takes start
  from today's date. So in the small hours `now < start` holds and the session sleeps (05:00
  is sleep time), although the window is meant to stay open until 06:00.
  `SessionGates.SleepTimeOfDay` states this: an overnight window is awake only from start to
  midnight.
- `make_conditions` evidently means to refuse a condition set with a missing field before
  registering any of it. The code raises a bare assertion inside the loop, after every earlier condition
  has already been enriched in place. `MakeConditions` returns `Failure` carrying the position
  of the offending condition. Its contract says which conditions were changed and which were
  not.
- The reward total is recomputed from the whole reward history on every update, not
  incremented through an `addReward` call. `NanSumAppend` shows that the two agree.

## Model

| member | source | states |
|---|---|---|
| ConditionRegistry.MakeConditions | core/Behavior.py:122-128 | succeeds exactly when every condition has `reward_amount` and `port_id`; on success returns the caller's own list with tables `['BehCondition', 'Reward']`, schema `'behavior'`, hash field `'beh_hash'`, and every listed condition is enriched from its original contents (a dictionary listed twice ends the same); on failure at position k the earlier conditions all had the fields and are enriched, the k-th lacked one, and every condition not before k is unchanged |
| ConditionRegistry.Enrich | core/Behavior.py:126 | the merged dictionary `{**defaults, **cond, 'behavior_class': cls}` written over the caller's own; its precedence rules are stated by EnrichPrecedence and its idempotence by EnrichIdempotent |
| ConditionRegistry.EnrichPrecedence | core/Behavior.py:126 | the enriched dictionary has exactly the default keys, the caller's keys and `behavior_class`; caller values win over defaults, defaults fill only absent keys, `behavior_class` is forced to the table name |
| ConditionRegistry.EnrichConditionDefaults | core/Behavior.py:87-89 | with Behavior's constants, `reward_type` is 'water' and `conf_version` is 1 unless the caller supplied them, `behavior_class` is 'Reward', every other caller value is kept, and no other key is added |
| ConditionRegistry.EnrichIdempotent | core/Behavior.py:126 | enriching an enriched dictionary gives the same dictionary |
| ConditionRegistry.EnrichKeepsRequired | core/Behavior.py:125-126 | a condition has the required fields after enrichment exactly when it had them before |
| SessionTracker.Behavior.Setup | core/Behavior.py:91-102 | histories empty, `rew_probe` and `licked_probe` zero, logger and params stored, and the logger (its `total_reward` included) untouched |
| SessionTracker.Behavior.IsReady | core/Behavior.py:104-105 | the base hook is always ready and reports zero waiting time |
| SessionTracker.Behavior.GetResponse | core/Behavior.py:107-108 | the base hook never reports a response |
| SessionTracker.Behavior.GetCondTables | core/Behavior.py:110-111 | the base hook names no condition tables |
| SessionTracker.Behavior.Reward | core/Behavior.py:113-114 | the base hook always reports a delivered reward |
| SessionTracker.Behavior.UpdateHistory | core/Behavior.py:133-136 | appends exactly the choice and the reward, keeps all earlier entries and the equal lengths, and sets the logger's total to the NaN-skipping sum of the whole new reward history, which equals the old history's sum plus the new reward (zero when missing) |
| SessionHistory.NanSum | core/Behavior.py:136 | `np.nansum` over the reward history, a missing reward adding nothing; stated as a running total by NanSumAppend, zero on an all-missing history by NanSumAllMissing, and non-decreasing by NanSumMonotone |
| SessionHistory.NanSumAppend | core/Behavior.py:136 | recomputing the sum after an append equals adding the new reward (missing counts as zero) to the previous sum |
| SessionHistory.NanSumAllMissing | core/Behavior.py:136 | a history with every reward missing sums to zero |
| SessionHistory.NanSumMonotone | core/Behavior.py:136 | appending non-negative or missing rewards never lowers the total |
| SessionHistory.FailureMask | core/Behavior.py:139 | the array `idx`: entry i is true exactly when trial i has a choice and no reward (IsFailedTrial); FlippedWindowAt states how its window is read |
| SessionHistory.TailSlice | core/Behavior.py:140 | `xs[-h:]` is a suffix of xs: the last min(h, len) items for h > 0, the whole list for h == 0, and all but the first -h items for h < 0 |
| SessionHistory.WindowLength | core/Behavior.py:140 | the number of trials looked at is min(h, len) for h > 0, the whole history for h == 0, and never more than the history |
| SessionHistory.Flip | core/Behavior.py:140 | `np.flip` keeps the length and puts item len-1-i at position i |
| SessionHistory.CumProdFrom | core/Behavior.py:140 | `np.cumprod` over a boolean array continuing a running product; CumProdSumIsLeadingRun states what summing it gives |
| SessionHistory.CumProd | core/Behavior.py:140 | `np.cumprod` from a product of 1; its sum is the leading run of true entries (CumProdSumIsLeadingRun) |
| SessionHistory.Sum | core/Behavior.py:140 | `np.sum` over an integer array; summing the cumulative product counts the leading run (CumProdSumIsLeadingRun) |
| SessionHistory.LeadingRun | core/Behavior.py:140 | the count of leading true entries: all entries before it are true and the entry at it (if any) is false |
| SessionHistory.CumProdSumIsLeadingRun | core/Behavior.py:140 | the sum of the cumulative product of a boolean array equals its leading run of true entries |
| SessionHistory.FalseStreak | core/Behavior.py:138-140 | the result is at most the look-back window, the last n trials each have a choice and no reward, and the trial just before them inside the window does not |
| SessionHistory.FalseStreakUnique | core/Behavior.py:138-140 | any count with those three properties is the streak, so they define it completely |
| SessionHistory.StreakIsClippedRun | core/Behavior.py:140 | the streak over the last h trials is the unlimited streak (h == 0) clipped to the window length |
| SessionHistory.StreakResets | core/Behavior.py:139-140 | after a trial with a reward or without a choice the streak is 0, whatever h is |
| SessionHistory.StreakGrows | core/Behavior.py:139-140 | a trial with a choice and no reward raises the unlimited streak by exactly one |
| SessionHistory.StreakOfThreeMisses | core/Behavior.py:138-140 | three chosen, unrewarded trials give 3 with the default h = 10; a fourth, rewarded trial gives 0 |
| SessionTracker.Behavior.GetFalseHistory | core/Behavior.py:138-140 | the streak is at most the number of trials `[-h:]` keeps (so at most the history length, and at most h for h > 0), the last n recorded trials are all chosen-but-unrewarded, the trial before them inside the look-back window is not, and it is 0 when the latest trial has a reward or no choice |
| SessionGates.Midnight | core/Behavior.py:144-145 | the start of now's day: a multiple of one day, at or before now and less than a day before it |
| SessionGates.SleepTimeAt | core/Behavior.py:143-150 | the gate as written: start and stop on today's date, stop moved to the next day when before start, sleep strictly outside [start, stop]; SleepTimeOfDay restates it in time of day and WindowEndsAreAwake states the ends |
| SessionGates.SleepTimeOfDay | core/Behavior.py:142-150 | for offsets within a day: a daytime window sleeps exactly when the time of day is before start or after stop; an overnight window (stop rolled to the next day) sleeps exactly when the time of day is before start |
| SessionGates.WindowEndsAreAwake | core/Behavior.py:149 | the comparisons are strict: the start instant, and for a daytime window the stop instant, count as awake |
| SessionTracker.Behavior.IsSleepTime | core/Behavior.py:142-150 | the session's gate at instant now, in the time-of-day terms of SleepTimeOfDay for the logger's start and stop offsets |
| SessionGates.Hydrated | core/Behavior.py:153-158 | the truthiness chain of `is_hydrated`: a non-zero rew is the threshold, else a non-zero max_reward, else false; HydrationPersists states that it stays true as rewards are added, and IsHydrated's contract states both branches |
| SessionGates.HydrationPersists | core/Behavior.py:152-158 | once the recomputed total meets the threshold, recording further non-negative or missing rewards keeps it met |
| SessionTracker.Behavior.IsHydrated | core/Behavior.py:152-158 | a non-zero `rew` is the threshold for the total; a zero `rew` defers to a non-zero `max_reward`; with both zero the answer is false whatever the total |

## Left out

- The DataJoint table declarations `Rewards`, `Punishments`, `BehCondition` (with `Trial`),
  `Ports`, `PortCalibration` (with `Liquid`) and `PortTest`
  (core/Behavior.py:5-82). They are schema strings for an external database and have no
  control flow.
- Hash computation and row insertion for the request `make_conditions` returns. These belong to
  the persistence layer, which is not part of this model.
- `Timer`, `resp_timer` and the `core.Experiment` star-import (core/Behavior.py:2, 93-94).
  They are an external timing primitive that no modelled operation reads.
- `datetime.now()` and the console `print` in `is_sleep_time`. The instant is a parameter and
  there is no output.
- The microseconds that `replace(hour=0, minute=0, second=0)` leaves in place. Instants are
  whole seconds.
- NumPy floating point and NaN. Missing values are `None`, sums are exact `real` sums, and
  there is no rounding.
- The unused fields `choices`, `reward_amount` and `curr_cond`, and the no-op hooks `prepare`,
  `punish` and `cleanup` (core/Behavior.py:97, 101-102, 116-120, 130-131). They have no
  behaviour to state.
- Condition values other than integers, reals and text. Only the merge precedence of keys
  matters to the registry.
- Default arguments (`since=0`, `choice=np.nan`, `reward=np.nan`, `h=10`, `rew=False`) are not
  modelled: callers pass every argument. `params` is held as a map value, so later changes to
  the caller's shared dictionary (e.g. `max_reward`) are not seen by `is_hydrated`. `setup` is
  the constructor, so calling it a second time on the same object is not modelled.
- Running Python with assertions disabled (`-O`), which would skip the required-field check.
- ConditionRegistry.MakeConditions: the source's `AssertionError` carries no information. The
  model's failure value carries the position of the offending condition so that the contract
  can name it.
- SessionTracker.Behavior.IsHydrated: a `params` map without `max_reward` raises `KeyError`
  when `rew` is falsy. This is a precondition for that case only.
- SessionTracker.Behavior.IsSleepTime: its contract speaks only of start and stop offsets
  inside one day. For other offsets it computes the source's comparison (`SleepTimeAt`), but
  the contract states nothing about that case.
