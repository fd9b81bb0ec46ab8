/** Client code driving the model the way the experiment loop drives
    Behavior; each assertion follows from the contracts alone. */
module Scenarios {
  import opened Wrappers
  import opened ConditionRegistry
  import opened SessionHistory
  import opened SessionGates
  import opened SessionTracker

  /** Three chosen but unrewarded trials make a streak of three; a rewarded
      trial resets it and becomes the whole reward total. */
  method FailureStreakSession() {
    var logger := new Logger(22 * 3600, 6 * 3600);
    var b := new Behavior.Setup(logger, map["max_reward" := 10.0]);
    b.UpdateHistory(Some(1), None);
    b.UpdateHistory(Some(1), None);
    b.UpdateHistory(Some(1), None);
    assert b.choiceHistory == [Some(1), Some(1), Some(1)];
    assert b.rewardHistory == [None, None, None];
    StreakOfThreeMisses(1, 5.0);
    assert b.GetFalseHistory(10) == 3;
    b.UpdateHistory(Some(1), Some(5.0));
    assert b.GetFalseHistory(10) == 0;
  }

  /** The reward total counts missing rewards as zero, and a cap of ten is
      reached only once the total gets there. */
  method HydrationSession() {
    var logger := new Logger(0, 0);
    var b := new Behavior.Setup(logger, map["max_reward" := 10.0]);
    b.UpdateHistory(Some(1), Some(4.0));
    b.UpdateHistory(None, None);
    assert logger.totalReward == 4.0;
    assert !b.IsHydrated(0.0);
    assert b.IsHydrated(4.0);
    b.UpdateHistory(Some(2), Some(6.0));
    assert logger.totalReward == 10.0;
    assert b.IsHydrated(0.0);
  }

  /** With a 22:00-06:00 window the source is awake at 23:00 and asleep at
      noon, and, because start is always today's, asleep at 05:00 too. */
  method OvernightWindow(day: int) {
    var logger := new Logger(22 * 3600, 6 * 3600);
    var b := new Behavior.Setup(logger, map[]);
    var midnight := day * Day;
    assert (midnight + 23 * 3600) % Day == 23 * 3600;
    assert (midnight + 12 * 3600) % Day == 12 * 3600;
    assert (midnight + 5 * 3600) % Day == 5 * 3600;
    assert !b.IsSleepTime(midnight + 23 * 3600);
    assert b.IsSleepTime(midnight + 12 * 3600);
    assert b.IsSleepTime(midnight + 5 * 3600);
  }

  /** A condition without `reward_amount` is refused and left as it was. */
  method RefuseIncompleteCondition() {
    var incomplete := new Condition(map["port_id" := Int(1)]);
    assert "reward_amount" !in incomplete.fields;
    var r := MakeConditions([incomplete]);
    assert r.Failure? && r.error.index == 0;
    assert incomplete.fields == map["port_id" := Int(1)];
  }

  /** Complete conditions get the defaults underneath their own values. */
  method FillDefaults() {
    var plain := new Condition(map["port_id" := Int(1), "reward_amount" := Int(5)]);
    var sucrose := new Condition(map["port_id" := Int(1), "reward_amount" := Int(5),
                                     "reward_type" := Text("sucrose")]);
    ghost var plainFields, sucroseFields := plain.fields, sucrose.fields;
    assert HasRequired(plainFields) && HasRequired(sucroseFields);
    var r := MakeConditions([plain, sucrose]);
    assert r.Success?;
    assert r.value.conditionTables == ["BehCondition", "Reward"];
    EnrichConditionDefaults(plainFields);
    EnrichConditionDefaults(sucroseFields);
    assert plain.fields["reward_type"] == Text("water");
    assert plain.fields["conf_version"] == Int(1);
    assert sucrose.fields["reward_type"] == Text("sucrose");
    assert sucrose.fields[BehaviorClassKey] == Text("Reward");
  }
}
