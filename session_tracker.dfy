/** The session state of core/Behavior.py: the Behavior object with its two
    trial histories, the logger it reports the reward total to, and the
    read-only questions the experiment loop asks it. */
module SessionTracker {
  import opened Wrappers
  import opened SessionHistory
  import opened SessionGates

  /** The logging collaborator: Behavior writes `total_reward` and reads
      the setup's `start_time`/`stop_time` (seconds after midnight). */
  class Logger {
    var totalReward: real
    var startTime: int
    var stopTime: int

    constructor (startTime: int, stopTime: int)
      ensures this.totalReward == 0.0
      ensures this.startTime == startTime && this.stopTime == stopTime
    {
      this.totalReward := 0.0;
      this.startTime := startTime;
      this.stopTime := stopTime;
    }
  }

  class Behavior {
    var params: map<string, real>
    var logger: Logger
    var rewProbe: int
    var lickedProbe: int
    var choiceHistory: seq<Option<int>>
    var rewardHistory: seq<Option<real>>

    /** One choice and one reward per recorded trial. */
    ghost predicate Valid()
      reads this
    {
      |choiceHistory| == |rewardHistory|
    }

    /** setup(logger, params): empty histories and zeroed probe counters;
        the logger's reward total is left as it was. */
    constructor Setup(logger: Logger, params: map<string, real>)
      ensures Valid()
      ensures this.logger == logger && this.params == params
      ensures choiceHistory == [] && rewardHistory == []
      ensures rewProbe == 0 && lickedProbe == 0
      ensures unchanged(logger)
    {
      this.params := params;
      this.logger := logger;
      this.rewProbe := 0;
      this.choiceHistory := [];
      this.rewardHistory := [];
      this.lickedProbe := 0;
    }

    /** is_ready: the base behaviour is ready at once and reports no delay. */
    function IsReady(initDuration: real, since: real): (r: (bool, real))
      ensures r.0 && r.1 == 0.0
    {
      (true, 0.0)
    }

    /** get_response: the base behaviour never detects a response. */
    function GetResponse(since: real): (responded: bool)
      ensures !responded
    {
      false
    }

    /** get_cond_tables: the base behaviour names no condition tables. */
    function GetCondTables(): (tables: seq<string>)
      ensures tables == []
    {
      []
    }

    /** reward: the base behaviour reports a delivered reward. */
    function Reward(): (delivered: bool)
      ensures delivered
    {
      true
    }

    /** update_history(choice, reward): append one trial to both histories
        and recompute the logger's total from the whole reward history. */
    method UpdateHistory(choice: Option<int>, reward: Option<real>)
      requires Valid()
      modifies this`choiceHistory, this`rewardHistory, logger`totalReward
      ensures Valid()
      ensures choiceHistory == old(choiceHistory) + [choice]
      ensures rewardHistory == old(rewardHistory) + [reward]
      ensures logger.totalReward == NanSum(rewardHistory)
      ensures logger.totalReward == NanSum(old(rewardHistory)) + RewardOrZero(reward)
    {
      choiceHistory := choiceHistory + [choice];
      rewardHistory := rewardHistory + [reward];
      logger.totalReward := NanSum(rewardHistory);
      NanSumAppend(old(rewardHistory), reward);
    }

    /** get_false_history(h): the current failure streak within the
        trials `[-h:]` keeps (all of them for h == 0, all but the first -h
        for h < 0). */
    function GetFalseHistory(h: int): (n: nat)
      reads this
      requires Valid()
      ensures n <= WindowLength(|choiceHistory|, h)
      ensures n <= |choiceHistory|
      ensures h > 0 ==> n <= h
      ensures forall i :: |choiceHistory| - n <= i < |choiceHistory| ==>
                IsFailedTrial(choiceHistory[i], rewardHistory[i])
      ensures n < WindowLength(|choiceHistory|, h) ==>
                !IsFailedTrial(choiceHistory[|choiceHistory| - 1 - n], rewardHistory[|rewardHistory| - 1 - n])
      ensures (choiceHistory != [] &&
               !IsFailedTrial(choiceHistory[|choiceHistory| - 1], rewardHistory[|rewardHistory| - 1])) ==> n == 0
    {
      FalseStreak(choiceHistory, rewardHistory, h)
    }

    /** is_sleep_time at instant now, for offsets inside one day. */
    function IsSleepTime(now: int): (sleep: bool)
      reads this, logger
      ensures 0 <= logger.startTime < Day && 0 <= logger.stopTime < Day ==>
                sleep == if logger.startTime <= logger.stopTime
                         then now % Day < logger.startTime || now % Day > logger.stopTime
                         else now % Day < logger.startTime
    {
      var sleep := SleepTimeAt(now, logger.startTime, logger.stopTime);
      if 0 <= logger.startTime < Day && 0 <= logger.stopTime < Day then
        SleepTimeOfDay(now, logger.startTime, logger.stopTime);
        sleep
      else
        sleep
    }

    /** is_hydrated(rew). `params['max_reward']` is only looked up when
        `rew` is zero, and raises there when the key is missing. */
    function IsHydrated(rew: real): (hydrated: bool)
      reads this, logger
      requires rew == 0.0 ==> "max_reward" in params
      ensures rew != 0.0 ==> (hydrated <==> logger.totalReward >= rew)
      ensures rew == 0.0 ==> (hydrated <==> params["max_reward"] != 0.0 &&
                                             logger.totalReward >= params["max_reward"])
    {
      var maxReward := if "max_reward" in params then params["max_reward"] else 0.0;
      Hydrated(logger.totalReward, rew, maxReward)
    }
  }
}
