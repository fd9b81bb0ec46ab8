/** The statistics Behavior derives from its two trial histories:
    the cumulative reward (np.nansum) and the current failure streak
    (get_false_history). A missing value (NaN in the histories) is None. */
module SessionHistory {
  import opened Wrappers

  function Min(a: int, b: int): int { if a <= b then a else b }

  /** A reward slot as np.nansum sees it: a missing reward adds nothing. */
  function RewardOrZero(r: Option<real>): real {
    r.GetOr(0.0)
  }

  /** np.nansum(reward_history). */
  function NanSum(rewards: seq<Option<real>>): real
  {
    if rewards == [] then 0.0 else RewardOrZero(rewards[0]) + NanSum(rewards[1..])
  }

  /** Recomputing the sum after an append equals adding the new reward to
      the previous sum: the recomputed total is a running total. */
  lemma {:induction false} NanSumAppend(rewards: seq<Option<real>>, r: Option<real>)
    ensures NanSum(rewards + [r]) == NanSum(rewards) + RewardOrZero(r)
  {
    if rewards != [] {
      assert (rewards + [r])[1..] == rewards[1..] + [r];
      NanSumAppend(rewards[1..], r);
    }
  }

  /** A history with no reward at all sums to zero (nansum of all-NaN is 0). */
  lemma {:induction false} NanSumAllMissing(rewards: seq<Option<real>>)
    requires forall i :: 0 <= i < |rewards| ==> rewards[i].None?
    ensures NanSum(rewards) == 0.0
  {
    if rewards != [] {
      NanSumAllMissing(rewards[1..]);
    }
  }

  /** With non-negative rewards the total is non-negative and never
      decreases as the history grows. */
  lemma {:induction false} NanSumMonotone(rewards: seq<Option<real>>, more: seq<Option<real>>)
    requires forall i :: 0 <= i < |more| ==> RewardOrZero(more[i]) >= 0.0
    ensures NanSum(rewards + more) >= NanSum(rewards)
  {
    if more != [] {
      var front := more[..|more| - 1];
      var last := more[|more| - 1];
      assert more == front + [last];
      assert rewards + more == (rewards + front) + [last];
      NanSumMonotone(rewards, front);
      NanSumAppend(rewards + front, last);
      assert RewardOrZero(last) >= 0.0;
    } else {
      assert rewards + more == rewards;
    }
  }

  /** A trial that counts towards the failure streak: a choice was made
      (`~isnan(choice)`) and no reward was given (`isnan(reward)`). */
  predicate IsFailedTrial(choice: Option<int>, reward: Option<real>) {
    reward.None? && choice.Some?
  }

  /** The boolean array `idx` of get_false_history. */
  function FailureMask(choices: seq<Option<int>>, rewards: seq<Option<real>>): seq<bool>
    requires |choices| == |rewards|
  {
    seq(|choices|, i requires 0 <= i < |choices| => IsFailedTrial(choices[i], rewards[i]))
  }

  /** Python's normalisation of a slice start `start` on a list of length n. */
  function SliceStart(n: nat, start: int): nat
  {
    if start < 0 then (if start + n < 0 then 0 else start + n)
    else if start > n then n else start
  }

  /** Python's `xs[-h:]`: the last h items for h > 0 (all of them when
      fewer), the whole list for h == 0 (`-0` is `0`), and the list without
      its first -h items for h < 0. */
  function TailSlice<T>(xs: seq<T>, h: int): (r: seq<T>)
    ensures |r| <= |xs| && r == xs[|xs| - |r|..]
    ensures h > 0 ==> |r| == Min(h, |xs|)
    ensures h == 0 ==> r == xs
    ensures h < 0 ==> |r| == if |xs| + h < 0 then 0 else |xs| + h
  {
    xs[SliceStart(|xs|, -h)..]
  }

  /** The number of trials get_false_history looks at: |history[-h:]|. */
  function WindowLength(n: nat, h: int): (w: nat)
    ensures w <= n
    ensures h > 0 ==> w == Min(h, n)
    ensures h == 0 ==> w == n
  {
    n - SliceStart(n, -h)
  }

  /** np.flip. */
  function Flip<T>(xs: seq<T>): (r: seq<T>)
    ensures |r| == |xs|
    ensures forall i :: 0 <= i < |xs| ==> r[i] == xs[|xs| - 1 - i]
  {
    if xs == [] then [] else [xs[|xs| - 1]] + Flip(xs[..|xs| - 1])
  }

  /** np.cumprod over a boolean array, continuing a running product p:
      each entry is the product so far, as an integer. Multiplying by a
      boolean keeps p (true) or zeroes it (false). */
  function CumProdFrom(p: int, bs: seq<bool>): seq<int>
    decreases |bs|
  {
    if bs == [] then [] else
      var q := if bs[0] then p else 0;
      [q] + CumProdFrom(q, bs[1..])
  }

  function CumProd(bs: seq<bool>): seq<int> {
    CumProdFrom(1, bs)
  }

  /** np.sum over an integer array. */
  function Sum(xs: seq<int>): int {
    if xs == [] then 0 else xs[0] + Sum(xs[1..])
  }

  /** The number of leading true entries: the longest all-true prefix. */
  function LeadingRun(bs: seq<bool>): (n: nat)
    ensures n <= |bs|
    ensures forall i :: 0 <= i < n ==> bs[i]
    ensures n < |bs| ==> !bs[n]
  {
    if bs == [] || !bs[0] then 0 else 1 + LeadingRun(bs[1..])
  }

  /** Summing the cumulative product of a boolean array counts its leading
      run: the product stays 1 while the entries are true and is 0 from the
      first false entry on. */
  lemma {:induction false} CumProdSumIsLeadingRun(p: int, bs: seq<bool>)
    requires p == 0 || p == 1
    ensures Sum(CumProdFrom(p, bs)) == if p == 1 then LeadingRun(bs) else 0
  {
    if bs != [] {
      var q := if bs[0] then p else 0;
      CumProdSumIsLeadingRun(q, bs[1..]);
    }
  }

  /** Entry j of the flipped window is the failure flag of the j-th most
      recent trial. */
  lemma FlippedWindowAt(choices: seq<Option<int>>, rewards: seq<Option<real>>, h: int, j: nat)
    requires |choices| == |rewards|
    requires j < WindowLength(|choices|, h)
    ensures |Flip(TailSlice(FailureMask(choices, rewards), h))| == WindowLength(|choices|, h)
    ensures Flip(TailSlice(FailureMask(choices, rewards), h))[j] ==
            IsFailedTrial(choices[|choices| - 1 - j], rewards[|choices| - 1 - j])
  {
    var mask := FailureMask(choices, rewards);
    var window := TailSlice(mask, h);
    var L, W := |choices|, |window|;
    assert window[W - 1 - j] == mask[L - 1 - j];
  }

  /** The leading run of the flipped window is the trailing run of failed
      trials among the last WindowLength(|history|, h) trials. */
  lemma WindowRunFacts(choices: seq<Option<int>>, rewards: seq<Option<real>>, h: int)
    requires |choices| == |rewards|
    ensures var n := LeadingRun(Flip(TailSlice(FailureMask(choices, rewards), h)));
      && n <= WindowLength(|choices|, h)
      && (forall i :: |choices| - n <= i < |choices| ==> IsFailedTrial(choices[i], rewards[i]))
      && (n < WindowLength(|choices|, h) ==>
            !IsFailedTrial(choices[|choices| - 1 - n], rewards[|choices| - 1 - n]))
  {
    var flipped := Flip(TailSlice(FailureMask(choices, rewards), h));
    var n := LeadingRun(flipped);
    var L, W := |choices|, WindowLength(|choices|, h);
    if W == 0 {
      assert flipped == [];
    } else {
      FlippedWindowAt(choices, rewards, h, 0);
    }
    forall i | L - n <= i < L
      ensures IsFailedTrial(choices[i], rewards[i])
    {
      FlippedWindowAt(choices, rewards, h, L - 1 - i);
    }
    if n < W {
      FlippedWindowAt(choices, rewards, h, n);
    }
  }

  /** get_false_history(h): `np.sum(np.cumprod(np.flip(idx[-h:])))`.
      The result is the length of the trailing run of failed trials within
      the last WindowLength(|history|, h) trials. */
  function FalseStreak(choices: seq<Option<int>>, rewards: seq<Option<real>>, h: int): (n: nat)
    requires |choices| == |rewards|
    ensures n <= WindowLength(|choices|, h)
    ensures forall i :: |choices| - n <= i < |choices| ==> IsFailedTrial(choices[i], rewards[i])
    ensures n < WindowLength(|choices|, h) ==>
              !IsFailedTrial(choices[|choices| - 1 - n], rewards[|choices| - 1 - n])
  {
    var flipped := Flip(TailSlice(FailureMask(choices, rewards), h));
    CumProdSumIsLeadingRun(1, flipped);
    WindowRunFacts(choices, rewards, h);
    Sum(CumProd(flipped))
  }

  /** The three properties in FalseStreak's contract pin the result down:
      any count with them is the failure streak. */
  lemma FalseStreakUnique(choices: seq<Option<int>>, rewards: seq<Option<real>>, h: int, k: nat)
    requires |choices| == |rewards|
    requires k <= WindowLength(|choices|, h)
    requires forall i :: |choices| - k <= i < |choices| ==> IsFailedTrial(choices[i], rewards[i])
    requires k < WindowLength(|choices|, h) ==>
               !IsFailedTrial(choices[|choices| - 1 - k], rewards[|choices| - 1 - k])
    ensures FalseStreak(choices, rewards, h) == k
  {
  }

  /** A limited look-back clips the unlimited streak (h == 0) to the window. */
  lemma StreakIsClippedRun(choices: seq<Option<int>>, rewards: seq<Option<real>>, h: int)
    requires |choices| == |rewards|
    ensures FalseStreak(choices, rewards, h) ==
            Min(FalseStreak(choices, rewards, 0), WindowLength(|choices|, h))
  {
    var full := FalseStreak(choices, rewards, 0);
    var k := Min(full, WindowLength(|choices|, h));
    FalseStreakUnique(choices, rewards, h, k);
  }

  /** A trial with a reward, or without a choice, ends the streak. */
  lemma StreakResets(choices: seq<Option<int>>, rewards: seq<Option<real>>,
                     c: Option<int>, r: Option<real>, h: int)
    requires |choices| == |rewards|
    requires !IsFailedTrial(c, r)
    ensures FalseStreak(choices + [c], rewards + [r], h) == 0
  {
    var cs, rs := choices + [c], rewards + [r];
    assert cs[|cs| - 1] == c && rs[|rs| - 1] == r;
    FalseStreakUnique(cs, rs, h, 0);
  }

  /** A chosen but unrewarded trial extends the unlimited streak by one. */
  lemma StreakGrows(choices: seq<Option<int>>, rewards: seq<Option<real>>, c: int)
    requires |choices| == |rewards|
    ensures FalseStreak(choices + [Some(c)], rewards + [None], 0) ==
            FalseStreak(choices, rewards, 0) + 1
  {
    var cs, rs := choices + [Some(c)], rewards + [None];
    var n := FalseStreak(choices, rewards, 0);
    var L := |choices|;
    assert n <= L;
    forall i | L - n <= i < L + 1
      ensures IsFailedTrial(cs[i], rs[i])
    {
      if i < L {
        assert cs[i] == choices[i] && rs[i] == rewards[i];
      }
    }
    if n < L {
      assert !IsFailedTrial(choices[L - 1 - n], rewards[L - 1 - n]);
      assert cs[L - 1 - n] == choices[L - 1 - n] && rs[L - 1 - n] == rewards[L - 1 - n];
    }
    FalseStreakUnique(cs, rs, 0, n + 1);
  }

  /** Three chosen but unrewarded trials give a streak of three within the
      default look-back of ten; a following rewarded trial ends it. */
  lemma StreakOfThreeMisses(c: int, r: real)
    ensures FalseStreak([Some(c), Some(c), Some(c)], [None, None, None], 10) == 3
    ensures FalseStreak([Some(c), Some(c), Some(c), Some(c)], [None, None, None, Some(r)], 10) == 0
  {
    FalseStreakUnique([Some(c), Some(c), Some(c)], [None, None, None], 10, 3);
    FalseStreakUnique([Some(c), Some(c), Some(c), Some(c)], [None, None, None, Some(r)], 10, 0);
  }
}
