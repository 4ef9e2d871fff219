/** Polling policies of the two local-optimisation drivers. The optimiser
    itself is external: what the driver sees is the initial merit value and
    the merit value read at each poll, given here as a sequence. */
module Optimizer {

  /** Merit value the driver holds after `k` polls: the initial value before
      any poll, then the value read at the latest poll. */
  function MeritAfter(initial: real, polls: seq<real>, k: nat): (mf: real)
    requires k <= |polls|
    ensures k > 0 ==> mf == polls[k - 1]
    ensures k == 0 ==> mf == initial
  {
    if k == 0 then initial else polls[k - 1]
  }

  /** Poll `i` (1-based) read a value strictly below the one held before it. */
  predicate Improving(initial: real, polls: seq<real>, i: nat)
    requires 1 <= i <= |polls|
  {
    polls[i - 1] < MeritAfter(initial, polls, i - 1)
  }

  /** The stall counter after `k` polls: reset by an improving poll, then
      incremented at every poll. */
  function Stall(initial: real, polls: seq<real>, k: nat): nat
    requires k <= |polls|
  {
    if k == 0 then 0
    else (if Improving(initial, polls, k) then 0 else Stall(initial, polls, k - 1)) + 1
  }

  /** Iteration cap of the misalignment driver: it stops once its counter
      exceeds 10, so after at most 11 polls. */
  const LocalPollLimit: nat := 10
  /** Iteration cap of the MTF driver: at most 501 polls. */
  const MtfPollLimit: nat := 500
  /** Stall cap of the MTF driver. */
  const StallLimit: nat := 5

  /** The misalignment driver stops after `k` polls. */
  predicate LocalStops(target: real, initial: real, polls: seq<real>, k: nat)
    requires k <= |polls|
  {
    MeritAfter(initial, polls, k) <= target || k > LocalPollLimit
  }

  /** The MTF driver stops after `k` polls. */
  predicate MtfStops(target: real, initial: real, polls: seq<real>, k: nat)
    requires k <= |polls|
  {
    MeritAfter(initial, polls, k) <= target || k > MtfPollLimit || Stall(initial, polls, k) > StallLimit
  }

  /** The misalignment driver: polls while the merit value is above target,
      at most 11 times. Returns the last merit value seen and the number of
      polls, which is the first count at which the driver's stop rule holds. */
  method LocalOptimize(target: real, initial: real, polls: seq<real>) returns (mf: real, count: nat)
    requires |polls| > LocalPollLimit
    ensures count <= LocalPollLimit + 1
    ensures mf == MeritAfter(initial, polls, count)
    ensures LocalStops(target, initial, polls, count)
    ensures forall k :: 0 <= k < count ==> !LocalStops(target, initial, polls, k)
  {
    mf := initial;
    var counter := 0;
    while mf > target
      invariant counter <= LocalPollLimit
      invariant mf == MeritAfter(initial, polls, counter)
      invariant forall k :: 0 <= k < counter ==> !LocalStops(target, initial, polls, k)
      decreases LocalPollLimit + 1 - counter
    {
      mf := polls[counter];
      counter := counter + 1;
      if counter > LocalPollLimit {
        break;
      }
    }
    count := counter;
  }

  /** The MTF driver: polls while the merit value is above target; stops
      after 501 polls or when the stall counter exceeds 5. Returns the last
      merit value seen and the number of polls, which is the first count at
      which the driver's stop rule holds. */
  method LocalOptimizeMTF(target: real, initial: real, polls: seq<real>) returns (mf: real, count: nat)
    requires |polls| > MtfPollLimit
    ensures count <= MtfPollLimit + 1
    ensures mf == MeritAfter(initial, polls, count)
    ensures MtfStops(target, initial, polls, count)
    ensures forall k :: 0 <= k < count ==> !MtfStops(target, initial, polls, k)
  {
    mf := initial;
    var counter := 0;
    var dcount := 0;
    while mf > target
      invariant counter <= MtfPollLimit
      invariant mf == MeritAfter(initial, polls, counter)
      invariant dcount == Stall(initial, polls, counter) && dcount <= StallLimit
      invariant forall k :: 0 <= k < counter ==> !MtfStops(target, initial, polls, k)
      decreases MtfPollLimit + 1 - counter
    {
      if polls[counter] < mf {
        dcount := 0;
      }
      mf := polls[counter];
      counter := counter + 1;
      dcount := dcount + 1;
      if counter > MtfPollLimit {
        break;
      }
      if dcount > StallLimit {
        break;
      }
    }
    count := counter;
  }

  /** The stall counter exceeds `j` exactly when more than `j` polls have run
      and the last `j` of them were all non-improving. */
  lemma {:induction false} StallExceeds(initial: real, polls: seq<real>, k: nat, j: nat)
    requires k <= |polls|
    requires j >= 1
    ensures Stall(initial, polls, k) > j <==>
              k > j && forall i :: k - j < i <= k ==> !Improving(initial, polls, i)
  {
    if k > 0 {
      if Improving(initial, polls, k) {
        assert Stall(initial, polls, k) == 1;
      } else if j == 1 {
        assert Stall(initial, polls, k) == Stall(initial, polls, k - 1) + 1;
        StallPositive(initial, polls, k - 1);
      } else {
        StallExceeds(initial, polls, k - 1, j - 1);
        assert Stall(initial, polls, k) > j <==> Stall(initial, polls, k - 1) > j - 1;
      }
    }
  }

  lemma {:induction false} StallPositive(initial: real, polls: seq<real>, k: nat)
    requires k <= |polls|
    ensures Stall(initial, polls, k) > 0 <==> k > 0
  {
  }

  /** The MTF driver's stall stop: it fires after the sixth non-improving
      poll from the start, or after the fifth non-improving poll that follows
      an improving one. */
  lemma StallStop(initial: real, polls: seq<real>, k: nat)
    requires k <= |polls|
    ensures Stall(initial, polls, k) > StallLimit <==>
              k >= 6 && forall i :: k - 5 < i <= k ==> !Improving(initial, polls, i)
  {
    StallExceeds(initial, polls, k, StallLimit);
  }

  /** The MTF driver returns a merit value above target only when it used
      all 501 polls or its last five polls were non-improving with at least
      six polls run. */
  lemma MtfOptimizeOutcome(target: real, initial: real, polls: seq<real>, count: nat)
    requires count <= |polls|
    requires MtfStops(target, initial, polls, count)
    requires MeritAfter(initial, polls, count) > target
    ensures count > MtfPollLimit || (count >= 6 && forall i :: count - 5 < i <= count ==> !Improving(initial, polls, i))
  {
    StallStop(initial, polls, count);
  }

  /** With a merit value that never moves from its initial value above
      target, the MTF driver stops at the sixth poll, not before. */
  lemma {:induction false} ConstantMeritStopsAtSixthPoll(target: real, initial: real, polls: seq<real>)
    requires |polls| > MtfPollLimit
    requires initial > target
    requires forall i :: 0 <= i < |polls| ==> polls[i] == initial
    ensures MtfStops(target, initial, polls, 6)
    ensures forall k :: 0 <= k < 6 ==> !MtfStops(target, initial, polls, k)
  {
    forall k | 0 <= k <= 6
      ensures Stall(initial, polls, k) == k
    {
      ConstantStall(initial, polls, k);
    }
  }

  lemma {:induction false} ConstantStall(initial: real, polls: seq<real>, k: nat)
    requires k <= |polls|
    requires forall i :: 0 <= i < |polls| ==> polls[i] == initial
    ensures Stall(initial, polls, k) == k
  {
    if k > 0 {
      ConstantStall(initial, polls, k - 1);
    }
  }
}
