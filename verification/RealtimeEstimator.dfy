/** ElapsedRealtimeEstimator of gps/core/LocApiBase.cpp: from a fix's data timestamp and the two system
  * clocks it estimates when, on the boot-time clock, the fix was made.
  */
module RealtimeEstimator {
  import opened Wrappers

  /** A successful reading of the realtime and the boot-time clock. */
  datatype Clocks = Clocks(utc: int, boot: int)

  datatype Input =
    | Fix(data: int, trusted: bool, tbf: int, clocks: Option<Clocks>)
    | Reset

  datatype State = State(
    clockDiff: int,
    prevUtc: int,
    prevBoot: int,
    threshold: int,
    initialTravel: int,
    prevData: int)

  const STABILIZATION := 5

  function OnReset(s: State): State {
    State(0, 0, 0, STABILIZATION, s.initialTravel, 0)
  }

  /** The data time jumped: the modem's clock has to settle again. */
  predicate Jumps(s: State, i: Input)
    requires i.Fix?
  {
    i.tbf > 0 && i.tbf != i.data - s.prevData
  }

  /** A fix that changes the estimator: trusted, and the clocks could be read. */
  predicate Counts(i: Input) {
    i.Fix? && i.trusted && i.clocks.Some?
  }

  function ThresholdAt(s: State, i: Input): int
    requires Counts(i)
  {
    if Jumps(s, i) then STABILIZATION else s.threshold
  }

  function ClockDiffAt(s: State, i: Input): int
    requires Counts(i)
  {
    var c := i.clocks.value;
    if ThresholdAt(s, i) == 0 then c.utc - i.data - s.initialTravel
    else if ThresholdAt(s, i) < 0 then s.clockDiff + (c.utc - c.boot) - (s.prevUtc - s.prevBoot)
    else s.clockDiff
  }

  function Step(s: State, i: Input): State {
    if i.Reset? then OnReset(s)
    else if Counts(i) then
      State(ClockDiffAt(s, i), i.clocks.value.utc, i.clocks.value.boot, ThresholdAt(s, i) - 1, s.initialTravel, i.data)
    else s
  }

  function Estimate(s: State, i: Input): int
    requires i.Fix?
  {
    if i.clocks.None? then -1
    else if i.trusted && ThresholdAt(s, i) < 0 then
      i.clocks.value.boot - (i.clocks.value.utc - i.data - ClockDiffAt(s, i))
    else i.clocks.value.boot - s.initialTravel
  }

  class ElapsedRealtimeEstimator {
    var mCurrentClockDiff: int
    var mPrevUtcTimeNanos: int
    var mPrevBootTimeNanos: int
    var mFixTimeStablizationThreshold: int
    const mInitialTravelTime: int
    var mPrevDataTimeNanos: int

    ghost function View(): State
      reads this
    {
      State(mCurrentClockDiff, mPrevUtcTimeNanos, mPrevBootTimeNanos, mFixTimeStablizationThreshold,
            mInitialTravelTime, mPrevDataTimeNanos)
    }

    constructor (travelTimeNanosEstimate: int)
      ensures View() == State(0, 0, 0, STABILIZATION, travelTimeNanosEstimate, 0)
    {
      mInitialTravelTime := travelTimeNanosEstimate;
      new;
      ResetAll();
    }

    method ResetAll()
      modifies this
      ensures View() == OnReset(old(View()))
    {
      mCurrentClockDiff := 0;
      mPrevDataTimeNanos := 0;
      mPrevUtcTimeNanos := 0;
      mPrevBootTimeNanos := 0;
      mFixTimeStablizationThreshold := STABILIZATION;
    }

    /** clocks is what getCurrentTime delivers, if it succeeds. */
    method GetElapsedRealtimeEstimateNanos(curData: int, isTrustable: bool, tbf: int, clocks: Option<Clocks>)
      returns (r: int)
      modifies this
      ensures r == Estimate(old(View()), Fix(curData, isTrustable, tbf, clocks))
      ensures View() == Step(old(View()), Fix(curData, isTrustable, tbf, clocks))
    {
      var currentTravelTimeNanos := mInitialTravelTime;
      if clocks.None? {
        return -1;
      }
      var currentTimeNanos, sinceBootTimeNanos := clocks.value.utc, clocks.value.boot;
      if isTrustable {
        if tbf > 0 && tbf != curData - mPrevDataTimeNanos {
          mFixTimeStablizationThreshold := STABILIZATION;
        }
        if mFixTimeStablizationThreshold == 0 {
          currentTravelTimeNanos := mInitialTravelTime;
          mCurrentClockDiff := currentTimeNanos - curData - currentTravelTimeNanos;
        } else if mFixTimeStablizationThreshold < 0 {
          mCurrentClockDiff := mCurrentClockDiff + (currentTimeNanos - sinceBootTimeNanos)
                               - (mPrevUtcTimeNanos - mPrevBootTimeNanos);
          currentTravelTimeNanos := currentTimeNanos - curData - mCurrentClockDiff;
        }
        mPrevUtcTimeNanos := currentTimeNanos;
        mPrevBootTimeNanos := sinceBootTimeNanos;
        mPrevDataTimeNanos := curData;
        mFixTimeStablizationThreshold := mFixTimeStablizationThreshold - 1;
      }
      return sinceBootTimeNanos - currentTravelTimeNanos;
    }
  }

  // ---------------------------------------------------------------- a stable phase

  function Run(s: State, inputs: seq<Input>): State {
    if inputs == [] then s else Step(Run(s, inputs[..|inputs| - 1]), inputs[|inputs| - 1])
  }

  /** What every estimate of the phase is away from its data timestamp. */
  function Anchor(s: State): int { s.clockDiff - (s.prevUtc - s.prevBoot) }

  /** A counted fix at or after the one where the threshold is 0. */
  predicate Stable(s: State, i: Input) {
    Counts(i) && ThresholdAt(s, i) <= 0
  }

  predicate KeepsPhase(s: State, i: Input) {
    !i.Reset? && (Counts(i) ==> !Jumps(s, i))
  }

  /** The clock-difference updates telescope. */
  lemma StableStep(s: State, i: Input)
    requires Stable(s, i)
    ensures Estimate(s, i) == i.data + Anchor(Step(s, i))
    ensures Step(s, i).threshold < 0
    ensures ThresholdAt(s, i) < 0 ==> Anchor(Step(s, i)) == Anchor(s)
  {
  }

  lemma {:induction false} PhaseKeepsAnchor(s: State, inputs: seq<Input>)
    requires s.threshold < 0
    requires forall n :: 0 <= n < |inputs| ==> KeepsPhase(Run(s, inputs[..n]), inputs[n])
    ensures Run(s, inputs).threshold < 0 && Anchor(Run(s, inputs)) == Anchor(s)
  {
    if inputs != [] {
      var init := inputs[..|inputs| - 1];
      forall n | 0 <= n < |init| ensures init[..n] == inputs[..n] {}
      PhaseKeepsAnchor(s, init);
    }
  }

  /** Within one stable phase any two estimates differ by exactly the difference of their data timestamps,
    * whatever the realtime clock does in between.
    */
  lemma EstimatesFollowDataTime(s: State, first: Input, between: seq<Input>, last: Input)
    requires Stable(s, first)
    requires forall n :: 0 <= n < |between| ==> KeepsPhase(Run(Step(s, first), between[..n]), between[n])
    requires Counts(last) && KeepsPhase(Run(Step(s, first), between), last)
    ensures Estimate(Run(Step(s, first), between), last) - Estimate(s, first) == last.data - first.data
  {
    StableStep(s, first);
    PhaseKeepsAnchor(Step(s, first), between);
    StableStep(Run(Step(s, first), between), last);
  }

  function CountedFixes(inputs: seq<Input>): nat {
    if inputs == [] then 0 else
      CountedFixes(inputs[..|inputs| - 1]) + (if Counts(inputs[|inputs| - 1]) then 1 else 0)
  }

  /** The sixth counted fix after a reset is the first that can be stable. */
  lemma {:induction false} StableAfterFiveFixes(s: State, inputs: seq<Input>, next: Input)
    requires s.threshold == STABILIZATION
    requires forall n :: 0 <= n < |inputs| ==> KeepsPhase(Run(s, inputs[..n]), inputs[n])
    requires Counts(next) && KeepsPhase(Run(s, inputs), next)
    ensures Run(s, inputs).threshold == STABILIZATION - CountedFixes(inputs)
    ensures Stable(Run(s, inputs), next) <==> CountedFixes(inputs) >= STABILIZATION
  {
    if inputs != [] {
      var init, last := inputs[..|inputs| - 1], inputs[|inputs| - 1];
      forall n | 0 <= n < |init| ensures init[..n] == inputs[..n] {}
      ThresholdCountsDown(s, inputs);
    }
  }

  lemma {:induction false} ThresholdCountsDown(s: State, inputs: seq<Input>)
    requires forall n :: 0 <= n < |inputs| ==> KeepsPhase(Run(s, inputs[..n]), inputs[n])
    ensures Run(s, inputs).threshold == s.threshold - CountedFixes(inputs)
  {
    if inputs != [] {
      var init := inputs[..|inputs| - 1];
      forall n | 0 <= n < |init| ensures init[..n] == inputs[..n] {}
      ThresholdCountsDown(s, init);
    }
  }

  // ---------------------------------------------------------------- outside a stable phase

  /** The data timestamp of the latest counted fix since the last reset, or 0. */
  function LatestData(inputs: seq<Input>): int {
    if inputs == [] then 0 else
      var last := inputs[|inputs| - 1];
      if last.Reset? then 0 else if Counts(last) then last.data else LatestData(inputs[..|inputs| - 1])
  }

  /** A state right after construction or a reset. */
  predicate IsReset(s: State) {
    s.clockDiff == 0 && s.prevUtc == 0 && s.prevBoot == 0 && s.prevData == 0 && s.threshold == 5
  }

  lemma {:induction false} RunRemembersData(s: State, inputs: seq<Input>)
    requires IsReset(s)
    ensures Run(s, inputs).prevData == LatestData(inputs) && Run(s, inputs).initialTravel == s.initialTravel
  {
    if inputs != [] {
      RunRemembersData(s, inputs[..|inputs| - 1]);
    }
  }

  /** A reset forgets everything but the travel time; an untrusted fix or one without clocks changes nothing. */
  lemma WhatIsForgotten(s: State, i: Input)
    ensures i.Reset? ==> IsReset(Step(s, i)) && Step(s, i).initialTravel == s.initialTravel
    ensures i.Fix? && (!i.trusted || i.clocks == None) ==> Step(s, i) == s
  {
  }

  /** A trusted fix jumps if and only if its distance in data time from the fix before is not the expected one, if
    * one is expected; it then starts the countdown anew.
    */
  lemma JumpRestarts(s: State, inputs: seq<Input>, i: Input)
    requires IsReset(s) && Counts(i)
    ensures var now := Run(s, inputs);
            && (Jumps(now, i) <==> i.tbf > 0 && i.data - LatestData(inputs) != i.tbf)
            && Step(now, i).threshold == (if Jumps(now, i) then 5 else now.threshold) - 1
            && (Jumps(now, i) ==> !Stable(now, i) && Step(now, i).clockDiff == now.clockDiff)
  {
    RunRemembersData(s, inputs);
  }

  /** Without clocks there is no estimate. Otherwise, from an untrusted fix and during the countdown, up to and with
    * the sixth trusted fix after a reset or a jump, the estimate is the boot-time clock less the travel time.
    */
  lemma EarlyEstimates(s: State, i: Input)
    requires i.Fix?
    ensures i.clocks == None ==> Estimate(s, i) == -1
    ensures i.clocks.Some? && (!i.trusted || Jumps(s, i) || s.threshold >= 0) ==>
              Estimate(s, i) == i.clocks.value.boot - s.initialTravel
  {
  }

  /** From the fix on that ends the countdown, every estimate of the phase is its data timestamp plus the boot-time
    * delay of that first fix.
    */
  lemma PhaseEstimates(s: State, first: Input, between: seq<Input>, last: Input)
    requires Counts(first) && ThresholdAt(s, first) == 0
    requires forall n :: 0 <= n < |between| ==> KeepsPhase(Run(Step(s, first), between[..n]), between[n])
    requires Counts(last) && KeepsPhase(Run(Step(s, first), between), last)
    ensures Estimate(Run(Step(s, first), between), last) ==
            last.data + (first.clocks.value.boot - s.initialTravel - first.data)
  {
    EstimatesFollowDataTime(s, first, between, last);
  }
}
