/** The cold-calibration moving average of main/rtc_clock_fix.cpp. */
module ColdCalibration {
  import opened Words

  const SAMPLES_MAX: nat := 32
  const COLD_MIN_SLEEP_US: nat := 50_000
  const COLD_MAX_JUMP_PPM: nat := 20_000
  const COLD_MAX_REJECT_RUN: nat := 8
  const SLEEP_PATH_CAL_CYCLES: nat := 10

  function ClampSamples(samples: uint32): (s: uint32)
    ensures s <= SAMPLES_MAX
  {
    if samples < SAMPLES_MAX then samples else SAMPLES_MAX
  }

  function Sum(s: seq<nat>): (r: nat) {
    if s == [] then 0 else s[0] + Sum(s[1..])
  }

  /** The mean, rounded to nearest with halves up. */
  function RoundedMean(s: seq<nat>): (r: nat) {
    if s == [] then 0 else (Sum(s) + |s| / 2) / |s|
  }

  lemma SumOfOne(x: nat)
    ensures Sum([x]) == x
  {
    assert [x][1..] == [];
  }

  lemma {:induction false} SumOfBoth(s: seq<nat>, t: seq<nat>)
    ensures Sum(s + t) == Sum(s) + Sum(t)
  {
    if s == [] {
      assert s + t == t;
    } else {
      SumOfBoth(s[1..], t);
      assert (s + t)[1..] == s[1..] + t;
    }
  }

  /** By how much the values exceed `mean`, added up. */
  ghost function Excess(s: seq<nat>, mean: nat): (d: int) {
    if s == [] then 0 else s[0] - mean + Excess(s[1..], mean)
  }

  lemma {:induction false} ExcessIsDifference(s: seq<nat>, n: nat, mean: nat)
    requires n == |s|
    ensures Excess(s, mean) == Sum(s) - n * mean
  {
    if s != [] {
      ExcessIsDifference(s[1..], n - 1, mean);
      assert n * mean == mean + (n - 1) * mean;
    }
  }

  /** The newest `n` values exceed and miss the mean by the same, up to half a unit each, halves going up. */
  ghost predicate Averages(mean: nat, s: seq<nat>, n: nat) {
    && n <= |s|
    && (if n == 0 then mean == 0 else 0 - n <= 2 * Excess(s[|s| - n..], mean) < n)
  }

  lemma MeanAverages(s: seq<nat>, n: nat)
    requires n <= |s|
    ensures Averages(RoundedMean(Newest(s, n)), s, n)
  {
    if n > 0 {
      MeanIsNearest(Newest(s, n), n);
      ExcessIsDifference(Newest(s, n), n, RoundedMean(Newest(s, n)));
    }
  }

  /** The mean times the number of values is nearest to their sum, halves going up. */
  lemma MeanIsNearest(s: seq<nat>, n: nat)
    requires n == |s| > 0
    ensures 2 * Sum(s) - n < 2 * (n * RoundedMean(s)) <= 2 * Sum(s) + n
  {
    NearestQuotient(Sum(s), n, RoundedMean(s));
  }

  lemma NearestQuotient(sum: nat, n: nat, q: nat)
    requires n > 0 && q == (sum + n / 2) / n
    ensures 2 * sum - n < 2 * (n * q) <= 2 * sum + n
  {
    var half := n / 2;
    assert n * q <= sum + half < n * q + n;
  }

  /** The newest `n` of a history, newest last. */
  function Newest(s: seq<nat>, n: nat): (t: seq<nat>)
    requires n <= |s|
    ensures |t| == n
  {
    s[|s| - n..]
  }

  /** The glitch check on unbounded numbers. */
  predicate FarOff(period: nat, mean: nat) {
    Abs(period - mean) * 1_000_000 > mean * COLD_MAX_JUMP_PPM
  }

  /** The glitch check is a jump of more than two percent of the mean, up or down. */
  lemma FarOffIsTwoPercent(period: nat, mean: nat)
    ensures FarOff(period, mean) <==> 100 * period > 102 * mean || 100 * period < 98 * mean
  {
  }

  function Abs(n: int): (a: nat) {
    if n < 0 then -n else n
  }

  /** What the 64-bit product keeps. */
  function Wrap64(n: nat): (w: nat) {
    n % 0x1_0000_0000_0000_0000
  }

  /** The glitch check's two products fit the 64 bits the firmware gives them, so it is the unbounded one. */
  lemma FarOffFits64(period: uint32, mean: uint32)
    ensures Wrap64(Abs(period - mean) * 1_000_000) > Wrap64(mean * COLD_MAX_JUMP_PPM) <==> FarOff(period, mean)
  {
    assert Abs(period - mean) * 1_000_000 < 0x1_0000_0000_0000_0000;
    assert mean * COLD_MAX_JUMP_PPM < 0x1_0000_0000_0000_0000;
  }

  lemma {:induction false} SumBounds(s: seq<nat>, lo: nat, hi: nat)
    requires forall i :: 0 <= i < |s| ==> lo <= s[i] <= hi
    ensures |s| * lo <= Sum(s) <= |s| * hi
  {
    if s != [] {
      SumBounds(s[1..], lo, hi);
      assert |s| * lo == lo + (|s| - 1) * lo;
      assert |s| * hi == hi + (|s| - 1) * hi;
    }
  }

  /** A rounded mean never leaves the range of its values. */
  lemma MeanWithin(s: seq<nat>, lo: nat, hi: nat)
    requires s != [] && forall i :: 0 <= i < |s| ==> lo <= s[i] <= hi
    ensures lo <= RoundedMean(s) <= hi
  {
    SumBounds(s, lo, hi);
    DivBetween(Sum(s) + |s| / 2, |s|, lo, hi);
  }

  lemma DivBetween(total: nat, n: nat, lo: nat, hi: nat)
    requires n > 0 && n * lo <= total < n * hi + n
    ensures lo <= total / n <= hi
  {
    var q := total / n;
    if q < lo {
      MulLe(n, q + 1, lo);
    } else if q > hi {
      MulLe(n, hi + 1, q);
    }
  }

  lemma MulLe(n: nat, a: nat, b: nat)
    requires a <= b
    ensures n * a <= n * b
  {
  }

  /** Which slot of the ring holds a given value of the history. */
  function Slot(i: nat): (k: nat)
    ensures k < SAMPLES_MAX
  {
    i % SAMPLES_MAX
  }

  lemma SlotWraps(n: nat)
    ensures Slot(Wrap32(n)) == Slot(n)
  {
    var q := n / 0x1_0000_0000;
    assert n == Wrap32(n) + SAMPLES_MAX * (0x800_0000 * q);
    SlotPlusLaps(Wrap32(n), 0x800_0000 * q);
  }

  lemma SlotPlusLaps(i: nat, laps: nat)
    ensures Slot(i + SAMPLES_MAX * laps) == Slot(i)
  {
  }

  lemma SlotsDiffer(i: nat, j: nat)
    requires i < j < i + SAMPLES_MAX
    ensures Slot(i) != Slot(j)
  {
  }

  class ColdClock {
    const ring: array<uint32>
    var samples: uint32
    var count: uint32
    var last: uint32
    var mean: uint32
    var rejectRun: uint32
    var taken: uint32
    var rejected: uint32
    var restarts: uint32
    var sleepsCold: uint32
    var sleepsMeasured: uint32

    /** Every value accepted since the ring last (re)started, and the since-boot totals unwrapped. */
    ghost var accepted: seq<uint32>
    ghost var candidates: nat
    ghost var takenTotal: nat
    ghost var rejectedTotal: nat
    /** Candidates rejected, and sample counts set, since the last accepted value. */
    ghost var rejectedInRow: nat
    ghost var retunedInRow: nat

    /** How many values the mean covers: the counter's own view of the history's length. */
    ghost function Window(): (n: nat)
      reads this
    {
      Min(Wrap32(|accepted|), samples)
    }

    ghost predicate RingValid()
      reads this, ring
    {
      && ring.Length == SAMPLES_MAX && samples <= SAMPLES_MAX
      && count == Wrap32(|accepted|)
      && (forall i :: Max(0, |accepted| - SAMPLES_MAX) <= i < |accepted| ==> ring[Slot(i)] == accepted[i])
    }

    ghost predicate Valid()
      reads this, ring
    {
      && RingValid()
      && mean == RoundedMean(Newest(accepted, Window()))
      && rejectRun < COLD_MAX_REJECT_RUN
      && rejectedInRow <= (COLD_MAX_REJECT_RUN - 1) * retunedInRow + rejectRun
      && TotalsValid(0)
    }

    /** Every candidate but the `open` ones was either taken or rejected. */
    ghost predicate TotalsValid(open: nat)
      reads this
    {
      && candidates == takenTotal + rejectedTotal + open
      && taken == Wrap32(takenTotal) && rejected == Wrap32(rejectedTotal)
    }

    constructor (initialSamples: uint32)
      ensures Valid() && fresh(ring) && accepted == [] && candidates == 0
      ensures samples == ClampSamples(initialSamples)
      ensures sleepsCold == sleepsMeasured == restarts == 0
    {
      ring := new uint32[SAMPLES_MAX](_ => 0);
      samples := ClampSamples(initialSamples);
      count, last, mean, rejectRun, taken, rejected, restarts := 0, 0, 0, 0, 0, 0, 0;
      sleepsCold, sleepsMeasured := 0, 0;
      accepted, candidates, takenTotal, rejectedTotal := [], 0, 0, 0;
      rejectedInRow, retunedInRow := 0, 0;
    }

    /** The i-th newest value is where the loop of the mean looks for it. */
    lemma NewestAt(i: nat)
      requires RingValid() && 1 <= i <= Min(count, SAMPLES_MAX)
      ensures i <= |accepted|
      ensures ring[Slot(count - i)] == accepted[|accepted| - i]
    {
      var q := |accepted| / 0x1_0000_0000;
      assert |accepted| - i == (count - i) + SAMPLES_MAX * (0x800_0000 * q);
      SlotPlusLaps(count - i, 0x800_0000 * q);
    }

    /** Below 2^32 accepted values the counter is the history's length. */
    lemma Below()
      requires RingValid() && |accepted| < 0x1_0000_0000
      ensures count == |accepted| && Window() == Min(|accepted|, samples)
    {
    }

    method UpdateMean()
      requires RingValid()
      modifies this`mean
      ensures RingValid() && Window() <= |accepted|
      ensures mean == RoundedMean(Newest(accepted, Window()))
      ensures Averages(mean, accepted, Min(count, samples))
    {
      var n := Min(count, samples);
      var sum := SumNewest(n);
      MeanAverages(accepted, n);
      if n != 0 {
        // At most 32 values of 32 bits: the 64-bit sum cannot overflow, and the mean fits 32 bits.
        assert sum + n / 2 < 0x1_0000_0000_0000_0000;
        MeanWithin(Newest(accepted, n), 0, 0xFFFF_FFFF);
        mean := (sum + n / 2) / n;
      } else {
        mean := 0;
      }
    }

    /** The loop of the mean: it walks back from the newest slot. */
    method SumNewest(n: nat) returns (sum: nat)
      requires RingValid() && n <= Min(count, samples)
      ensures n <= |accepted| && sum == Sum(Newest(accepted, n)) && sum <= n * 0xFFFF_FFFF
    {
      sum := 0;
      var i := 1;
      while i <= n
        invariant 1 <= i <= n + 1 && n <= |accepted|
        invariant sum == SumDown(accepted, i - 1)
        invariant sum <= (i - 1) * 0xFFFF_FFFF
      {
        NewestAt(i);
        sum := sum + ring[Slot(count - i)];
        i := i + 1;
      }
      SumDownIsSum(accepted, n);
    }

    /** Stores a value in the ring, over the oldest one once the ring is full. */
    method Push(period: uint32)
      requires RingValid()
      modifies this`count, this`accepted, this`last, this`mean, ring
      ensures RingValid() && mean == RoundedMean(Newest(accepted, Window()))
      ensures accepted == old(accepted) + [period] && last == period
    {
      SlotWraps(|accepted|);
      forall i | Max(0, |accepted| + 1 - SAMPLES_MAX) <= i < |accepted|
        ensures Slot(i) != Slot(|accepted|)
      {
        SlotsDiffer(i, |accepted|);
      }
      WrapSum(|accepted|, 1);
      ring[Slot(count)] := period;
      count, accepted := Wrap32(count + 1), accepted + [period];
      last := period;
      UpdateMean();
    }

    /** A value that passed the glitch check. */
    method Take(period: uint32)
      requires RingValid() && TotalsValid(1)
      modifies this, ring
      ensures Valid() && samples == old(samples) && candidates == old(candidates) && restarts == old(restarts)
      ensures accepted == old(accepted) + [period] && last == period && takenTotal == old(takenTotal) + 1
      ensures rejectRun == 0 && rejectedInRow == 0 && retunedInRow == 0
    {
      rejectRun, rejectedInRow, retunedInRow := 0, 0, 0;
      WrapSum(takenTotal, 1);
      taken, takenTotal := Wrap32(taken + 1), takenTotal + 1;
      Push(period);
    }

    method Reject()
      requires Valid() && rejectRun + 1 < COLD_MAX_REJECT_RUN
      modifies this`rejectRun, this`rejected, this`rejectedTotal, this`rejectedInRow, this`candidates
      ensures Valid() && rejectRun == old(rejectRun) + 1
      ensures rejectedInRow == old(rejectedInRow) + 1 && candidates == old(candidates) + 1
    {
      WrapSum(rejectedTotal, 1);
      rejectRun := rejectRun + 1;
      candidates := candidates + 1;
      rejected, rejectedTotal := Wrap32(rejected + 1), rejectedTotal + 1;
      rejectedInRow := rejectedInRow + 1;
    }

    /** The glitch check, in the firmware's 64-bit arithmetic; only a full window is compared with. */
    method Jumps(period: uint32) returns (jump: bool)
      ensures jump <==> count >= samples && FarOff(period, mean)
    {
      var diff := if period > mean then period - mean else mean - period;
      FarOffFits64(period, mean);
      jump := count >= samples && Wrap64(diff * 1_000_000) > Wrap64(mean * COLD_MAX_JUMP_PPM);
    }

    /** The ring is emptied: the old values are taken for the wrong ones. */
    method Restart()
      requires RingValid()
      modifies this`count, this`accepted, this`restarts
      ensures RingValid() && accepted == [] && restarts == Wrap32(old(restarts) + 1)
    {
      count, accepted := 0, [];
      restarts := Wrap32(restarts + 1);
    }

    /** One cold calibration: accepted, rejected as a glitch, or the first value of a new ring. */
    method AcceptCold(period: uint32)
      requires Valid() && samples > 0
      modifies this, ring
      ensures Valid() && samples == old(samples) && candidates == old(candidates) + 1
      ensures var jump := old(count) >= old(samples) && FarOff(period, old(mean));
              if jump && old(rejectRun) + 1 < COLD_MAX_REJECT_RUN then
                && accepted == old(accepted) && mean == old(mean) && takenTotal == old(takenTotal)
                && rejectRun == old(rejectRun) + 1 && restarts == old(restarts)
                && rejectedInRow == old(rejectedInRow) + 1 && retunedInRow == old(retunedInRow)
              else
                && accepted == (if jump then [] else old(accepted)) + [period]
                && takenTotal == old(takenTotal) + 1 && last == period
                && rejectRun == 0 && rejectedInRow == 0 && retunedInRow == 0
                && restarts == if jump then Wrap32(old(restarts) + 1) else old(restarts)
    {
      var jump := Jumps(period);
      if jump {
        if rejectRun + 1 < COLD_MAX_REJECT_RUN {
          Reject();
          return;
        }
        Restart();
      }
      Admit(period);
    }

    method Admit(period: uint32)
      requires RingValid() && TotalsValid(0)
      modifies this, ring
      ensures Valid() && samples == old(samples) && candidates == old(candidates) + 1 && restarts == old(restarts)
      ensures accepted == old(accepted) + [period] && last == period && takenTotal == old(takenTotal) + 1
      ensures rejectRun == 0 && rejectedInRow == 0 && retunedInRow == 0
    {
      candidates := candidates + 1;
      Take(period);
    }

    /** The light-sleep exit callback; `cold` is what calibrating now would give. */
    method OnLightSleepExit(sleepTimeUs: int, cold: uint32)
      requires Valid()
      modifies this, ring
      ensures Valid() && samples == old(samples)
      ensures candidates == old(candidates)
                + if samples == 0 || sleepTimeUs < COLD_MIN_SLEEP_US || cold == 0 then 0 else 1
      ensures candidates == old(candidates) ==> accepted == old(accepted) && mean == old(mean)
      ensures candidates > old(candidates) ==>
                accepted == if !(old(count) >= old(samples) && FarOff(cold, old(mean))) then old(accepted) + [cold]
                            else if old(rejectRun) + 1 < COLD_MAX_REJECT_RUN then old(accepted)
                            else [cold]
    {
      if samples == 0 || sleepTimeUs < COLD_MIN_SLEEP_US {
        return;
      }
      if cold == 0 {
        return;
      }
      AcceptCold(cold);
    }

    method SetSamples(requested: uint32)
      requires Valid()
      modifies this
      ensures Valid() && samples == ClampSamples(requested) && rejectRun == 0
      ensures accepted == if old(samples) == 0 then [] else old(accepted)
      ensures candidates == old(candidates) && takenTotal == old(takenTotal)
      ensures rejectedInRow == old(rejectedInRow) && retunedInRow == old(retunedInRow) + 1
    {
      var was := samples;
      samples := ClampSamples(requested);
      if was == 0 {
        count, accepted := 0, [];
      }
      rejectRun, retunedInRow := 0, retunedInRow + 1;
      UpdateMean();
    }

    /**
     * The linker wrap of the sleep path's calibration; `measured` is what the real call would return.
     * The averaged answer is only given once the ring holds a full window, and then lies within it.
     */
    method WrapCal(rtcSlow: bool, cycles: uint32, measured: uint32) returns (period: uint32)
      requires Valid()
      modifies this`sleepsCold, this`sleepsMeasured
      ensures Valid()
      ensures var cold := rtcSlow && cycles == SLEEP_PATH_CAL_CYCLES && samples != 0 && count >= samples;
              if cold then
                && Window() == samples && Averages(period, accepted, samples)
                && BetweenTwo(period, accepted, samples)
              else period == measured
      ensures var cold := rtcSlow && cycles == SLEEP_PATH_CAL_CYCLES && samples != 0 && count >= samples;
              && sleepsCold == (if cold then Wrap32(old(sleepsCold) + 1) else old(sleepsCold))
              && sleepsMeasured == if rtcSlow && cycles == SLEEP_PATH_CAL_CYCLES && !cold
                                   then Wrap32(old(sleepsMeasured) + 1) else old(sleepsMeasured)
    {
      if !rtcSlow || cycles != SLEEP_PATH_CAL_CYCLES {
        return measured;
      }
      if samples != 0 && count >= samples {
        CountSleep(true);
        FullWindow();
        return mean;
      }
      CountSleep(false);
      return measured;
    }

    method CountSleep(cold: bool)
      requires Valid()
      modifies this`sleepsCold, this`sleepsMeasured
      ensures Valid()
      ensures sleepsCold == if cold then Wrap32(old(sleepsCold) + 1) else old(sleepsCold)
      ensures sleepsMeasured == if cold then old(sleepsMeasured) else Wrap32(old(sleepsMeasured) + 1)
    {
      if cold {
        sleepsCold := Wrap32(sleepsCold + 1);
      } else {
        sleepsMeasured := Wrap32(sleepsMeasured + 1);
      }
    }

    /** What the mean is once the ring holds a full window. */
    lemma FullWindow()
      requires Valid() && 0 < samples <= count
      ensures Window() == samples <= |accepted| && Averages(mean, accepted, samples)
      ensures BetweenTwo(mean, accepted, samples)
    {
      MeanBetweenTwo(accepted, samples);
      MeanAverages(accepted, samples);
    }
  }

  /** The sum of the newest `n`, added newest first as the loop does. */
  function SumDown(s: seq<nat>, n: nat): (r: nat)
    requires n <= |s|
  {
    if n == 0 then 0 else SumDown(s, n - 1) + s[|s| - n]
  }

  lemma {:induction false} SumDownIsSum(s: seq<nat>, n: nat)
    requires n <= |s|
    ensures SumDown(s, n) == Sum(Newest(s, n))
  {
    if n > 0 {
      SumDownIsSum(s, n - 1);
      assert Newest(s, n)[1..] == Newest(s, n - 1);
    }
  }

  /** Some value of the newest `n` is at most the mean and some other at least the mean. */
  ghost predicate BetweenTwo(mean: nat, s: seq<nat>, n: nat)
    requires n <= |s|
  {
    exists i, j :: |s| - n <= i < |s| && |s| - n <= j < |s| && s[i] <= mean <= s[j]
  }

  lemma MeanBetweenTwo(s: seq<nat>, n: nat)
    requires 0 < n <= |s|
    ensures BetweenTwo(RoundedMean(Newest(s, n)), s, n)
  {
    var w := Newest(s, n);
    var i, j := Extremes(w);
    MeanWithin(w, w[i], w[j]);
    assert w[i] == s[|s| - n + i] && w[j] == s[|s| - n + j];
  }

  lemma {:induction false} Extremes(s: seq<nat>) returns (i: nat, j: nat)
    requires s != []
    ensures i < |s| && j < |s| && forall k :: 0 <= k < |s| ==> s[i] <= s[k] <= s[j]
  {
    i, j := 0, 0;
    for n := 1 to |s|
      invariant i < |s| && j < |s| && forall k :: 0 <= k < n ==> s[i] <= s[k] <= s[j]
    {
      if s[n] < s[i] {
        i := n;
      }
      if s[n] > s[j] {
        j := n;
      }
    }
  }

  /**
   * Below 2^32 accepted values the window is the newest min(history, samples) of them, the reading
   * the header promises. The first history for which the wrapped counter forgets values is exactly
   * one of 2^32 of them: the window is then empty and the mean zero.
   */
  lemma WindowIsHistoryBelowWrap(accepted: nat, samples: uint32)
    requires 0 < samples <= SAMPLES_MAX
    ensures Min(Wrap32(accepted), samples) == Min(accepted, samples)
            <==> accepted < 0x1_0000_0000 || Wrap32(accepted) >= samples
    ensures Min(Wrap32(0x1_0000_0000), samples) == 0
  {
  }

  /**
   * Between two calls that set the sample count at most 7 candidates in a row are rejected; such a call
   * clears the run counter without accepting anything, so with `k` of them in between 7 * (k + 1) go by,
   * the most there can be, at any period, even if the count stays what it was.
   */
  method RetunesStretchTheRun(p: uint32, k: nat) returns (clock: ColdClock)
    requires 0 < p < 0x8000_0000
    ensures clock.Valid() && fresh(clock) && fresh(clock.ring)
    ensures clock.accepted == [p] && clock.retunedInRow == k
    ensures clock.rejectedInRow == (COLD_MAX_REJECT_RUN - 1) * (k + 1)
  {
    clock := OneAccepted(p);
    RejectSeven(clock, p);
    RetuneTimes(clock, p, k);
  }

  method RetuneTimes(clock: ColdClock, p: uint32, k: nat)
    requires clock.Valid() && clock.accepted == [p] && clock.samples == 1 && 0 < p < 0x8000_0000
    modifies clock, clock.ring
    ensures clock.Valid() && clock.accepted == [p] && clock.samples == 1
    ensures clock.retunedInRow == old(clock.retunedInRow) + k
    ensures clock.rejectedInRow == old(clock.rejectedInRow) + (COLD_MAX_REJECT_RUN - 1) * k
  {
    if k > 0 {
      RetuneTimes(clock, p, k - 1);
      RetuneAndReject(clock, p);
    }
  }

  method RetuneAndReject(clock: ColdClock, p: uint32)
    requires clock.Valid() && clock.accepted == [p] && clock.samples == 1 && 0 < p < 0x8000_0000
    modifies clock, clock.ring
    ensures clock.Valid() && clock.accepted == [p] && clock.samples == 1
    ensures clock.rejectedInRow == old(clock.rejectedInRow) + (COLD_MAX_REJECT_RUN - 1)
    ensures clock.retunedInRow == old(clock.retunedInRow) + 1
  {
    clock.SetSamples(1);
    MeanOfOne(clock, p);
    RejectSeven(clock, p);
  }

  method OneAccepted(p: uint32) returns (clock: ColdClock)
    ensures clock.Valid() && fresh(clock) && fresh(clock.ring)
    ensures clock.accepted == [p] && clock.samples == 1 && clock.count == 1 && clock.mean == p
    ensures clock.rejectRun == 0 && clock.rejectedInRow == 0 && clock.retunedInRow == 0
  {
    clock := new ColdClock(1);
    clock.AcceptCold(p);
    MeanOfOne(clock, p);
  }

  lemma MeanOfOne(clock: ColdClock, p: uint32)
    requires clock.Valid() && clock.accepted == [p] && clock.samples == 1
    ensures clock.count == 1 && clock.mean == p
  {
    clock.Below();
    MeanOfSame(clock.accepted, p, 1);
  }

  /** A mean of equal values is that value. */
  lemma MeanOfSame(s: seq<nat>, p: nat, n: nat)
    requires 0 < n <= |s| && forall i :: 0 <= i < |s| ==> s[i] == p
    ensures RoundedMean(Newest(s, n)) == p
  {
    MeanWithin(Newest(s, n), p, p);
  }

  method RejectSeven(clock: ColdClock, p: uint32)
    requires clock.Valid() && clock.samples > 0 && clock.count >= clock.samples
    requires clock.mean == p && clock.rejectRun == 0 && 0 < p < 0x8000_0000
    modifies clock, clock.ring
    ensures clock.Valid() && clock.accepted == old(clock.accepted) && clock.samples == old(clock.samples)
    ensures clock.rejectedInRow == old(clock.rejectedInRow) + (COLD_MAX_REJECT_RUN - 1)
    ensures clock.retunedInRow == old(clock.retunedInRow)
  {
    for k := 0 to COLD_MAX_REJECT_RUN - 1
      invariant clock.Valid() && clock.samples == old(clock.samples) && clock.accepted == old(clock.accepted)
      invariant clock.mean == p && clock.rejectRun == k
      invariant clock.rejectedInRow == old(clock.rejectedInRow) + k && clock.retunedInRow == old(clock.retunedInRow)
    {
      clock.AcceptCold(2 * p);
    }
  }
}
