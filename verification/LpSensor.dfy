/**
 * The LP core's measuring loops (components/lp_sensor_core/lp_core/main.cpp): averaging, and heater
 * maintenance with its bounds. `sensor(n)` is the outcome of the n-th measurement of a call.
 */
module LpSensor {
  import opened Words
  import opened LpCore

  type Sensor = nat -> Option<Reading>

  const HEATER_DURATION_MS: nat := 20000
  const COOLDOWN_MAX_MS: nat := 240000
  const COOLDOWN_POLL_MS: nat := 2000
  const RH_SETTLE_MS: nat := 90000
  const MEASURE_DELAY_US: nat := 10000
  const INTER_SAMPLE_US: nat := 100000
  const COOLDOWN_EPSILON: real := 0.3

  const CREEP_DELAY_US: nat := 1100000
  const SELFTEST_DELAY_US: nat := 110000
  const CREEP_DELTA: real := 40.0
  const SELFTEST_DELTA: real := 5.0

  // ---- averaging -----------------------------------------------------------------------------------------

  /** The readings that succeeded among the first `n`. */
  function Good(sensor: Sensor, n: nat): (rs: seq<Reading>) {
    if n == 0 then []
    else if sensor(n - 1).Some? then Good(sensor, n - 1) + [sensor(n - 1).value] else Good(sensor, n - 1)
  }

  function Total(rs: seq<Reading>): (s: Reading) {
    if rs == [] then Reading(0.0, 0.0)
    else
      var before := Total(rs[..|rs| - 1]);
      Reading(before.t + rs[|rs| - 1].t, before.h + rs[|rs| - 1].h)
  }

  lemma TotalOfOne(r: Reading)
    ensures Total([r]) == r
  {
    assert [r][..0] == [];
  }

  lemma {:induction false} TotalOfBoth(a: seq<Reading>, b: seq<Reading>)
    ensures Total(a + b) == Reading(Total(a).t + Total(b).t, Total(a).h + Total(b).h)
  {
    if b == [] {
      assert a + b == a;
    } else {
      TotalOfBoth(a, b[..|b| - 1]);
      assert (a + b)[..|a + b| - 1] == a + b[..|b| - 1];
    }
  }

  /** The readings that go into an average are the ones of its parts, in order; a failed one contributes nothing. */
  lemma {:induction false} GoodOfBoth(sensor: Sensor, m: nat, n: nat)
    ensures Good(sensor, m + n) == Good(sensor, m) + Good((k: nat) => sensor(m + k), n)
    ensures Good(sensor, 1) == if sensor(0).Some? then [sensor(0).value] else []
  {
    if n > 0 {
      GoodOfBoth(sensor, m, n - 1);
    }
  }

  /** The time the delays of an averaged reading add up to, in microseconds. */
  function MeasureUs(samples: uint32): (us: nat) {
    var n := Max(1, samples);
    n * MEASURE_DELAY_US + (n - 1) * INTER_SAMPLE_US
  }

  /** One averaged reading: the mean of the readings that succeeded, none only if all failed. */
  method MeasureAveraged(sensor: Sensor, samples: uint32) returns (r: Option<Reading>, elapsedUs: nat)
    ensures var good := Good(sensor, Max(1, samples));
            && (r.None? <==> good == [])
            && (r.Some? ==> r.value == Reading(Total(good).t / |good| as real, Total(good).h / |good| as real))
    ensures elapsedUs == MeasureUs(samples)
  {
    var n := if samples == 0 then 1 else samples;
    var sumT, sumH, ok := 0.0, 0.0, 0;
    elapsedUs := 0;
    ghost var good: seq<Reading> := [];
    for i := 0 to n
      invariant good == Good(sensor, i) && ok == |good| && Reading(sumT, sumH) == Total(good)
      invariant elapsedUs == i * MEASURE_DELAY_US + (if i > 0 then (i - 1) * INTER_SAMPLE_US else 0)
    {
      if i > 0 {
        elapsedUs := elapsedUs + INTER_SAMPLE_US;
      }
      var m := sensor(i);
      elapsedUs := elapsedUs + MEASURE_DELAY_US;
      if m.Some? {
        sumT, sumH, ok := sumT + m.value.t, sumH + m.value.h, ok + 1;
        good := good + [m.value];
        assert good[..|good| - 1] == Good(sensor, i);
      }
    }
    if ok == 0 {
      return None, elapsedUs;
    }
    r := Some(Reading(sumT / ok as real, sumH / ok as real));
  }

  ghost predicate Within(rs: seq<Reading>, lo: Reading, hi: Reading) {
    forall r :: r in rs ==> lo.t <= r.t <= hi.t && lo.h <= r.h <= hi.h
  }

  /** The sum of `k` copies of `x`. */
  ghost function Times(x: real, k: nat): (s: real) {
    if k == 0 then 0.0 else Times(x, k - 1) + x
  }

  lemma {:induction false} TotalWithin(rs: seq<Reading>, lo: Reading, hi: Reading)
    requires Within(rs, lo, hi)
    ensures Times(lo.t, |rs|) <= Total(rs).t <= Times(hi.t, |rs|)
    ensures Times(lo.h, |rs|) <= Total(rs).h <= Times(hi.h, |rs|)
  {
    if rs != [] {
      assert rs[|rs| - 1] in rs;
      TotalWithin(rs[..|rs| - 1], lo, hi);
    }
  }

  lemma {:induction false} TimesIsProduct(x: real, k: nat)
    ensures Times(x, k) == x * k as real
  {
    if k > 0 {
      TimesIsProduct(x, k - 1);
      assert x * k as real == x * (k - 1) as real + x;
    }
  }

  lemma Divided(a: real, lo: real, hi: real, n: real)
    requires n > 0.0 && lo * n <= a <= hi * n
    ensures lo <= a / n <= hi
  {
    var q := a / n;
    assert q * n == a;
  }

  lemma MeanWithin(a: real, lo: real, hi: real, k: nat)
    requires k > 0 && Times(lo, k) <= a <= Times(hi, k)
    ensures lo <= a / k as real <= hi
  {
    TimesIsProduct(lo, k);
    TimesIsProduct(hi, k);
    Divided(a, lo, hi, k as real);
  }

  /** The averaged value lies between the smallest and the largest reading that went into it. */
  lemma AverageWithin(rs: seq<Reading>, lo: Reading, hi: Reading)
    requires rs != [] && Within(rs, lo, hi)
    ensures lo.t <= Total(rs).t / |rs| as real <= hi.t && lo.h <= Total(rs).h / |rs| as real <= hi.h
  {
    TotalWithin(rs, lo, hi);
    MeanWithin(Total(rs).t, lo.t, hi.t, |rs|);
    MeanWithin(Total(rs).h, lo.h, hi.h, |rs|);
  }

  // ---- heater maintenance -----------------------------------------------------------------------------------

  function MaxPulses(delayUs: nat): (n: nat)
    requires delayUs > 0
  {
    HEATER_DURATION_MS * 1000 / delayUs
  }

  const MAX_COOLDOWN: nat := COOLDOWN_MAX_MS / COOLDOWN_POLL_MS

  /** Measurement `k` raised the temperature to the target over the baseline reading. */
  predicate Reaches(sensor: Sensor, t0: real, target: real, k: nat) {
    sensor(k).Some? && sensor(k).value.t - t0 >= target
  }

  /** Measurement `k` found the temperature back near the baseline. */
  predicate Cooled(sensor: Sensor, t0: real, k: nat) {
    sensor(k).Some? && sensor(k).value.t <= t0 + COOLDOWN_EPSILON
  }

  /** The last successful one of the first `n` measurements; the first is. */
  function LastGood(sensor: Sensor, n: nat): (r: Reading)
    requires n > 0 && sensor(0).Some?
    ensures exists k: nat :: k < n && sensor(k) == Some(r)
  {
    if sensor(n - 1).Some? then sensor(n - 1).value else LastGood(sensor, n - 1)
  }

  lemma {:induction false} LastGoodIs(sensor: Sensor, n: nat, k: nat, r: Reading)
    requires k < n && sensor(0).Some? && sensor(k) == Some(r) && forall j: nat :: k < j < n ==> sensor(j).None?
    ensures LastGood(sensor, n) == r
  {
    if k < n - 1 {
      LastGoodIs(sensor, n - 1, k, r);
    }
  }

  /** How many pulses are given: up to the first that reaches the target, or all that the window has room for. */
  ghost predicate PulsesUsed(sensor: Sensor, t0: real, delayUs: nat, target: real, used: nat) {
    && delayUs > 0 && used <= MaxPulses(delayUs)
    && (forall k: nat :: 1 <= k < used ==> !Reaches(sensor, t0, target, k))
    && (used < MaxPulses(delayUs) ==> used > 0 && Reaches(sensor, t0, target, used))
  }

  /** How often the cooling is looked at, from measurement `from` on: up to the first one back, or all. */
  ghost predicate CoolsUsed(sensor: Sensor, t0: real, from: nat, used: nat) {
    && used <= MAX_COOLDOWN
    && (forall k: nat :: from <= k && k + 1 < from + used ==> !Cooled(sensor, t0, k))
    && (used < MAX_COOLDOWN ==> used > 0 && Cooled(sensor, t0, from + used - 1))
  }

  /** Pulses until the target rise; the pulses are measurements 1, 2, and so on, and `used` counts them. */
  method Pulse(sensor: Sensor, r0: Reading, delayUs: nat, target: real)
    returns (last: Reading, used: nat, elapsedUs: nat)
    requires delayUs > 0 && target > 0.0 && sensor(0) == Some(r0)
    ensures PulsesUsed(sensor, r0.t, delayUs, target, used) && last == LastGood(sensor, 1 + used)
    ensures elapsedUs == used * delayUs
    ensures last.t - r0.t >= target
            <==> exists k: nat :: 1 <= k <= MaxPulses(delayUs) && Reaches(sensor, r0.t, target, k)
  {
    last, used, elapsedUs := r0, 0, 0;
    while used < MaxPulses(delayUs)
      invariant elapsedUs == used * delayUs
      invariant used <= MaxPulses(delayUs) && last == LastGood(sensor, 1 + used)
      invariant forall k: nat :: 1 <= k <= used ==> !Reaches(sensor, r0.t, target, k)
      invariant last.t - r0.t < target
    {
      used, elapsedUs := used + 1, elapsedUs + delayUs;
      var m := sensor(used);
      if m.Some? {
        last := m.value;
        if last.t - r0.t >= target {
          assert Reaches(sensor, r0.t, target, used);
          return;
        }
      }
    }
  }

  /** Cooling until the temperature is back near the baseline, from measurement `from` on. */
  method CoolDown(sensor: Sensor, from: nat, t0: real, heated: Reading)
    returns (last: Reading, used: nat, elapsedUs: nat)
    requires from > 0 && sensor(0).Some? && heated == LastGood(sensor, from)
    ensures CoolsUsed(sensor, t0, from, used) && last == LastGood(sensor, from + used)
    ensures forall k: nat :: from <= k && k + 1 < from + used && sensor(k).Some? ==> sensor(k).value.t > t0 + 0.3
    ensures used < 120 ==> used > 0 && sensor(from + used - 1).Some? && sensor(from + used - 1).value.t <= t0 + 0.3
    ensures elapsedUs == used * (COOLDOWN_POLL_MS * 1000 + MEASURE_DELAY_US)
  {
    last, used, elapsedUs := heated, 0, 0;
    while used < MAX_COOLDOWN
      invariant elapsedUs == used * (COOLDOWN_POLL_MS * 1000 + MEASURE_DELAY_US)
      invariant used <= MAX_COOLDOWN && last == LastGood(sensor, from + used)
      invariant forall k: nat :: from <= k < from + used && sensor(k).Some? ==> sensor(k).value.t > t0 + 0.3
    {
      elapsedUs := elapsedUs + COOLDOWN_POLL_MS * 1000;
      var m := sensor(from + used);
      used, elapsedUs := used + 1, elapsedUs + MEASURE_DELAY_US;
      if m.Some? {
        last := m.value;
        if last.t <= t0 + COOLDOWN_EPSILON {
          return;
        }
      }
    }
  }

  /** The time the delays of a maintenance run add up to, in microseconds. */
  function Elapsed(delayUs: nat, pulses: nat, cools: nat): (us: nat) {
    MEASURE_DELAY_US + pulses * delayUs + cools * (COOLDOWN_POLL_MS * 1000 + MEASURE_DELAY_US)
    + RH_SETTLE_MS * 1000 + MEASURE_DELAY_US
  }

  /** What a maintenance run measures and how long its delays are, given how its two loops ended. */
  ghost predicate RunIs(sensor: Sensor, delayUs: nat, target: real, m: Option<Maintenance>, elapsedUs: nat,
                        pulses: nat, cools: nat) {
    if sensor(0).None? then m.None? && elapsedUs == MEASURE_DELAY_US
    else
      var t0 := sensor(0).value.t;
      && PulsesUsed(sensor, t0, delayUs, target, pulses) && CoolsUsed(sensor, t0, 1 + pulses, cools)
      && m.Some? && m.value.clean == LastGood(sensor, 2 + pulses + cools)
      && m.value.delta == LastGood(sensor, 1 + pulses).t - t0 && m.value.passed == (m.value.delta >= target)
      && elapsedUs == Elapsed(delayUs, pulses, cools)
  }

  /** A maintenance run has this result and takes this long. */
  ghost predicate RunsTo(sensor: Sensor, delayUs: nat, target: real, m: Option<Maintenance>, elapsedUs: nat) {
    exists pulses: nat, cools: nat :: RunIs(sensor, delayUs, target, m, elapsedUs, pulses, cools)
  }

  lemma OnePulseCount(sensor: Sensor, t0: real, delayUs: nat, target: real, p: nat, q: nat)
    requires PulsesUsed(sensor, t0, delayUs, target, p) && PulsesUsed(sensor, t0, delayUs, target, q)
    ensures p == q
  {
  }

  lemma OneCoolCount(sensor: Sensor, t0: real, from: nat, c: nat, d: nat)
    requires CoolsUsed(sensor, t0, from, c) && CoolsUsed(sensor, t0, from, d)
    ensures c == d
  {
  }

  /** The sensor alone decides the result and the time. */
  lemma RunIsDetermined(sensor: Sensor, delayUs: nat, target: real, m: Option<Maintenance>, us: nat,
                        o: Option<Maintenance>, vs: nat)
    requires RunsTo(sensor, delayUs, target, m, us) && RunsTo(sensor, delayUs, target, o, vs)
    ensures m == o && us == vs
  {
    var p: nat, c: nat :| RunIs(sensor, delayUs, target, m, us, p, c);
    var q: nat, d: nat :| RunIs(sensor, delayUs, target, o, vs, q, d);
    SameRun(sensor, delayUs, target, m, us, p, c, o, vs, q, d);
  }

  lemma SameRun(sensor: Sensor, delayUs: nat, target: real, m: Option<Maintenance>, us: nat, p: nat, c: nat,
                o: Option<Maintenance>, vs: nat, q: nat, d: nat)
    requires RunIs(sensor, delayUs, target, m, us, p, c) && RunIs(sensor, delayUs, target, o, vs, q, d)
    ensures m == o && us == vs
  {
    if sensor(0).Some? {
      OnePulseCount(sensor, sensor(0).value.t, delayUs, target, p, q);
      OneCoolCount(sensor, sensor(0).value.t, 1 + p, c, d);
    }
  }

  /** The longest run at a pulse length: no pulse reaches the target and no look finds the sensor cooled. */
  function LongestUs(delayUs: nat): (us: nat)
    requires delayUs > 0
  {
    Elapsed(delayUs, MaxPulses(delayUs), MAX_COOLDOWN)
  }

  lemma LongestRuns()
    ensures LongestUs(SELFTEST_DELAY_US) == 351130000 && LongestUs(CREEP_DELAY_US) == 351020000
  {
  }

  lemma ElapsedGrows(delayUs: nat, pulses: nat, cools: nat)
    requires delayUs > 0 && pulses <= MaxPulses(delayUs) && cools <= MAX_COOLDOWN
    ensures Elapsed(delayUs, pulses, cools) <= LongestUs(delayUs)
  {
    assert (MaxPulses(delayUs) - pulses) * delayUs >= 0;
  }

  lemma RunIsBounded(sensor: Sensor, delayUs: nat, target: real, m: Option<Maintenance>, elapsedUs: nat)
    requires delayUs > 0 && RunsTo(sensor, delayUs, target, m, elapsedUs)
    ensures elapsedUs <= LongestUs(delayUs)
  {
    var pulses: nat, cools: nat :| RunIs(sensor, delayUs, target, m, elapsedUs, pulses, cools);
    if sensor(0).Some? {
      ElapsedGrows(delayUs, pulses, cools);
    } else {
      ElapsedGrows(delayUs, 0, 0);
    }
  }

  /** A sensor that warms by four degrees at the first pulse, too little, and does not cool again. */
  function Sluggish(humidity: real): (sensor: Sensor) {
    (k: nat) => Some(Reading(if k == 0 then 20.0 else 24.0, humidity))
  }

  /** The bound is attained, at any target above four degrees: the two in use are 5 and 40. */
  lemma LongestIsAttained(delayUs: nat, target: real, humidity: real, sensor: Sensor)
    requires delayUs > 0 && MaxPulses(delayUs) > 0 && target > 4.0 && sensor == Sluggish(humidity)
    ensures RunsTo(sensor, delayUs, target, Some(Maintenance(Reading(24.0, humidity), 4.0, false)), LongestUs(delayUs))
  {
    var pulses := MaxPulses(delayUs);
    assert forall k: nat :: sensor(k) == Some(Reading(if k == 0 then 20.0 else 24.0, humidity));
    assert LastGood(sensor, 1 + pulses) == LastGood(sensor, 2 + pulses + MAX_COOLDOWN) == Reading(24.0, humidity);
    assert RunIs(sensor, delayUs, target, Some(Maintenance(Reading(24.0, humidity), 4.0, false)),
                 LongestUs(delayUs), pulses, MAX_COOLDOWN);
  }

  /** A sensor that does not answer while the heater would be on. */
  function Silent(): (sensor: Sensor) {
    (k: nat) => None
  }

  lemma SilentIsSkipped(delayUs: nat, target: real)
    ensures RunsTo(Silent(), delayUs, target, None, MEASURE_DELAY_US)
  {
    assert RunIs(Silent(), delayUs, target, None, MEASURE_DELAY_US, 0, 0);
  }

  /**
   * A maintenance run, against its specification: skipped exactly if the baseline reading fails; passed
   * exactly if one of the allowed pulses heats the sensor by the target; and what it hands on is the
   * last successful measurement of the whole run.
   */
  method RunHeaterMaintenance(sensor: Sensor, delayUs: nat, target: real)
    returns (m: Option<Maintenance>, elapsedUs: nat)
    requires delayUs > 0 && target > 0.0
    ensures RunsTo(sensor, delayUs, target, m, elapsedUs)
    ensures m.None? <==> sensor(0).None?
    ensures m.Some? ==> (m.value.passed <==> exists k: nat :: 1 <= k <= MaxPulses(delayUs)
                                                              && Reaches(sensor, sensor(0).value.t, target, k))
  {
    elapsedUs := MEASURE_DELAY_US;
    if sensor(0).None? {
      assert RunIs(sensor, delayUs, target, None, elapsedUs, 0, 0);
      return None, elapsedUs;
    }
    var r0 := sensor(0).value;
    var heated, pulses, pulsesUs := Pulse(sensor, r0, delayUs, target);
    var delta := heated.t - r0.t;
    var passed := delta >= target;
    var cooled, cools, coolsUs := CoolDown(sensor, 1 + pulses, r0.t, heated);
    elapsedUs := elapsedUs + pulsesUs + coolsUs + RH_SETTLE_MS * 1000;
    var final := sensor(1 + pulses + cools);
    elapsedUs := elapsedUs + MEASURE_DELAY_US;
    var clean := if final.Some? then final.value else cooled;
    m := Some(Maintenance(clean, delta, passed));
    assert RunIs(sensor, delayUs, target, m, elapsedUs, pulses, cools);
  }
}
