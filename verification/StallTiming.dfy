/**
 * Whether the LP core, busy with a heater run, can be taken for a stalled one: the times of LpSensor and
 * the schedule of LpSchedule under the supervisor of main/sensorstask.cpp. All times are in microseconds.
 */
module StallTiming {
  import opened Words
  import opened LpCore
  import Delivery
  import LpSchedule
  import LpSensor
  import Supervisor

  /** The settings of a boot that decide the times. */
  datatype Setup = Setup(poll: uint32, maxSkip: uint32, samples: uint32, heaterPeriod: uint32, rhTrigger: uint32)

  /** The LP timer takes its interval in 32-bit microseconds. */
  ghost predicate TimerFits(c: Setup) {
    0 < c.poll && c.poll * 1000000 < 0x1_0000_0000
  }

  function PollUs(c: Setup): (us: nat) {
    c.poll * 1000000
  }

  /** The wait for the safeguard: seconds, multiplied into 32-bit milliseconds. */
  function WindowUs(c: Setup): (us: nat) {
    Wrap32(LpSchedule.SafeguardWakeSec(c.poll, c.maxSkip) * 1000) * 1000
  }

  /** One invocation: what it reads, how its sensor answers while the heater is on, how long its two parts take. */
  datatype Invocation = Invocation(inputs: Inputs, sensor: LpSensor.Sensor, measureUs: nat, heaterUs: nat)

  type Feed = nat -> Invocation

  function Polls(feed: Feed, n: nat): (polls: seq<Inputs>)
    ensures |polls| == n
  {
    if n == 0 then [] else Polls(feed, n - 1) + [feed(n - 1).inputs]
  }

  /** The memory that invocation `k` of the feed finds, counted from 0, after the program was loaded. */
  function Found(feed: Feed, k: nat): (s: Lp) {
    LpSchedule.Run(Delivery.LOADED, Polls(feed, k))
  }

  /** The heater is on against sustained humidity, with the long pulses, and not for the self-test. */
  predicate Creeps(s: Lp, i: Inputs)
    requires i.reading.Some?
  {
    HumidityDue(Scheduled(s.report.heater, i.reading.value, i.config), i.config)
  }

  function PulseUs(creep: bool): (us: nat)
    ensures us > 0
  {
    if creep then LpSensor.CREEP_DELAY_US else LpSensor.SELFTEST_DELAY_US
  }

  function Target(creep: bool): (delta: real) {
    if creep then LpSensor.CREEP_DELTA else LpSensor.SELFTEST_DELTA
  }

  /** Maintenance of this sensor gives these inputs and takes at least this long. */
  ghost predicate Maintains(v: Invocation, creep: bool) {
    exists us: nat :: v.heaterUs <= us
                      && LpSensor.RunsTo(v.sensor, PulseUs(creep), Target(creep), v.inputs.maintenance, us)
  }

  /** An invocation under this setup, of which only failed bus transfers may cut the programmed delays short. */
  ghost predicate Possible(c: Setup, s: Lp, v: Invocation) {
    && v.inputs.config.periodGate == v.inputs.config.heaterPeriod == c.heaterPeriod
    && v.inputs.config.triggerGate == v.inputs.config.rhTrigger == c.rhTrigger
    && v.measureUs <= LpSensor.MeasureUs(c.samples)
    && if HeaterRuns(s, v.inputs) then Maintains(v, Creeps(s, v.inputs)) else v.heaterUs == 0
  }

  ghost predicate Admissible(c: Setup, feed: Feed) {
    forall k: nat :: Possible(c, Found(feed, k), feed(k))
  }

  // ---- when the heartbeat counts ----------------------------------------------------------------------------------

  /**
   * From the heartbeat's step to `n` until its next: the rest of that invocation, a poll interval of the
   * timer, which starts when an invocation returns, and the averaged reading of the next one.
   */
  function Gap(c: Setup, feed: Feed, n: nat): (us: nat) {
    (if n == 0 then 0 else feed(n - 1).heaterUs) + PollUs(c) + feed(n).measureUs
  }

  function BeatAt(c: Setup, feed: Feed, n: nat): (t: nat) {
    if n == 0 then 0 else BeatAt(c, feed, n - 1) + Gap(c, feed, n - 1)
  }

  /** The heartbeat at time `t`. */
  function BeatsBy(c: Setup, feed: Feed, t: nat): (n: nat) {
    if t == 0 then 0
    else
      var n := BeatsBy(c, feed, t - 1);
      if BeatAt(c, feed, n + 1) <= t then n + 1 else n
  }

  function Beats(c: Setup, feed: Feed): (beats: nat -> nat) {
    t => BeatsBy(c, feed, t)
  }

  lemma {:induction false} BeatAtGrows(c: Setup, feed: Feed, m: nat, n: nat)
    requires TimerFits(c) && m <= n
    ensures BeatAt(c, feed, m) + (n - m) * 1000000 <= BeatAt(c, feed, n)
    decreases n
  {
    if m < n {
      BeatAtGrows(c, feed, m, n - 1);
    }
  }

  lemma {:induction false} BeatsAreThen(c: Setup, feed: Feed, t: nat)
    requires TimerFits(c)
    ensures BeatAt(c, feed, BeatsBy(c, feed, t)) <= t < BeatAt(c, feed, BeatsBy(c, feed, t) + 1)
  {
    if t == 0 {
      BeatAtGrows(c, feed, 0, 1);
    } else {
      BeatsAreThen(c, feed, t - 1);
      var n := BeatsBy(c, feed, t - 1);
      NextMicrosecond(c, feed, t, n);
      assert BeatsBy(c, feed, t) == if BeatAt(c, feed, n + 1) <= t then n + 1 else n;
    }
  }

  lemma NextMicrosecond(c: Setup, feed: Feed, t: nat, n: nat)
    requires TimerFits(c) && t > 0 && BeatAt(c, feed, n) <= t - 1 < BeatAt(c, feed, n + 1)
    ensures var m := if BeatAt(c, feed, n + 1) <= t then n + 1 else n;
            BeatAt(c, feed, m) <= t < BeatAt(c, feed, m + 1)
  {
    BeatAtGrows(c, feed, n + 1, n + 2);
  }

  lemma BeatIs(c: Setup, feed: Feed, t: nat, n: nat)
    requires TimerFits(c) && BeatAt(c, feed, n) <= t < BeatAt(c, feed, n + 1)
    ensures BeatsBy(c, feed, t) == n
  {
    BeatsAreThen(c, feed, t);
    var b := BeatsBy(c, feed, t);
    if b < n {
      BeatAtGrows(c, feed, b + 1, n);
    } else if n < b {
      BeatAtGrows(c, feed, n + 1, b);
    }
  }

  lemma BeatsGrow(c: Setup, feed: Feed, t: nat, u: nat)
    requires TimerFits(c) && t <= u
    ensures BeatsBy(c, feed, t) <= BeatsBy(c, feed, u)
  {
    BeatsAreThen(c, feed, t);
    BeatsAreThen(c, feed, u);
    NoEarlier(c, feed, t, u, BeatsBy(c, feed, t), BeatsBy(c, feed, u));
  }

  lemma NoEarlier(c: Setup, feed: Feed, t: nat, u: nat, m: nat, n: nat)
    requires TimerFits(c) && BeatAt(c, feed, m) <= t <= u < BeatAt(c, feed, n + 1)
    ensures m <= n
  {
    if n < m {
      BeatAtGrows(c, feed, n + 1, m);
    }
  }

  lemma FeedBeats(c: Setup, feed: Feed, end: nat)
    requires TimerFits(c) && BeatsBy(c, feed, end) < 0x1_0000_0000
    ensures Supervisor.Beating(Beats(c, feed), end)
  {
    forall t: nat, u: nat | t <= u
      ensures Beats(c, feed)(t) <= Beats(c, feed)(u)
    {
      BeatsGrow(c, feed, t, u);
    }
  }

  // ---- the longest silence ----------------------------------------------------------------------------------------

  /** The longest that the heater of this setup can keep the LP core busy. */
  function HeaterUs(c: Setup): (us: nat) {
    if c.heaterPeriod > 0 then LpSensor.LongestUs(LpSensor.SELFTEST_DELAY_US)
    else if c.rhTrigger > 0 then LpSensor.LongestUs(LpSensor.CREEP_DELAY_US)
    else 0
  }

  /** The longest time between two steps of the heartbeat. */
  function SilenceUs(c: Setup): (us: nat) {
    HeaterUs(c) + PollUs(c) + LpSensor.MeasureUs(c.samples)
  }

  lemma HeaterBound(c: Setup, s: Lp, v: Invocation)
    requires Possible(c, s, v)
    ensures v.heaterUs <= HeaterUs(c)
  {
    LpSensor.LongestRuns();
    if HeaterRuns(s, v.inputs) {
      var creep := Creeps(s, v.inputs);
      var us: nat :| v.heaterUs <= us
                     && LpSensor.RunsTo(v.sensor, PulseUs(creep), Target(creep), v.inputs.maintenance, us);
      LpSensor.RunIsBounded(v.sensor, PulseUs(creep), Target(creep), v.inputs.maintenance, us);
    }
  }

  lemma GapBound(c: Setup, feed: Feed, n: nat)
    requires Admissible(c, feed)
    ensures Gap(c, feed, n) <= SilenceUs(c)
  {
    assert Possible(c, Found(feed, n), feed(n));
    if n > 0 {
      assert Possible(c, Found(feed, n - 1), feed(n - 1));
      HeaterBound(c, Found(feed, n - 1), feed(n - 1));
    }
  }

  // ---- what the looks read ----------------------------------------------------------------------------------------

  /**
   * Invocation `n`, counted from 0, holds the lock: while it averages its readings, up to its step of the
   * heartbeat, and again for the moment after its heater. Ten attempts at such a time read nothing.
   */
  ghost predicate LockedIn(c: Setup, feed: Feed, n: nat, t: nat) {
    || BeatAt(c, feed, n + 1) - feed(n).measureUs <= t <= BeatAt(c, feed, n + 1)
    || (feed(n).heaterUs > 0 && t == BeatAt(c, feed, n + 1) + feed(n).heaterUs)
  }

  ghost predicate Locked(c: Setup, feed: Feed, t: nat) {
    exists n: nat :: LockedIn(c, feed, n, t)
  }

  ghost function Locks(c: Setup, feed: Feed): (locked: nat -> bool) {
    (t: nat) => Locked(c, feed, t)
  }

  /** A run of the main loop: what its passes saw, and when they took their snapshots; pass `n` is its last. */
  datatype Watch = Watch(unconfirmed: bool, passes: seq<Supervisor.Pass>, at: seq<nat>, n: nat)

  /**
   * The loop watches an LP core that is never stalled and has begun fewer than 2^32 invocations, and the
   * last pass restarts the chip for a stalled one.
   */
  ghost predicate FalseAlarm(c: Setup, feed: Feed, w: Watch) {
    && Admissible(c, feed) && |w.at| == |w.passes| == w.n + 1
    && Supervisor.Timed(w.unconfirmed, w.passes, w.at, Beats(c, feed), Locks(c, feed), WindowUs(c))
    && BeatsBy(c, feed, w.at[w.n]) < 0x1_0000_0000
    && Supervisor.Before(w.unconfirmed, w.passes, w.n).reboot.Running?
    && Supervisor.Before(w.unconfirmed, w.passes, w.n + 1).reboot.LpStall?
  }

  /** The alarm is one of zeroed looks on a remembered zero. */
  ghost predicate OverZeroes(c: Setup, feed: Feed, w: Watch)
    requires |w.at| == |w.passes| == w.n + 1
  {
    exists m: nat :: OverZeroesFrom(w, Beats(c, feed), m)
  }

  ghost predicate OverZeroesFrom(w: Watch, beats: nat -> nat, m: nat)
    requires |w.at| == |w.passes| == w.n + 1
  {
    && m < w.n && Supervisor.TimedOut(w.unconfirmed, w.passes, m) && Supervisor.TimedOut(w.unconfirmed, w.passes, w.n)
    && Supervisor.ZeroPair(w.passes, w.at, beats, m, w.n)
  }

  lemma SilenceInGap(c: Setup, feed: Feed, t: nat, u: nat)
    requires TimerFits(c) && Admissible(c, feed) && Supervisor.Silent(Beats(c, feed), t, u)
    ensures u - t < SilenceUs(c)
  {
    assert Beats(c, feed)(u) == Beats(c, feed)(t);
    BeatsAreThen(c, feed, t);
    BeatsAreThen(c, feed, u);
    GapBound(c, feed, BeatsBy(c, feed, t));
  }

  lemma AlarmPair(w: Watch, beats: nat -> nat, locked: nat -> bool, window: nat) returns (m: nat)
    requires |w.at| == |w.passes| == w.n + 1 && Supervisor.Beating(beats, w.at[w.n])
    requires Supervisor.Timed(w.unconfirmed, w.passes, w.at, beats, locked, window)
    requires Supervisor.Before(w.unconfirmed, w.passes, w.n).reboot.Running?
    requires Supervisor.Before(w.unconfirmed, w.passes, w.n + 1).reboot.LpStall?
    ensures OverZeroesFrom(w, beats, m)
            || (m < w.n && Supervisor.LastLook(w.passes, w.at, m) + 2 * window <= w.at[w.n]
                && Supervisor.Silent(beats, Supervisor.LastLook(w.passes, w.at, m), w.at[w.n]))
  {
    Supervisor.StallAlarmIff(w.unconfirmed, w.passes, w.at, beats, locked, window, w.n);
    m :| Supervisor.Alarms(w.unconfirmed, w.passes, w.at, beats, window, m, w.n);
  }

  /** Without zeroed looks an alarm needs a silence of two windows, and no longer one than the setup has. */
  lemma AlarmNeedsGap(c: Setup, feed: Feed, w: Watch, beats: nat -> nat)
    requires TimerFits(c) && FalseAlarm(c, feed, w) && beats == Beats(c, feed)
    ensures OverZeroes(c, feed, w) || 2 * WindowUs(c) < SilenceUs(c)
  {
    FeedBeats(c, feed, w.at[w.n]);
    var m := AlarmPair(w, beats, Locks(c, feed), WindowUs(c));
    if !OverZeroesFrom(w, beats, m) {
      SilenceInGap(c, feed, Supervisor.LastLook(w.passes, w.at, m), w.at[w.n]);
    }
  }

  /** Both stalls of the alarm read zeroes of a working LP core. */
  ghost predicate BothZeroed(w: Watch, beats: nat -> nat, m: nat)
    requires |w.at| == |w.passes| == w.n + 1
  {
    && m < w.n && Supervisor.TimedOut(w.unconfirmed, w.passes, m) && Supervisor.Remembered(w.passes, m) == 0
    && Supervisor.Zeroed(w.passes[m], beats(w.at[m])) && Supervisor.Zeroed(w.passes[w.n], beats(w.at[w.n]))
  }

  lemma FirstBeat(c: Setup, feed: Feed, t: nat)
    requires TimerFits(c) && Admissible(c, feed) && BeatsBy(c, feed, t) == 0
    ensures t < PollUs(c) + LpSensor.MeasureUs(c.samples)
  {
    BeatsAreThen(c, feed, t);
    assert Possible(c, Found(feed, 0), feed(0));
    assert BeatAt(c, feed, 1) == Gap(c, feed, 0);
  }

  lemma StallsAreLate(w: Watch, beats: nat -> nat, locked: nat -> bool, window: nat, m: nat)
    requires |w.at| == |w.passes| == w.n + 1 && OverZeroesFrom(w, beats, m) && beats(0) == 0
    requires Supervisor.Timed(w.unconfirmed, w.passes, w.at, beats, locked, window)
    ensures window <= w.at[m]
  {
    Supervisor.TwoWindows(w.unconfirmed, w.passes, w.at, beats, locked, window, m, w.n);
  }

  /** Where the window outlasts the first poll, both looks of such an alarm are zeroed. */
  lemma ZeroedTwice(c: Setup, feed: Feed, w: Watch, beats: nat -> nat, m: nat)
    requires TimerFits(c) && FalseAlarm(c, feed, w) && beats == Beats(c, feed) && OverZeroesFrom(w, beats, m)
    requires PollUs(c) + LpSensor.MeasureUs(c.samples) <= WindowUs(c)
    ensures BothZeroed(w, beats, m)
  {
    StallsAreLate(w, beats, Locks(c, feed), WindowUs(c), m);
    if beats(w.at[m]) == 0 {
      FirstBeat(c, feed, w.at[m]);
    }
  }

  // ---- runs that the code can have --------------------------------------------------------------------------------

  /** How long a pass may wait for the network before its snapshot. */
  const ATTACH_US: nat := 30000000

  /** When invocation number `b` returns; if it is flagged it asks for a wake then. */
  function ReturnAt(c: Setup, feed: Feed, b: nat): (t: nat)
    requires b > 0
  {
    BeatAt(c, feed, b) + feed(b - 1).heaterUs
  }

  predicate Flagged(feed: Feed, b: nat) {
    Found(feed, b).report.wake
  }

  /** The flag that a clean snapshot shows: while the heater is on, that of the invocation before. */
  predicate FlagAt(c: Setup, feed: Feed, t: nat) {
    var b := BeatsBy(c, feed, t);
    b > 0 && if t < ReturnAt(c, feed, b) then Flagged(feed, b - 1) else Flagged(feed, b)
  }

  /** No wake is asked for strictly between two times. */
  ghost predicate Undisturbed(c: Setup, feed: Feed, from: nat, to: nat) {
    forall b: nat :: b > 0 && Flagged(feed, b) ==> ReturnAt(c, feed, b) <= from || to <= ReturnAt(c, feed, b)
  }

  function Timeout(c: Setup, p: Supervisor.Pass): (us: nat) {
    if p.dueAtWait && !p.otaAtWait then PollUs(c) else WindowUs(c)
  }

  ghost predicate AskedAt(c: Setup, feed: Feed, t: nat) {
    exists b: nat :: b > 0 && Flagged(feed, b) && ReturnAt(c, feed, b) == t
  }

  /** The wait of a pass that began at `from` and waits since `since` returns at `to`: at a wake or a timeout. */
  ghost predicate Waits(c: Setup, feed: Feed, p: Supervisor.Pass, from: nat, since: nat, to: nat) {
    && Undisturbed(c, feed, from, to)
    && if p.lpWoke then since <= to <= since + Timeout(c, p) && AskedAt(c, feed, to) else to == since + Timeout(c, p)
  }

  /** What a pass begun at `from` sees at `t`: the flag of its snapshot, after no more than the gate allows. */
  ghost predicate Sees(c: Setup, feed: Feed, p: Supervisor.Pass, from: nat, t: nat) {
    && from <= t <= from + ATTACH_US && p.attached
    && p.wake == (FlagAt(c, feed, t) && !Supervisor.Zeroed(p, BeatsBy(c, feed, t)))
  }

  /**
   * The code can have this run with no wake lost: every wait ends at the first wake asked for or at its
   * timeout, and every look follows within the gate's time. What a pass does besides takes no time.
   */
  ghost predicate Awaited(c: Setup, feed: Feed, w: Watch, begins: seq<nat>) {
    && |w.at| == |w.passes| == |begins| == w.n + 1 && begins[0] == 0
    && (forall k: nat :: k <= w.n ==> Sees(c, feed, w.passes[k], begins[k], w.at[k]))
    && (forall k: nat :: k < w.n ==> Waits(c, feed, w.passes[k], begins[k], w.at[k], begins[k + 1]))
  }

  /** Settings under which the runs below are such: with at most 16 samples all are whose times fit 32 bits. */
  ghost predicate Ordinary(c: Setup) {
    LpSensor.MeasureUs(c.samples) <= ATTACH_US && PollUs(c) + LpSensor.MeasureUs(c.samples) < WindowUs(c)
  }

  lemma WindowFits(c: Setup, sec: nat)
    requires sec == (c.maxSkip + 3) * c.poll && c.maxSkip + 3 <= sec && sec * 1000 < 0x1_0000_0000
    ensures WindowUs(c) == sec * 1000000
  {
    assert Wrap32(c.maxSkip + 3) == c.maxSkip + 3;
    assert LpSchedule.SafeguardWakeSec(c.poll, c.maxSkip) == Wrap32(sec) == sec;
    assert Wrap32(sec * 1000) == sec * 1000;
  }

  lemma FewSamples(samples: uint32)
    requires samples <= 16
    ensures LpSensor.MeasureUs(samples) <= 1660000
  {
  }

  lemma RuntimeSettingsAreOrdinary(c: Setup)
    requires TimerFits(c) && c.samples <= 16 && (c.maxSkip + 3) * c.poll * 1000 < 0x1_0000_0000
    ensures Ordinary(c)
  {
    var sec := (c.maxSkip + 3) * c.poll;
    LpSchedule.MulLe(3, c.maxSkip + 3, c.poll);
    LpSchedule.MulLe(1, c.poll, c.maxSkip + 3);
    FewSamples(c.samples);
    WindowFits(c, sec);
  }

  // ---- a broken sensor and two zeroed looks -----------------------------------------------------------------------

  /** Every reading fails, from the first on. */
  function Broken(c: Setup): (feed: Feed) {
    (k: nat) => Invocation(
      Inputs(Ack(0, 0.0, 0.0),
             Config(0.0, 0.0, 0.0, 0.0, 0.0, 0, c.heaterPeriod, c.heaterPeriod, c.rhTrigger, c.rhTrigger), None, None),
      LpSensor.Silent(), LpSensor.MeasureUs(c.samples), 0)
  }

  /** A sensor that never answered is never flagged. */
  lemma {:induction false} BrokenIsQuiet(c: Setup, feed: Feed, n: nat)
    requires feed == Broken(c)
    ensures !Found(feed, n).report.wake && !Found(feed, n).report.status.ok
  {
    if n > 0 {
      BrokenIsQuiet(c, feed, n - 1);
      assert Polls(feed, n)[..n - 1] == Polls(feed, n - 1);
    }
  }

  lemma BrokenIsAdmissible(c: Setup, feed: Feed)
    requires feed == Broken(c)
    ensures Admissible(c, feed)
  {
  }

  /** The last moment of the first locked window, past the first heartbeat, that ends after `t`. */
  function NextZero(c: Setup, feed: Feed, t: nat): (u: int) {
    BeatAt(c, feed, Max(BeatsBy(c, feed, t), 1) + 1) - 1
  }

  lemma NextZeroIs(c: Setup, feed: Feed, t: nat, u: int)
    requires TimerFits(c) && feed == Broken(c) && u == NextZero(c, feed, t)
    ensures t <= u && Locked(c, feed, u) && BeatsBy(c, feed, u) == Max(BeatsBy(c, feed, t), 1)
    ensures BeatsBy(c, feed, t) > 0 ==> u < t + PollUs(c) + LpSensor.MeasureUs(c.samples)
  {
    var b := BeatsBy(c, feed, t);
    var k: nat := Max(b, 1);
    BeatsAreThen(c, feed, t);
    BeatAtGrows(c, feed, b, k);
    BeatAtGrows(c, feed, b + 1, k + 1);
    assert BeatAt(c, feed, k + 1) == BeatAt(c, feed, k) + Gap(c, feed, k);
    BeatIs(c, feed, u, k);
    assert LockedIn(c, feed, k, u);
  }

  lemma SlowBetween(c: Setup, feed: Feed, t: nat, u: nat, a: nat, b: nat)
    requires TimerFits(c) && t <= u && t < BeatAt(c, feed, a + 1) && BeatAt(c, feed, b) <= u
    ensures (b - a - 1) * 1000000 <= u - t
  {
    if a + 1 <= b {
      BeatAtGrows(c, feed, a + 1, b);
    }
  }

  /** The heartbeat counts at most one a second. */
  lemma BeatsAreSlow(c: Setup, feed: Feed, t: nat, u: nat)
    requires TimerFits(c) && t <= u
    ensures (BeatsBy(c, feed, u) - BeatsBy(c, feed, t) - 1) * 1000000 <= u - t
  {
    BeatsAreThen(c, feed, t);
    BeatsAreThen(c, feed, u);
    SlowBetween(c, feed, t, u, BeatsBy(c, feed, t), BeatsBy(c, feed, u));
  }

  /** A look that reads zeroes, and then waits out the safeguard. */
  const ZERO_LOOK: Supervisor.Pass :=
    Supervisor.Pass(true, 0, false, false, false, false, false, false, false, true, true, false, false, false)

  /** At the boot and in two locked windows. */
  function ZeroWatch(t: nat, u: nat): (w: Watch) {
    Watch(false, [ZERO_LOOK, ZERO_LOOK, ZERO_LOOK], [0, t, u], 2)
  }

  lemma ZeroesRestart(passes: seq<Supervisor.Pass>)
    requires passes == [ZERO_LOOK, ZERO_LOOK, ZERO_LOOK]
    ensures Supervisor.Before(false, passes, 0).reason.LpWake?
    ensures Supervisor.Before(false, passes, 1).reason.SafeguardTimeout?
    ensures Supervisor.Before(false, passes, 2).reason.SafeguardTimeout?
    ensures Supervisor.Before(false, passes, 2).reboot.Running? && Supervisor.Before(false, passes, 3).reboot.LpStall?
  {
    assert passes[..0] == [];
    Supervisor.OneStep(false, passes, 0);
    Supervisor.OneStep(false, passes, 1);
    Supervisor.OneStep(false, passes, 2);
    ZeroSteps();
  }

  lemma ZeroSteps()
    ensures Supervisor.Next(Supervisor.Boot(false), ZERO_LOOK)
            == Supervisor.Task(0, 0, 0, Supervisor.SafeguardTimeout, false, false, Supervisor.Running)
    ensures Supervisor.Next(Supervisor.Task(0, 0, 0, Supervisor.SafeguardTimeout, false, false, Supervisor.Running),
                            ZERO_LOOK)
            == Supervisor.Task(0, 1, 0, Supervisor.SafeguardTimeout, false, false, Supervisor.Running)
    ensures Supervisor.Next(Supervisor.Task(0, 1, 0, Supervisor.SafeguardTimeout, false, false, Supervisor.Running),
                            ZERO_LOOK).reboot.LpStall?
  {
  }

  lemma ZeroesTimed(w: Watch, t: nat, u: nat, beats: nat -> nat, locked: nat -> bool, window: nat)
    requires w == ZeroWatch(t, u) && window <= t && t + window <= u && beats(0) == 0 && locked(t) && locked(u)
    ensures Supervisor.Timed(false, w.passes, w.at, beats, locked, window)
  {
    assert Supervisor.Reads(ZERO_LOOK, beats(0), locked(0)) && Supervisor.Reads(ZERO_LOOK, beats(t), locked(t));
    assert Supervisor.Reads(ZERO_LOOK, beats(u), locked(u));
    ZeroesRestart(w.passes);
  }

  lemma ZeroesPair(w: Watch, t: nat, u: nat, beats: nat -> nat)
    requires w == ZeroWatch(t, u) && beats(u) > 0
    ensures OverZeroesFrom(w, beats, 1)
  {
    ZeroesRestart(w.passes);
    assert Supervisor.Remembered(w.passes, 1) == 0;
    assert Supervisor.ZeroPair(w.passes, w.at, beats, 1, 2);
  }

  lemma WindowBound(c: Setup)
    ensures WindowUs(c) < 0x1_0000_0000 * 1000
  {
  }

  const WINDOW_SEC_MAX: nat := 4294968

  /** The first zeroed look after a window: how late it is, and how far the heartbeat can have come. */
  lemma NextLook(c: Setup, feed: Feed, t: nat) returns (u: nat)
    requires TimerFits(c) && feed == Broken(c)
    ensures t + WindowUs(c) <= u && Locked(c, feed, u)
    ensures 0 < BeatsBy(c, feed, u) <= BeatsBy(c, feed, t) + WINDOW_SEC_MAX
    ensures Ordinary(c) ==> u < t + WindowUs(c) + PollUs(c) + LpSensor.MeasureUs(c.samples)
  {
    var end := t + WindowUs(c);
    WindowBound(c);
    u := NextZero(c, feed, end);
    NextZeroIs(c, feed, end, u);
    BeatsAreSlow(c, feed, t, end);
    if BeatsBy(c, feed, end) == 0 {
      BrokenIsAdmissible(c, feed);
      FirstBeat(c, feed, end);
    }
  }

  lemma ZeroesAwaited(c: Setup, feed: Feed, t: nat, u: nat)
    requires TimerFits(c) && feed == Broken(c)
    requires WindowUs(c) <= t <= WindowUs(c) + ATTACH_US && t + WindowUs(c) <= u <= t + WindowUs(c) + ATTACH_US
    ensures Awaited(c, feed, ZeroWatch(t, u), [0, WindowUs(c), t + WindowUs(c)])
  {
    forall b: nat
      ensures !Flagged(feed, b)
    {
      BrokenIsQuiet(c, feed, b);
    }
    assert ZERO_LOOK.lpWoke == false && Timeout(c, ZERO_LOOK) == WindowUs(c);
  }

  lemma BrokenIsFalseAlarm(c: Setup, feed: Feed, w: Watch, t: nat, u: nat, beats: nat -> nat, locked: nat -> bool)
    requires feed == Broken(c) && w == ZeroWatch(t, u) && beats == Beats(c, feed) && locked == Locks(c, feed)
    requires WindowUs(c) <= t && t + WindowUs(c) <= u && locked(t) && locked(u)
    requires 0 < beats(u) < 0x1_0000_0000
    ensures FalseAlarm(c, feed, w) && OverZeroesFrom(w, beats, 1)
  {
    BrokenIsAdmissible(c, feed);
    ZeroesTimed(w, t, u, beats, locked, WindowUs(c));
    ZeroesPair(w, t, u, beats);
    ZeroesRestart(w.passes);
  }

  /** A false alarm over zeroed looks; with ordinary settings and polls that fit the gate, one the code can have. */
  ghost predicate ZeroedAlarm(c: Setup, feed: Feed, w: Watch, begins: seq<nat>) {
    && FalseAlarm(c, feed, w) && OverZeroes(c, feed, w)
    && (Ordinary(c) && PollUs(c) + LpSensor.MeasureUs(c.samples) <= ATTACH_US ==> Awaited(c, feed, w, begins))
  }

  lemma BrokenRun(c: Setup, feed: Feed) returns (w: Watch, begins: seq<nat>)
    requires TimerFits(c) && feed == Broken(c)
    ensures FalseAlarm(c, feed, w) && OverZeroesFrom(w, Beats(c, feed), 1)
    ensures Ordinary(c) && PollUs(c) + LpSensor.MeasureUs(c.samples) <= ATTACH_US ==> Awaited(c, feed, w, begins)
  {
    var t := NextLook(c, feed, 0);
    var u := NextLook(c, feed, t);
    w, begins := ZeroWatch(t, u), [0, WindowUs(c), t + WindowUs(c)];
    BrokenIsFalseAlarm(c, feed, w, t, u, Beats(c, feed), Locks(c, feed));
    if Ordinary(c) && PollUs(c) + LpSensor.MeasureUs(c.samples) <= ATTACH_US {
      ZeroesAwaited(c, feed, t, u);
    }
  }

  /**
   * Under every setup a working LP core is restarted for a stalled one if its sensor never answers and two
   * looks, each after a whole window, read zeroes: a broken sensor is never flagged, so only timeouts wake.
   */
  lemma BrokenSensorAlarms(c: Setup)
    requires TimerFits(c)
    ensures exists w: Watch, begins: seq<nat> :: ZeroedAlarm(c, Broken(c), w, begins)
  {
    var w, begins := BrokenRun(c, Broken(c));
    assert ZeroedAlarm(c, Broken(c), w, begins);
  }

  // ---- the heater run that is slow --------------------------------------------------------------------------------

  /** Every how many invocations the heater is on in the run below; without a heater any will do. */
  function Every(c: Setup): (n: uint32)
    ensures n > 0
  {
    if c.heaterPeriod > 0 then c.heaterPeriod else if c.rhTrigger > 0 then c.rhTrigger else 1
  }

  /** The invocation whose heater is slow: one that has another before it. */
  function SlowBeat(c: Setup): (n: uint32)
    ensures n > 1 && n % Every(c) == 0
  {
    if Every(c) == 1 then 2 else Every(c)
  }

  /** Dry air for the self-test, humid air for the other trigger. */
  function Humidity(c: Setup): (h: real) {
    if c.heaterPeriod > 0 then 50.0 else 95.0
  }

  function RunConfig(c: Setup, tempMin: real, rhMin: real, maxSkip: uint32): (config: Config) {
    Config(0.0, 0.0, 0.0, tempMin, rhMin, maxSkip, c.heaterPeriod, c.heaterPeriod, c.rhTrigger, c.rhTrigger)
  }

  /** Every value is flagged, and a heater that is due finds its sensor silent. */
  function QuickInvocation(c: Setup): (v: Invocation) {
    Invocation(Inputs(Ack(0, 0.0, 0.0), RunConfig(c, 0.0, 0.0, 0), Some(Reading(20.0, Humidity(c))), None),
               LpSensor.Silent(), LpSensor.MeasureUs(c.samples), 0)
  }

  /**
   * The last value was delivered, and thresholds and budget have been raised; the sensor is warm after the
   * first pulse, never as warm as asked for, and does not cool.
   */
  function SlowInvocation(c: Setup): (v: Invocation) {
    Invocation(Inputs(Ack(1, 20.0, Humidity(c)), RunConfig(c, 5.0, 1.0, 1), Some(Reading(20.0, Humidity(c))),
                      Some(Maintenance(Reading(24.0, Humidity(c)), 4.0, false))),
               LpSensor.Sluggish(Humidity(c)), LpSensor.MeasureUs(c.samples), HeaterUs(c))
  }

  function Slow(c: Setup): (feed: Feed) {
    (k: nat) => if k + 1 == SlowBeat(c) then SlowInvocation(c) else QuickInvocation(c)
  }

  lemma {:induction false} SlowPolls(c: Setup, feed: Feed, n: nat)
    requires feed == Slow(c)
    ensures forall k: nat :: k < n ==> Polls(feed, n)[k] == feed(k).inputs
  {
    if n > 0 {
      SlowPolls(c, feed, n - 1);
    }
  }

  lemma FoundNext(feed: Feed, k: nat)
    ensures Found(feed, k + 1) == Cycle(Found(feed, k), feed(k).inputs)
  {
    assert Polls(feed, k + 1)[..k] == Polls(feed, k);
  }

  lemma SlowOrQuick(c: Setup, feed: Feed, k: nat)
    requires feed == Slow(c)
    ensures feed(k) == if k + 1 == SlowBeat(c) then SlowInvocation(c) else QuickInvocation(c)
    ensures c.heaterPeriod > 0 ==> LpSchedule.TestsOnly(feed(k).inputs, c.heaterPeriod)
    ensures c.heaterPeriod == 0 && c.rhTrigger > 0 ==> LpSchedule.CreepsOnly(feed(k).inputs, c.rhTrigger)
    ensures c.heaterPeriod == 0 && c.rhTrigger == 0 ==> !HeaterRuns(Found(feed, k), feed(k).inputs)
  {
  }

  /** The heater is on in the run below where it is said to be, reached from the zeroed memory. */
  lemma SlowHeater(c: Setup, feed: Feed, k: nat)
    requires feed == Slow(c) && (c.heaterPeriod > 0 || c.rhTrigger > 0)
    ensures HeaterRuns(Found(feed, k), feed(k).inputs) <==> (k + 1) % Every(c) == 0
  {
    var polls := Polls(feed, k + 1);
    SlowPolls(c, feed, k + 1);
    forall j: nat | j < |polls|
      ensures c.heaterPeriod > 0 ==> LpSchedule.TestsOnly(polls[j], c.heaterPeriod)
      ensures c.heaterPeriod == 0 ==> LpSchedule.CreepsOnly(polls[j], c.rhTrigger)
    {
      SlowOrQuick(c, feed, j);
    }
    assert polls[..|polls| - 1] == Polls(feed, k) && polls[|polls| - 1] == feed(k).inputs;
    if c.heaterPeriod > 0 {
      LpSchedule.HeaterEveryPeriod(Delivery.LOADED, polls, c.heaterPeriod);
    } else {
      LpSchedule.HeaterEveryTrigger(Delivery.LOADED, polls, c.rhTrigger);
    }
  }

  /** Which of the two heater programmes it is. */
  lemma SlowCreeps(c: Setup, s: Lp, i: Inputs)
    requires i == SlowInvocation(c).inputs || i == QuickInvocation(c).inputs
    ensures HeaterRuns(s, i) ==> (Creeps(s, i) <==> c.heaterPeriod == 0)
    ensures HeaterRuns(s, i) ==> c.heaterPeriod > 0 || c.rhTrigger > 0
  {
  }

  lemma QuickMaintains(v: Invocation, creep: bool)
    requires v.heaterUs == 0 && v.inputs.maintenance.None? && v.sensor == LpSensor.Silent()
    ensures Maintains(v, creep)
  {
    LpSensor.SilentIsSkipped(PulseUs(creep), Target(creep));
  }

  lemma SlowMaintains(c: Setup, v: Invocation, creep: bool)
    requires v == SlowInvocation(c) && (creep <==> c.heaterPeriod == 0) && (c.heaterPeriod > 0 || c.rhTrigger > 0)
    ensures Maintains(v, creep)
  {
    LpSensor.LongestRuns();
    assert LpSensor.MaxPulses(PulseUs(creep)) > 0;
    LpSensor.LongestIsAttained(PulseUs(creep), Target(creep), Humidity(c), v.sensor);
    assert v.heaterUs <= LpSensor.LongestUs(PulseUs(creep));
  }

  lemma SlowIsPossible(c: Setup, feed: Feed, k: nat)
    requires feed == Slow(c)
    ensures Possible(c, Found(feed, k), feed(k))
  {
    var s, v := Found(feed, k), feed(k);
    SlowOrQuick(c, feed, k);
    SlowCreeps(c, s, v.inputs);
    if HeaterRuns(s, v.inputs) {
      if k + 1 == SlowBeat(c) {
        SlowMaintains(c, v, Creeps(s, v.inputs));
      } else {
        QuickMaintains(v, Creeps(s, v.inputs));
      }
    } else if c.heaterPeriod > 0 || c.rhTrigger > 0 {
      SlowHeater(c, feed, k);
    }
  }

  lemma SlowGap(c: Setup, feed: Feed)
    requires feed == Slow(c)
    ensures Gap(c, feed, SlowBeat(c)) == SilenceUs(c)
  {
    SlowOrQuick(c, feed, SlowBeat(c) - 1);
    SlowOrQuick(c, feed, SlowBeat(c));
  }

  // ---- what it flags ----------------------------------------------------------------------------------------------

  lemma QuickFlags(c: Setup, s: Lp)
    ensures Cycle(s, QuickInvocation(c).inputs).report.wake
    ensures s.consumed == 0 ==> Cycle(s, QuickInvocation(c).inputs).consumed == 0
  {
  }

  /** All before the slow one are flagged, and none takes an acknowledgement. */
  lemma {:induction false} QuickAreFlagged(c: Setup, feed: Feed, b: nat)
    requires feed == Slow(c) && b < SlowBeat(c)
    ensures Found(feed, b).consumed == 0 && (b > 0 ==> Flagged(feed, b))
  {
    if b > 0 {
      QuickAreFlagged(c, feed, b - 1);
      FoundNext(feed, b - 1);
      QuickFlags(c, Found(feed, b - 1));
    }
  }

  lemma SlowSkips(c: Setup, s: Lp)
    requires s.consumed == 0
    ensures !Cycle(s, SlowInvocation(c).inputs).report.wake
  {
    var i := SlowInvocation(c).inputs;
    var a := Consume(s, i.ack);
    assert a.baseline == Baseline(20.0, Humidity(c), 0);
    assert Final(a, i).t == 20.0 || Final(a, i).t == 24.0;
    assert Final(a, i).h == Humidity(c);
  }

  /** The slow one is not flagged: its value is as good as delivered. */
  lemma SlowIsUnflagged(c: Setup, feed: Feed)
    requires feed == Slow(c)
    ensures !Flagged(feed, SlowBeat(c))
  {
    var b := SlowBeat(c);
    QuickAreFlagged(c, feed, b - 1);
    FoundNext(feed, b - 1);
    SlowSkips(c, Found(feed, b - 1));
  }

  // ---- the passes that look at it ---------------------------------------------------------------------------------

  /** The first pass of a boot, before the first heartbeat; the LP core wakes the next one. */
  const BOOT_LOOK: Supervisor.Pass :=
    Supervisor.Pass(true, 0, false, false, false, false, false, false, false, true, true, false, false, true)

  /** Woken by an invocation that returned, it publishes, and waits for the next: or an update is due then. */
  function Woken(k: uint32, again: bool): (p: Supervisor.Pass) {
    Supervisor.Pass(true, k, true, false, false, true, true, true, false, true, true, !again, false, again)
  }

  /** After the short wait for an update: it publishes, and the update is withdrawn meanwhile. */
  function Retried(k: uint32): (p: Supervisor.Pass) {
    Supervisor.Pass(true, k, true, false, true, true, true, true, false, true, true, false, false, false)
  }

  /** A pass that finds no new heartbeat, and waits out the safeguard. */
  function Idle(k: uint32, wake: bool): (p: Supervisor.Pass) {
    Supervisor.Pass(true, k, wake, false, false, false, false, false, false, true, true, false, false, false)
  }

  /** Woken at every heartbeat up to the one before `last`, then a look at `last`, and two that time out. */
  function AlarmPass(last: uint32, j: nat, wake: bool): (p: Supervisor.Pass) {
    if j == 0 then BOOT_LOOK else if j < last then Woken(j, j + 1 < last)
    else if j == last then Retried(last) else Idle(last, wake)
  }

  function AlarmPasses(last: uint32, wakes: nat -> bool): (passes: seq<Supervisor.Pass>)
    ensures |passes| == last + 3 && forall j: nat :: j < |passes| ==> passes[j] == AlarmPass(last, j, wakes(j))
  {
    seq(last + 3, j requires 0 <= j => AlarmPass(last, j, wakes(j)))
  }

  function AlarmTask(last: uint32, j: nat): (t: Supervisor.Task)
    requires last > 1
  {
    if j == 0 then Supervisor.Boot(false)
    else if j <= last then
      Supervisor.Task(j - 1, 0, 0, if j < last then Supervisor.LpWake else Supervisor.OtaRetryTimeout, false, j > 1,
                      Supervisor.Running)
    else
      Supervisor.Task(last, j - last - 1, 0, Supervisor.SafeguardTimeout, false, true,
                      if j <= last + 2 then Supervisor.Running else Supervisor.LpStall)
  }

  lemma BootStep()
    ensures Supervisor.Next(Supervisor.Boot(false), BOOT_LOOK)
            == Supervisor.Task(0, 0, 0, Supervisor.LpWake, false, false, Supervisor.Running)
  {
  }

  lemma WokenStep(k: uint32, checked: bool, again: bool)
    requires k + 1 < 0x1_0000_0000
    ensures Supervisor.Next(Supervisor.Task(k, 0, 0, Supervisor.LpWake, false, checked, Supervisor.Running),
                            Woken(k + 1, again))
            == Supervisor.Task(k + 1, 0, 0, if again then Supervisor.LpWake else Supervisor.OtaRetryTimeout,
                               false, true, Supervisor.Running)
  {
  }

  lemma RetriedStep(k: uint32, checked: bool)
    requires k + 1 < 0x1_0000_0000
    ensures Supervisor.Next(Supervisor.Task(k, 0, 0, Supervisor.OtaRetryTimeout, false, checked, Supervisor.Running),
                            Retried(k + 1))
            == Supervisor.Task(k + 1, 0, 0, Supervisor.SafeguardTimeout, false, true, Supervisor.Running)
  {
  }

  lemma IdleStep(k: uint32, stalled: nat, wake: bool)
    requires stalled <= 1
    ensures Supervisor.Next(Supervisor.Task(k, stalled, 0, Supervisor.SafeguardTimeout, false, true,
                                            Supervisor.Running), Idle(k, wake))
            == Supervisor.Task(k, stalled + 1, 0, Supervisor.SafeguardTimeout, false, true,
                               if stalled == 0 then Supervisor.Running else Supervisor.LpStall)
  {
  }

  lemma AlarmStep(last: uint32, j: nat, wake: bool)
    requires last > 1 && j < last + 3
    ensures Supervisor.Next(AlarmTask(last, j), AlarmPass(last, j, wake)) == AlarmTask(last, j + 1)
  {
    if j == 0 {
      BootStep();
    } else if j < last {
      WokenStep(j - 1, j > 1, j + 1 < last);
    } else if j == last {
      RetriedStep(last - 1, last > 1);
    } else {
      IdleStep(last, j - last - 1, wake);
    }
  }

  lemma {:induction false} AlarmRun(last: uint32, wakes: nat -> bool, passes: seq<Supervisor.Pass>, j: nat)
    requires last > 1 && j <= last + 3 && passes == AlarmPasses(last, wakes)
    ensures Supervisor.Before(false, passes, j) == AlarmTask(last, j)
  {
    if j == 0 {
      assert passes[..0] == [];
    } else {
      AlarmRun(last, wakes, passes, j - 1);
      AlarmStep(last, j - 1, wakes(j - 1));
      Supervisor.OneStep(false, passes, j - 1);
    }
  }

  // ---- their times ------------------------------------------------------------------------------------------------

  function AlarmAt(c: Setup, feed: Feed, window: nat, last: uint32, j: nat): (t: nat) {
    if j <= last then BeatAt(c, feed, j) else BeatAt(c, feed, last) + window + if j == last + 1 then 0 else window
  }

  function AlarmTimes(c: Setup, feed: Feed, window: nat, last: uint32): (at: seq<nat>)
    ensures |at| == last + 3 && forall j: nat :: j < |at| ==> at[j] == AlarmAt(c, feed, window, last, j)
  {
    seq(last + 3, j requires 0 <= j => AlarmAt(c, feed, window, last, j))
  }

  lemma AlarmBeat(c: Setup, feed: Feed, window: nat, last: uint32, j: nat)
    requires TimerFits(c) && j < last + 3 && 2 * window < Gap(c, feed, last)
    ensures BeatsBy(c, feed, AlarmAt(c, feed, window, last, j)) == if j < last then j else last
  {
    var n := if j < last then j else last;
    BeatAtGrows(c, feed, n, n + 1);
    BeatIs(c, feed, AlarmAt(c, feed, window, last, j), n);
  }

  lemma AlarmReads(last: uint32, j: nat, wake: bool, beat: nat, locked: bool)
    requires j < last + 3 && beat == if j < last then j else last
    ensures Supervisor.Reads(AlarmPass(last, j, wake), beat, locked)
  {
    WrapSmall(beat);
  }

  lemma WrapSmall(n: uint32)
    ensures Wrap32(n) == n
  {
  }

  lemma AlarmAtGrows(c: Setup, feed: Feed, window: nat, last: uint32, j: nat)
    requires TimerFits(c) && 0 < j < last + 3
    ensures AlarmAt(c, feed, window, last, j - 1) + (if j <= last then 0 else window)
            <= AlarmAt(c, feed, window, last, j)
  {
    if j <= last {
      BeatAtGrows(c, feed, j - 1, j);
    }
  }

  lemma AlarmTimedAt(c: Setup, feed: Feed, window: nat, last: uint32, wakes: nat -> bool,
                     passes: seq<Supervisor.Pass>, at: seq<nat>, beats: nat -> nat, locked: nat -> bool, j: nat)
    requires TimerFits(c) && last > 1 && 2 * window < Gap(c, feed, last) && j < last + 3
    requires passes == AlarmPasses(last, wakes) && at == AlarmTimes(c, feed, window, last) && beats == Beats(c, feed)
    ensures j > 0 ==> at[j - 1] <= at[j]
    ensures j > 0 && Supervisor.Before(false, passes, j).reason.SafeguardTimeout? ==> at[j - 1] + window <= at[j]
    ensures Supervisor.Reads(passes[j], beats(at[j]), locked(at[j]))
  {
    AlarmBeat(c, feed, window, last, j);
    AlarmRun(last, wakes, passes, j);
    AlarmReads(last, j, wakes(j), BeatsBy(c, feed, at[j]), locked(at[j]));
    if j > 0 {
      AlarmAtGrows(c, feed, window, last, j);
    }
  }

  lemma AlarmIsTimed(c: Setup, feed: Feed, window: nat, last: uint32, wakes: nat -> bool,
                     passes: seq<Supervisor.Pass>, at: seq<nat>, beats: nat -> nat, locked: nat -> bool)
    requires TimerFits(c) && last > 1 && 2 * window < Gap(c, feed, last)
    requires passes == AlarmPasses(last, wakes) && at == AlarmTimes(c, feed, window, last) && beats == Beats(c, feed)
    ensures Supervisor.Timed(false, passes, at, beats, locked, window)
  {
    forall j: nat | j < last + 3
      ensures j > 0 ==> at[j - 1] <= at[j]
      ensures j > 0 && Supervisor.Before(false, passes, j).reason.SafeguardTimeout? ==> at[j - 1] + window <= at[j]
      ensures Supervisor.Reads(passes[j], beats(at[j]), locked(at[j]))
    {
      AlarmTimedAt(c, feed, window, last, wakes, passes, at, beats, locked, j);
    }
  }

  lemma SlowIsAdmissible(c: Setup, feed: Feed)
    requires feed == Slow(c)
    ensures Admissible(c, feed)
  {
    forall k: nat
      ensures Possible(c, Found(feed, k), feed(k))
    {
      SlowIsPossible(c, feed, k);
    }
  }

  function SlowWatch(c: Setup, feed: Feed, wakes: nat -> bool): (w: Watch) {
    var last := SlowBeat(c);
    Watch(false, AlarmPasses(last, wakes), AlarmTimes(c, feed, WindowUs(c), last), last + 2)
  }

  /** No look of this run is zeroed: what it restarts on is the silence of the heater. */
  ghost predicate SilentAlarm(c: Setup, feed: Feed, w: Watch) {
    FalseAlarm(c, feed, w) && !OverZeroes(c, feed, w)
  }

  lemma SlowAlarms(c: Setup, feed: Feed, wakes: nat -> bool, w: Watch, last: uint32)
    requires TimerFits(c) && 2 * WindowUs(c) < SilenceUs(c) && feed == Slow(c)
    requires w == SlowWatch(c, feed, wakes) && last == SlowBeat(c)
    ensures SilentAlarm(c, feed, w)
  {
    SlowGap(c, feed);
    SlowIsAdmissible(c, feed);
    AlarmIsTimed(c, feed, WindowUs(c), last, wakes, w.passes, w.at, Beats(c, feed), Locks(c, feed));
    AlarmBeat(c, feed, WindowUs(c), last, last + 2);
    AlarmRun(last, wakes, w.passes, last + 2);
    AlarmRun(last, wakes, w.passes, last + 3);
    assert w.passes[w.n].heartbeat == last;
  }

  // ---- that the code can have this run ----------------------------------------------------------------------------

  function AlarmBegin(c: Setup, feed: Feed, window: nat, last: uint32, j: nat): (t: nat) {
    if j == last && j > 0 then BeatAt(c, feed, last - 1) + PollUs(c) else AlarmAt(c, feed, window, last, j)
  }

  function AlarmBegins(c: Setup, feed: Feed, window: nat, last: uint32): (begins: seq<nat>)
    ensures |begins| == last + 3 && forall j: nat :: j < |begins| ==> begins[j] == AlarmBegin(c, feed, window, last, j)
  {
    seq(last + 3, j requires 0 <= j => AlarmBegin(c, feed, window, last, j))
  }

  /** The invocations before the slow one return at their heartbeat, a poll and a reading after the one before. */
  lemma QuickReturns(c: Setup, feed: Feed, b: nat)
    requires feed == Slow(c) && 0 < b < SlowBeat(c)
    ensures ReturnAt(c, feed, b) == BeatAt(c, feed, b) && Flagged(feed, b)
    ensures BeatAt(c, feed, b) == BeatAt(c, feed, b - 1) + PollUs(c) + LpSensor.MeasureUs(c.samples)
  {
    SlowOrQuick(c, feed, b - 1);
    QuickAreFlagged(c, feed, b);
    if b > 1 {
      SlowOrQuick(c, feed, b - 2);
    }
  }

  lemma SlowBegins(c: Setup, feed: Feed, last: uint32)
    requires feed == Slow(c) && last == SlowBeat(c)
    ensures BeatAt(c, feed, last) == BeatAt(c, feed, last - 1) + PollUs(c) + LpSensor.MeasureUs(c.samples)
    ensures ReturnAt(c, feed, last) == BeatAt(c, feed, last) + HeaterUs(c)
  {
    SlowOrQuick(c, feed, last - 1);
    SlowOrQuick(c, feed, last - 2);
  }

  lemma QuietUpTo(c: Setup, feed: Feed, k: nat, from: nat, to: nat)
    requires TimerFits(c) && feed == Slow(c) && k < SlowBeat(c)
    requires BeatAt(c, feed, k) <= from && to <= BeatAt(c, feed, k + 1)
    ensures Undisturbed(c, feed, from, to)
  {
    forall b: nat | b > 0 && Flagged(feed, b)
      ensures ReturnAt(c, feed, b) <= from || to <= ReturnAt(c, feed, b)
    {
      if b <= k {
        QuickReturns(c, feed, b);
        BeatAtGrows(c, feed, b, k);
      } else {
        BeatAtGrows(c, feed, k + 1, b);
      }
    }
  }

  lemma QuietInHeater(c: Setup, feed: Feed, from: nat, to: nat)
    requires TimerFits(c) && feed == Slow(c)
    requires BeatAt(c, feed, SlowBeat(c) - 1) <= from && to <= BeatAt(c, feed, SlowBeat(c) + 1)
    ensures Undisturbed(c, feed, from, to)
  {
    SlowIsUnflagged(c, feed);
    forall b: nat | b > 0 && Flagged(feed, b)
      ensures ReturnAt(c, feed, b) <= from || to <= ReturnAt(c, feed, b)
    {
      if b < SlowBeat(c) {
        QuickReturns(c, feed, b);
        BeatAtGrows(c, feed, b, SlowBeat(c) - 1);
      } else {
        assert b != SlowBeat(c);
        BeatAtGrows(c, feed, SlowBeat(c) + 1, b);
      }
    }
  }

  lemma WokenWaits(c: Setup, feed: Feed, p: Supervisor.Pass, j: nat)
    requires TimerFits(c) && Ordinary(c) && feed == Slow(c) && j + 1 < SlowBeat(c) && p.lpWoke && !p.dueAtWait
    ensures Waits(c, feed, p, BeatAt(c, feed, j), BeatAt(c, feed, j), BeatAt(c, feed, j + 1))
  {
    QuickReturns(c, feed, j + 1);
    QuietUpTo(c, feed, j, BeatAt(c, feed, j), BeatAt(c, feed, j + 1));
    assert ReturnAt(c, feed, j + 1) == BeatAt(c, feed, j + 1);
    assert AskedAt(c, feed, BeatAt(c, feed, j + 1));
  }

  lemma RetryWaits(c: Setup, feed: Feed, p: Supervisor.Pass, last: uint32)
    requires TimerFits(c) && feed == Slow(c) && last == SlowBeat(c) && !p.lpWoke && p.dueAtWait && !p.otaAtWait
    ensures var t := BeatAt(c, feed, last - 1); Waits(c, feed, p, t, t, t + PollUs(c))
  {
    SlowBegins(c, feed, last);
    QuietUpTo(c, feed, last - 1, BeatAt(c, feed, last - 1), BeatAt(c, feed, last - 1) + PollUs(c));
  }

  lemma SafeguardWaits(c: Setup, feed: Feed, p: Supervisor.Pass, last: uint32, from: nat, since: nat)
    requires TimerFits(c) && feed == Slow(c) && last == SlowBeat(c) && !p.lpWoke && !p.dueAtWait
    requires BeatAt(c, feed, last - 1) <= from && since + WindowUs(c) <= BeatAt(c, feed, last + 1)
    ensures Waits(c, feed, p, from, since, since + WindowUs(c))
  {
    QuietInHeater(c, feed, from, since + WindowUs(c));
  }

  lemma IdleWaits(c: Setup, feed: Feed, window: nat, last: uint32, j: nat, p: Supervisor.Pass)
    requires TimerFits(c) && feed == Slow(c) && last == SlowBeat(c) && window == WindowUs(c)
    requires 2 * window < SilenceUs(c) && last <= j < last + 2 && !p.lpWoke && !p.dueAtWait
    ensures Waits(c, feed, p, AlarmBegin(c, feed, window, last, j),
                  AlarmAt(c, feed, window, last, j), AlarmBegin(c, feed, window, last, j + 1))
  {
    SlowGap(c, feed);
    SlowBegins(c, feed, last);
    assert BeatAt(c, feed, last + 1) == BeatAt(c, feed, last) + SilenceUs(c);
    SafeguardWaits(c, feed, p, last, AlarmBegin(c, feed, window, last, j), AlarmAt(c, feed, window, last, j));
  }

  lemma WokenCase(c: Setup, feed: Feed, window: nat, last: uint32, j: nat, p: Supervisor.Pass)
    requires TimerFits(c) && Ordinary(c) && feed == Slow(c) && last == SlowBeat(c)
    requires j + 1 < last && p.lpWoke && !p.dueAtWait
    ensures Waits(c, feed, p, AlarmBegin(c, feed, window, last, j),
                  AlarmAt(c, feed, window, last, j), AlarmBegin(c, feed, window, last, j + 1))
  {
    WokenWaits(c, feed, p, j);
  }

  lemma RetryCase(c: Setup, feed: Feed, window: nat, last: uint32, j: nat, p: Supervisor.Pass)
    requires TimerFits(c) && feed == Slow(c) && last == SlowBeat(c)
    requires j + 1 == last && !p.lpWoke && p.dueAtWait && !p.otaAtWait
    ensures Waits(c, feed, p, AlarmBegin(c, feed, window, last, j),
                  AlarmAt(c, feed, window, last, j), AlarmBegin(c, feed, window, last, j + 1))
  {
    RetryWaits(c, feed, p, last);
  }

  lemma AlarmWaits(c: Setup, feed: Feed, window: nat, last: uint32, j: nat, p: Supervisor.Pass, wake: bool)
    requires TimerFits(c) && Ordinary(c) && feed == Slow(c) && last == SlowBeat(c) && window == WindowUs(c)
    requires 2 * window < SilenceUs(c) && j < last + 2 && p == AlarmPass(last, j, wake)
    ensures Waits(c, feed, p, AlarmBegin(c, feed, window, last, j),
                  AlarmAt(c, feed, window, last, j), AlarmBegin(c, feed, window, last, j + 1))
  {
    if j + 1 < last {
      WokenCase(c, feed, window, last, j, p);
    } else if j + 1 == last {
      RetryCase(c, feed, window, last, j, p);
    } else {
      IdleWaits(c, feed, window, last, j, p);
    }
  }

  /** The flags that the looks of the run show. */
  ghost function AlarmFlags(c: Setup, feed: Feed, window: nat, last: uint32): (wakes: nat -> bool) {
    (j: nat) => FlagAt(c, feed, AlarmAt(c, feed, window, last, j))
  }

  lemma SeesAt(c: Setup, feed: Feed, p: Supervisor.Pass, from: nat, t: nat, b: nat)
    requires from <= t <= from + ATTACH_US && p.attached && p.wake == FlagAt(c, feed, t)
    requires BeatsBy(c, feed, t) == b && (b > 0 ==> p.heartbeat > 0)
    ensures Sees(c, feed, p, from, t)
  {
  }

  /** Before the slow heater every look shows its invocation finished and flagged. */
  lemma FlagBefore(c: Setup, feed: Feed, j: nat)
    requires TimerFits(c) && feed == Slow(c) && j < SlowBeat(c) && BeatsBy(c, feed, BeatAt(c, feed, j)) == j
    ensures FlagAt(c, feed, BeatAt(c, feed, j)) <==> j > 0
  {
    if j > 0 {
      QuickReturns(c, feed, j);
    }
  }

  /** And the look at its beat still shows the flag of the one before. */
  lemma FlagDuring(c: Setup, feed: Feed, last: uint32)
    requires TimerFits(c) && feed == Slow(c) && last == SlowBeat(c) && HeaterUs(c) > 0
    requires BeatsBy(c, feed, BeatAt(c, feed, last)) == last
    ensures FlagAt(c, feed, BeatAt(c, feed, last))
  {
    QuickReturns(c, feed, last - 1);
    SlowBegins(c, feed, last);
  }

  lemma AlarmSees(c: Setup, feed: Feed, window: nat, last: uint32, j: nat, wake: bool)
    requires TimerFits(c) && Ordinary(c) && feed == Slow(c) && last == SlowBeat(c) && window == WindowUs(c)
    requires 2 * window < SilenceUs(c) && j < last + 3 && wake == FlagAt(c, feed, AlarmAt(c, feed, window, last, j))
    ensures Sees(c, feed, AlarmPass(last, j, wake), AlarmBegin(c, feed, window, last, j),
                 AlarmAt(c, feed, window, last, j))
  {
    SlowGap(c, feed);
    SlowBegins(c, feed, last);
    AlarmBeat(c, feed, window, last, j);
    if j < last {
      FlagBefore(c, feed, j);
    } else if j == last {
      FlagDuring(c, feed, last);
    }
    SeesAt(c, feed, AlarmPass(last, j, wake), AlarmBegin(c, feed, window, last, j),
           AlarmAt(c, feed, window, last, j), if j < last then j else last);
  }

  lemma SlowIsAwaited(c: Setup, feed: Feed, wakes: nat -> bool, w: Watch, last: uint32)
    requires TimerFits(c) && Ordinary(c) && 2 * WindowUs(c) < SilenceUs(c) && feed == Slow(c) && last == SlowBeat(c)
    requires w == SlowWatch(c, feed, wakes) && wakes == AlarmFlags(c, feed, WindowUs(c), last)
    ensures Awaited(c, feed, w, AlarmBegins(c, feed, WindowUs(c), last))
  {
    var begins := AlarmBegins(c, feed, WindowUs(c), last);
    forall j: nat | j <= w.n
      ensures Sees(c, feed, w.passes[j], begins[j], w.at[j])
    {
      AlarmSees(c, feed, WindowUs(c), last, j, wakes(j));
    }
    forall j: nat | j < w.n
      ensures Waits(c, feed, w.passes[j], begins[j], w.at[j], begins[j + 1])
    {
      AlarmWaits(c, feed, WindowUs(c), last, j, w.passes[j], wakes(j));
    }
  }

  // ---- the exact condition ----------------------------------------------------------------------------------------

  /** Under this setup a working LP core can be restarted for a stalled one without a zeroed look. */
  ghost predicate CanAlarm(c: Setup) {
    exists feed: Feed, w: Watch :: SilentAlarm(c, feed, w)
  }

  /** And by a run that the code can have, with no wake lost. */
  ghost predicate WillAlarm(c: Setup) {
    exists feed: Feed, w: Watch, begins: seq<nat> :: SilentAlarm(c, feed, w) && Awaited(c, feed, w, begins)
  }

  lemma LongSilenceAlarms(c: Setup)
    requires TimerFits(c) && 2 * WindowUs(c) < SilenceUs(c)
    ensures CanAlarm(c) && (Ordinary(c) ==> WillAlarm(c))
  {
    var feed, last := Slow(c), SlowBeat(c);
    var wakes := AlarmFlags(c, feed, WindowUs(c), last);
    var w := SlowWatch(c, feed, wakes);
    SlowAlarms(c, feed, wakes, w, last);
    if Ordinary(c) {
      SlowIsAwaited(c, feed, wakes, w, last);
    }
  }

  /**
   * Apart from zeroed looks, some run restarts the chip over a working LP core exactly if the longest heater
   * run of the setup, with the poll interval and the averaged reading after it, outlasts two safeguard
   * windows; with ordinary settings it is then a run the code can have.
   */
  lemma FalseAlarmIff(c: Setup)
    requires TimerFits(c)
    ensures CanAlarm(c) <==> 2 * WindowUs(c) < SilenceUs(c)
    ensures Ordinary(c) ==> (WillAlarm(c) <==> 2 * WindowUs(c) < SilenceUs(c))
  {
    if CanAlarm(c) {
      var feed: Feed, w: Watch :| SilentAlarm(c, feed, w);
      AlarmNeedsGap(c, feed, w, Beats(c, feed));
    }
    if 2 * WindowUs(c) < SilenceUs(c) {
      LongSilenceAlarms(c);
    }
  }

  lemma TwentyWindow(c: Setup)
    requires c.poll == 20 && c.maxSkip <= 1080
    ensures WindowUs(c) == (c.maxSkip + 3) * 20000000
  {
    assert LpSchedule.SafeguardWakeSec(20, c.maxSkip) == (c.maxSkip + 3) * 20;
  }

  lemma TwentySilence(c: Setup)
    requires c.poll == 20 && c.samples == 2
    ensures SilenceUs(c) == if c.heaterPeriod > 0 then 371250000 else if c.rhTrigger > 0 then 371140000 else 20120000
    ensures LpSensor.MeasureUs(c.samples) == 120000
  {
    LpSensor.LongestRuns();
  }

  lemma TwentyGap(gap: uint32)
    requires gap <= 21600
    ensures LpSchedule.PublishGapToSkip(gap, 20) <= 1080
    ensures LpSchedule.PublishGapToSkip(gap, 20) <= 6 <==> gap < 160
  {
    LpSchedule.GapKept(gap, 20);
  }

  lemma TwentyCompare(c: Setup)
    requires c.poll == 20 && c.samples == 2 && c.maxSkip <= 1080
    ensures TimerFits(c) && Ordinary(c)
    ensures 2 * WindowUs(c) < SilenceUs(c) <==> c.maxSkip <= 6 && (c.heaterPeriod > 0 || c.rhTrigger > 0)
  {
    TwentyWindow(c);
    TwentySilence(c);
  }

  /**
   * With polls of 20 s and two samples a heater makes the promised gap decide: 160 s keep the chip from
   * restarting without zeroed looks, less do not.
   */
  lemma TwentySecondPolls(gap: uint32, heaterPeriod: uint32, rhTrigger: uint32, c: Setup)
    requires gap <= 21600 && c == Setup(20, LpSchedule.PublishGapToSkip(gap, 20), 2, heaterPeriod, rhTrigger)
    ensures CanAlarm(c) <==> gap < 160 && (heaterPeriod > 0 || rhTrigger > 0)
    ensures WillAlarm(c) <==> CanAlarm(c)
  {
    TwentyGap(gap);
    TwentyCompare(c);
    FalseAlarmIff(c);
  }

  /** The settings that ship. */
  const SHIPPED: Setup := Setup(20, LpSchedule.PublishGapToSkip(300, 20), 2, LpSchedule.MinutesToCycles(1440, 20),
                                LpSchedule.MinutesToCycles(60, 20))

  lemma ShippedTimes()
    ensures TimerFits(SHIPPED) && Ordinary(SHIPPED) && !CanAlarm(SHIPPED)
    ensures PollUs(SHIPPED) + LpSensor.MeasureUs(SHIPPED.samples) <= ATTACH_US
  {
    TwentyGap(300);
    TwentyCompare(SHIPPED);
    TwentySilence(SHIPPED);
    TwentySecondPolls(300, SHIPPED.heaterPeriod, SHIPPED.rhTrigger, SHIPPED);
  }

  /**
   * With the shipped settings every restart over a working LP core, in any run, is one of two stalls that
   * both read zeroes on a remembered zero.
   */
  lemma ShippedAlarmsAreZeroed(feed: Feed, w: Watch)
    requires FalseAlarm(SHIPPED, feed, w)
    ensures exists m: nat :: BothZeroed(w, Beats(SHIPPED, feed), m)
  {
    ShippedTimes();
    assert SilentAlarm(SHIPPED, feed, w) || OverZeroes(SHIPPED, feed, w);
    var m: nat :| OverZeroesFrom(w, Beats(SHIPPED, feed), m);
    ZeroedTwice(SHIPPED, feed, w, Beats(SHIPPED, feed), m);
  }

  /** And such a restart there is, in a run the code can have: with a sensor that never answers. */
  lemma ShippedBrokenSensorAlarms()
    ensures exists w: Watch, begins: seq<nat> ::
              FalseAlarm(SHIPPED, Broken(SHIPPED), w) && Awaited(SHIPPED, Broken(SHIPPED), w, begins)
  {
    ShippedTimes();
    BrokenSensorAlarms(SHIPPED);
    var w: Watch, begins: seq<nat> :| ZeroedAlarm(SHIPPED, Broken(SHIPPED), w, begins);
  }
}
