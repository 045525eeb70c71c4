/**
 * The LP core's program (components/lp_sensor_core/lp_core/main.cpp): one invocation per poll, as a
 * function of what it reads, and as the ordered stores it makes into the shared memory.
 */
module LpCore {
  import opened Words

  datatype Option<T> = None | Some(value: T)

  /** A successful reading: temperature in degrees Celsius, relative humidity in percent. */
  datatype Reading = Reading(t: real, h: real)

  datatype Status = Status(heartbeat: uint32, ok: bool, fails: uint32)
  datatype Values = Values(rawT: real, rawH: real, calT: real, calH: real)
  datatype Heater = Heater(since: uint32, highRh: uint32, active: bool, lastRun: uint32, delta: real,
                           passed: bool, runs: uint32)

  /** What the seqlock protects: every field the program writes while `seqNo` is odd, bar the baseline. */
  datatype Report = Report(status: Status, values: Values, heater: Heater, wake: bool)

  datatype Baseline = Baseline(t: real, h: real, skipped: uint32)

  /** The memory the LP core writes. */
  datatype Lp = Lp(seqNo: uint32, report: Report, baseline: Baseline, consumed: uint32)

  datatype Ack = Ack(seqNo: uint32, t: real, h: real)

  /**
   * The configuration block as one invocation reads it. Three fields are read twice: the humidity offset
   * for the trigger (`preOffset`) and for the calibration, the heater's period and trigger to see whether
   * they are on (`periodGate`, `triggerGate`) and to compare with.
   */
  datatype Config = Config(tempOffset: real, preOffset: real, rhOffset: real, tempMin: real, rhMin: real,
                           maxSkip: uint32, periodGate: uint32, heaterPeriod: uint32,
                           triggerGate: uint32, rhTrigger: uint32)

  datatype Maintenance = Maintenance(clean: Reading, delta: real, passed: bool)

  datatype Inputs = Inputs(ack: Ack, config: Config, reading: Option<Reading>, maintenance: Option<Maintenance>)

  const HIGH_RH_THRESHOLD: real := 90.0

  function ClampReal(v: real, lo: real, hi: real): (c: real) {
    if v < lo then lo else if v > hi then hi else v
  }

  function Abs(v: real): (a: real) {
    if v < 0.0 then -v else v
  }

  // ---- one invocation as a function ---------------------------------------------------------------

  function Consume(s: Lp, ack: Ack): (t: Lp) {
    if ack.seqNo != s.consumed then s.(baseline := Baseline(ack.t, ack.h, 0), consumed := ack.seqNo) else s
  }

  function NextStatus(s: Status, ok: bool): (t: Status) {
    Status(Wrap32(s.heartbeat + 1), ok, if ok then 0 else Wrap32(s.fails + 1))
  }

  /** The heater's counters after a reading, before any maintenance. */
  function Scheduled(h: Heater, r: Reading, c: Config): (t: Heater) {
    h.(since := Wrap32(h.since + 1),
       highRh := if ClampReal(r.h + c.preOffset, 0.0, 100.0) > HIGH_RH_THRESHOLD then Wrap32(h.highRh + 1) else 0)
  }

  predicate PeriodicDue(h: Heater, c: Config) {
    c.periodGate > 0 && h.since >= c.heaterPeriod
  }

  predicate HumidityDue(h: Heater, c: Config) {
    c.triggerGate > 0 && h.highRh >= c.rhTrigger
  }

  predicate Due(h: Heater, c: Config) {
    PeriodicDue(h, c) || HumidityDue(h, c)
  }

  function Maintained(h: Heater, heartbeat: uint32, m: Option<Maintenance>): (t: Heater) {
    if m.None? then h.(since := 0, highRh := 0, active := false)
    else Heater(0, 0, false, heartbeat, m.value.delta, m.value.passed, Wrap32(h.runs + 1))
  }

  predicate HeaterRuns(s: Lp, i: Inputs) {
    i.reading.Some? && Due(Scheduled(s.report.heater, i.reading.value, i.config), i.config)
  }

  /** What is published while the heater runs: a new heartbeat and reading, the values and the flag of before. */
  function MidHeater(r: Report, status: Status, i: Inputs): (m: Report)
    requires i.reading.Some?
  {
    Report(status, r.values.(rawT := i.reading.value.t, rawH := i.reading.value.h),
           Scheduled(r.heater, i.reading.value, i.config).(active := true), r.wake)
  }

  /** The reading that is calibrated and published: the clean one after maintenance, if there is one. */
  function Final(s: Lp, i: Inputs): (r: Reading)
    requires i.reading.Some?
  {
    if HeaterRuns(s, i) && i.maintenance.Some? then i.maintenance.value.clean else i.reading.value
  }

  function Calibrated(r: Reading, c: Config): (k: Reading) {
    Reading(ClampReal(r.t + c.tempOffset, -273.15, 3000.0), ClampReal(r.h + c.rhOffset, 0.0, 100.0))
  }

  predicate SameAsDelivered(cal: Reading, b: Baseline, c: Config) {
    Abs(cal.t - b.t) < c.tempMin && Abs(cal.h - b.h) < c.rhMin
  }

  predicate Skips(cal: Reading, b: Baseline, c: Config) {
    SameAsDelivered(cal, b, c) && b.skipped < c.maxSkip
  }

  /** The memory after one invocation. */
  function Cycle(s: Lp, i: Inputs): (t: Lp) {
    Work(Consume(s, i.ack), i)
  }

  /** What an invocation does between its first and its last step of the counter. */
  function Work(a: Lp, i: Inputs): (t: Lp) {
    var status := NextStatus(a.report.status, i.reading.Some?);
    if i.reading.None? then
      a.(seqNo := Wrap32(a.seqNo + 2), report := a.report.(status := status, wake := a.report.status.ok))
    else
      var scheduled := Scheduled(a.report.heater, i.reading.value, i.config);
      var final := Final(a, i);
      var cal := Calibrated(final, i.config);
      var skip := Skips(cal, a.baseline, i.config);
      Lp(Wrap32(a.seqNo + if HeaterRuns(a, i) then 4 else 2),
         Report(status, Values(final.t, final.h, cal.t, cal.h),
                if HeaterRuns(a, i) then Maintained(scheduled, status.heartbeat, i.maintenance) else scheduled,
                !skip),
         if skip then a.baseline.(skipped := a.baseline.skipped + 1) else a.baseline, a.consumed)
  }

  /** What an invocation publishes while its heater runs, if it does. */
  function MidPoint(r: Report, i: Inputs): (reports: seq<Report>) {
    if i.reading.Some? && Due(Scheduled(r.heater, i.reading.value, i.config), i.config)
    then [MidHeater(r, NextStatus(r.status, true), i)] else []
  }

  /** The reports a reader can find outside the lock in the course of one invocation. */
  function StablePoints(s: Lp, i: Inputs): (reports: seq<Report>) {
    [s.report, Cycle(s, i).report] + MidPoint(s.report, i)
  }

  // ---- fields that are read twice ----------------------------------------------------------------------

  /** The configuration with the period as it is read, once as `gate` and once as `period`. */
  function WithPeriod(i: Inputs, gate: uint32, period: uint32): (j: Inputs) {
    i.(config := i.config.(periodGate := gate, heaterPeriod := period))
  }

  function WithTrigger(i: Inputs, gate: uint32, trigger: uint32): (j: Inputs) {
    i.(config := i.config.(triggerGate := gate, rhTrigger := trigger))
  }

  /**
   * A period retuned between its two reads makes the invocation act on neither the old nor the new one
   * exactly if the self-test is being switched off before it was due: then the heater runs unasked.
   */
  lemma PeriodSplitIff(s: Lp, i: Inputs, was: uint32, after: uint32)
    requires i.reading.Some?
    ensures var split := HeaterRuns(s, WithPeriod(i, was, after));
            && (split != HeaterRuns(s, WithPeriod(i, was, was)) && split != HeaterRuns(s, WithPeriod(i, after, after))
                <==> after == 0 && Wrap32(s.report.heater.since + 1) < was
                     && !HumidityDue(Scheduled(s.report.heater, i.reading.value, i.config), i.config))
            && (split != HeaterRuns(s, WithPeriod(i, was, was)) && split != HeaterRuns(s, WithPeriod(i, after, after))
                ==> split)
  {
    var h := Scheduled(s.report.heater, i.reading.value, i.config);
    assert forall gate: uint32, period: uint32 ::
        Scheduled(s.report.heater, i.reading.value, WithPeriod(i, gate, period).config) == h;
  }

  /** The same of the trigger, and of the count of humid polls. */
  lemma TriggerSplitIff(s: Lp, i: Inputs, was: uint32, after: uint32)
    requires i.reading.Some?
    ensures var h := Scheduled(s.report.heater, i.reading.value, i.config);
            var split := HeaterRuns(s, WithTrigger(i, was, after));
            && (split != HeaterRuns(s, WithTrigger(i, was, was)) && split != HeaterRuns(s, WithTrigger(i, after, after))
                <==> after == 0 && h.highRh < was && !PeriodicDue(h, i.config))
            && (split != HeaterRuns(s, WithTrigger(i, was, was)) && split != HeaterRuns(s, WithTrigger(i, after, after))
                ==> split)
  {
    var h := Scheduled(s.report.heater, i.reading.value, i.config);
    assert forall gate: uint32, trigger: uint32 ::
        Scheduled(s.report.heater, i.reading.value, WithTrigger(i, gate, trigger).config) == h;
  }

  /**
   * An offset retuned between its two reads: the humidity that the trigger counts and the one that is
   * published agree exactly if the two reads do, or both are clamped at the same end.
   */
  lemma OffsetSplitIff(s: Lp, i: Inputs)
    requires i.reading.Some? && !HeaterRuns(s, i)
    ensures var h := i.reading.value.h;
            var judged := ClampReal(h + i.config.preOffset, 0.0, 100.0);
            var t := Cycle(s, i);
            && (judged == t.report.values.calH
                <==> i.config.preOffset == i.config.rhOffset
                     || (h + i.config.preOffset <= 0.0 && h + i.config.rhOffset <= 0.0)
                     || (h + i.config.preOffset >= 100.0 && h + i.config.rhOffset >= 100.0))
            && (judged == t.report.values.calH && s.report.heater.highRh < 0xffff_ffff
                ==> (t.report.heater.highRh > 0 <==> t.report.values.calH > HIGH_RH_THRESHOLD))
  {
  }

  // ---- the stores, in order ---------------------------------------------------------------------------

  /** What a store may change: the lock's counter alone, or fields under it while it is odd. */
  ghost predicate StoreOk(a: Lp, b: Lp) {
    (b.seqNo == a.seqNo && (b.report == a.report || a.seqNo % 2 == 1))
    || (b.seqNo == Wrap32(a.seqNo + 1) && b.report == a.report)
  }

  /** A history of the memory, one entry per store. */
  ghost predicate Disciplined(hist: seq<Lp>) {
    hist != [] && forall i :: 0 < i < |hist| ==> StoreOk(hist[i - 1], hist[i])
  }

  /** Outside the lock, the entries from `n` on hold one of these reports. */
  ghost predicate StableSince(hist: seq<Lp>, n: nat, reports: seq<Report>) {
    forall k: nat :: n <= k < |hist| ==> hist[k].seqNo % 2 == 1 || hist[k].report in reports
  }

  /** An invocation's history in three parts: under the lock, with what its heater shows, and its last report. */
  lemma Joined(n: nat, begun: seq<Lp>, processed: seq<Lp>, all: seq<Lp>, mid: seq<Report>, last: Report)
    requires n <= |begun| && begun <= processed <= all
    requires StableSince(begun, n, []) && StableSince(processed, |begun|, mid)
    requires StableSince(all, |processed|, [last])
    ensures StableSince(all, n, [last] + mid)
  {
    forall k: nat | n <= k < |all|
      ensures all[k].seqNo % 2 == 1 || all[k].report in [last] + mid
    {
      if k < |begun| {
        assert all[k] == begun[k];
      } else if k < |processed| {
        assert all[k] == processed[k];
      }
    }
  }

  /** Two steps of the counter, and two more if the heater ran in between. */
  lemma StepsAddUp(seqNo: uint32, heated: bool)
    requires seqNo % 2 == 0
    ensures Wrap32((if heated then Wrap32(seqNo + 1 + 2) else seqNo + 1) + 1)
            == Wrap32(seqNo + if heated then 4 else 2)
  {
    WrapSum(seqNo + 3, 1);
  }

  class LpProgram {
    var seqNo: uint32
    var report: Report
    var baseline: Baseline
    var consumed: uint32
    ghost var hist: seq<Lp>

    ghost function Now(): (s: Lp)
      reads this
    {
      Lp(seqNo, report, baseline, consumed)
    }

    ghost predicate Logged()
      reads this
    {
      Disciplined(hist) && hist[|hist| - 1] == Now()
    }

    /** Every entry from `n` on is under the lock. */
    ghost predicate OddFrom(n: nat)
      reads this
    {
      forall k :: n <= k < |hist| ==> hist[k].seqNo % 2 == 1
    }

    /** Every entry from `n` on that is not under the lock holds one of these reports. */
    ghost predicate StableFrom(n: nat, reports: seq<Report>)
      reads this
    {
      forall k :: n <= k < |hist| ==> hist[k].seqNo % 2 == 1 || hist[k].report in reports
    }

    /** The store just made is the newest entry of the history. */
    ghost method Log()
      requires Disciplined(hist) && StoreOk(hist[|hist| - 1], Now())
      modifies this`hist
      ensures Logged() && hist == old(hist) + [Now()]
    {
      hist := hist + [Now()];
    }

    /** Loading the binary zeroes the memory. */
    constructor ()
      ensures Logged() && seqNo == 0 && consumed == 0 && baseline == Baseline(0.0, 0.0, 0)
      ensures report == Report(Status(0, false, 0), Values(0.0, 0.0, 0.0, 0.0),
                               Heater(0, 0, false, 0, 0.0, false, 0), false)
    {
      seqNo, consumed, baseline := 0, 0, Baseline(0.0, 0.0, 0);
      report := Report(Status(0, false, 0), Values(0.0, 0.0, 0.0, 0.0), Heater(0, 0, false, 0, 0.0, false, 0), false);
      new;
      hist := [Now()];
    }

    method Bump()
      requires Logged()
      modifies this`seqNo, this`hist
      ensures Logged() && seqNo == Wrap32(old(seqNo) + 1) && hist == old(hist) + [Now()]
    {
      seqNo := Wrap32(seqNo + 1);
      Log();
    }

    method ConsumeAck(ack: Ack)
      requires Logged()
      modifies this`baseline, this`consumed, this`hist
      ensures Logged() && Now() == Consume(old(Now()), ack) && old(hist) <= hist && StableFrom(|old(hist)|, [report])
      ensures ack.seqNo == old(consumed) ==> hist == old(hist)
      ensures var was := old(Now());
              ack.seqNo != was.consumed ==>
                hist == old(hist) + [was.(baseline := Baseline(ack.t, was.baseline.h, was.baseline.skipped)),
                                     was.(baseline := Baseline(ack.t, ack.h, was.baseline.skipped)),
                                     was.(baseline := Baseline(ack.t, ack.h, 0)),
                                     was.(baseline := Baseline(ack.t, ack.h, 0), consumed := ack.seqNo)]
    {
      if ack.seqNo != consumed {
        baseline := baseline.(t := ack.t);
        Log();
        baseline := baseline.(h := ack.h);
        Log();
        baseline := baseline.(skipped := 0);
        Log();
        consumed := ack.seqNo;
        Log();
      }
    }

    method StoreStatus(ok: bool)
      requires Logged() && seqNo % 2 == 1
      modifies this`report, this`hist
      ensures Logged() && report == old(report).(status := NextStatus(old(report).status, ok))
      ensures old(hist) <= hist && OddFrom(|old(hist)|)
    {
      report := report.(status := report.status.(heartbeat := Wrap32(report.status.heartbeat + 1)));
      Log();
      report := report.(status := report.status.(ok := ok));
      Log();
      report := report.(status := report.status.(fails := if ok then 0 else Wrap32(report.status.fails + 1)));
      Log();
    }

    method StoreRaw(r: Reading)
      requires Logged() && seqNo % 2 == 1
      modifies this`report, this`hist
      ensures Logged() && report == old(report).(values := old(report).values.(rawT := r.t, rawH := r.h))
      ensures old(hist) <= hist && OddFrom(|old(hist)|)
    {
      report := report.(values := report.values.(rawT := r.t));
      Log();
      report := report.(values := report.values.(rawH := r.h));
      Log();
    }

    method StoreSchedule(r: Reading, c: Config)
      requires Logged() && seqNo % 2 == 1
      modifies this`report, this`hist
      ensures Logged() && report == old(report).(heater := Scheduled(old(report).heater, r, c))
      ensures old(hist) <= hist && OddFrom(|old(hist)|)
    {
      report := report.(heater := report.heater.(since := Wrap32(report.heater.since + 1)));
      Log();
      var high := ClampReal(r.h + c.preOffset, 0.0, 100.0) > HIGH_RH_THRESHOLD;
      report := report.(heater := report.heater.(highRh := if high then Wrap32(report.heater.highRh + 1) else 0));
      Log();
    }

    method StoreRun(m: Maintenance)
      requires Logged() && seqNo % 2 == 1
      modifies this`report, this`hist
      ensures Logged() && old(hist) <= hist && OddFrom(|old(hist)|)
      ensures report == old(report).(values := old(report).values.(rawT := m.clean.t, rawH := m.clean.h),
                                     heater := old(report).heater.(lastRun := old(report).status.heartbeat,
                                       delta := m.delta, passed := m.passed,
                                       runs := Wrap32(old(report).heater.runs + 1)))
    {
      StoreRaw(m.clean);
      report := report.(heater := report.heater.(lastRun := report.status.heartbeat));
      Log();
      report := report.(heater := report.heater.(delta := m.delta));
      Log();
      report := report.(heater := report.heater.(passed := m.passed));
      Log();
      report := report.(heater := report.heater.(runs := Wrap32(report.heater.runs + 1)));
      Log();
    }

    /** The heater block: an even publish of its own while the heater runs, then back under the lock. */
    method RunHeater(maintenance: Option<Maintenance>) returns (ghost mid: nat)
      requires Logged() && seqNo % 2 == 1
      modifies this`seqNo, this`report, this`hist
      ensures Logged() && seqNo == Wrap32(old(seqNo) + 2) && old(hist) <= hist
      ensures report.status == old(report).status && report.wake == old(report).wake
      ensures report.heater == Maintained(old(report).heater, old(report).status.heartbeat, maintenance)
      ensures report.values == if maintenance.None? then old(report).values
                               else old(report).values.(rawT := maintenance.value.clean.t,
                                                        rawH := maintenance.value.clean.h)
      ensures |old(hist)| <= mid < |hist| && hist[mid].seqNo == Wrap32(old(seqNo) + 1)
      ensures StableFrom(|old(hist)|, [old(report).(heater := old(report).heater.(active := true))])
      ensures hist[mid].report == old(report).(heater := old(report).heater.(active := true))
    {
      report := report.(heater := report.heater.(active := true));
      Log();
      Bump();
      mid := |hist| - 1;
      var ran := maintenance.Some?;
      Bump();
      if ran {
        StoreRun(maintenance.value);
      }
      ClearHeater();
    }

    method ClearHeater()
      requires Logged() && seqNo % 2 == 1
      modifies this`report, this`hist
      ensures Logged() && old(hist) <= hist && OddFrom(|old(hist)|)
      ensures report == old(report).(heater := old(report).heater.(active := false, since := 0, highRh := 0))
    {
      report := report.(heater := report.heater.(active := false));
      Log();
      report := report.(heater := report.heater.(since := 0));
      Log();
      report := report.(heater := report.heater.(highRh := 0));
      Log();
    }

    method StoreCalibrated(cal: Reading)
      requires Logged() && seqNo % 2 == 1
      modifies this`report, this`hist
      ensures Logged() && report == old(report).(values := old(report).values.(calT := cal.t, calH := cal.h))
      ensures old(hist) <= hist && OddFrom(|old(hist)|)
    {
      report := report.(values := report.values.(calT := cal.t));
      Log();
      report := report.(values := report.values.(calH := cal.h));
      Log();
    }

    /** The branch of an invocation whose reading succeeded. */
    method Process(r: Reading, i: Inputs) returns (valueDriven: bool)
      requires Logged() && seqNo % 2 == 1 && i.reading == Some(r)
      modifies this`seqNo, this`report, this`baseline, this`hist
      ensures Logged() && seqNo % 2 == 1 && old(hist) <= hist
      ensures StableFrom(|old(hist)|, if Due(Scheduled(old(report).heater, r, i.config), i.config)
                                      then [MidHeater(old(report), old(report).status, i)] else [])
      ensures var scheduled := Scheduled(old(report).heater, r, i.config);
              var final := if Due(scheduled, i.config) && i.maintenance.Some? then i.maintenance.value.clean else r;
              var cal := Calibrated(final, i.config);
              && seqNo == (if Due(scheduled, i.config) then Wrap32(old(seqNo) + 2) else old(seqNo))
              && report == Report(old(report).status, Values(final.t, final.h, cal.t, cal.h),
                                  if Due(scheduled, i.config)
                                  then Maintained(scheduled, old(report).status.heartbeat, i.maintenance)
                                  else scheduled,
                                  old(report).wake)
              && valueDriven == !Skips(cal, old(baseline), i.config)
              && baseline == if valueDriven then old(baseline) else old(baseline).(skipped := old(baseline).skipped + 1)
    {
      var final := r;
      StoreRaw(r);
      StoreSchedule(r, i.config);
      if Due(report.heater, i.config) {
        ghost var mid := RunHeater(i.maintenance);
        if i.maintenance.Some? {
          final := i.maintenance.value.clean;
        }
      }
      var cal := Calibrated(final, i.config);
      StoreCalibrated(cal);
      var skip := Skips(cal, baseline, i.config);
      if skip {
        baseline := baseline.(skipped := baseline.skipped + 1);
        Log();
      }
      valueDriven := !skip;
    }

    /**
     * One invocation: it computes Cycle, and every store to a protected field falls between an odd and
     * the next even value of the counter.
     */
    method Poll(i: Inputs) returns (wakeHp: bool)
      requires Logged() && seqNo % 2 == 0
      modifies this
      ensures Logged() && seqNo % 2 == 0 && old(hist) <= hist
      ensures Now() == Cycle(old(Now()), i)
      ensures StableFrom(|old(hist)|, StablePoints(old(Now()), i))
      ensures wakeHp == report.wake
    {
      ConsumeAck(i.ack);
      wakeHp := MeasureAndDecide(i);
    }

    method MeasureAndDecide(i: Inputs) returns (wakeHp: bool)
      requires Logged() && seqNo % 2 == 0
      modifies this`seqNo, this`report, this`baseline, this`hist
      ensures Logged() && seqNo % 2 == 0 && old(hist) <= hist
      ensures Now() == Work(old(Now()), i)
      ensures StableFrom(|old(hist)|, [report] + MidPoint(old(report), i))
      ensures wakeHp == report.wake
    {
      var wasOk := report.status.ok;
      var ok := i.reading.Some?;
      Open(ok);
      ghost var begun := hist;
      var valueDriven := false;
      if ok {
        valueDriven := Process(i.reading.value, i);
      }
      ghost var processed := hist;
      wakeHp := valueDriven || (wasOk && !ok);
      Close(wakeHp);
      StepsAddUp(old(seqNo), ok && Due(Scheduled(old(report).heater, i.reading.value, i.config), i.config));
      Joined(|old(hist)|, begun, processed, hist, MidPoint(old(report), i), report);
    }

    /** The last store under the lock, and its release. */
    method Close(wake: bool)
      requires Logged() && seqNo % 2 == 1
      modifies this`seqNo, this`report, this`hist
      ensures Logged() && seqNo == Wrap32(old(seqNo) + 1) && old(hist) <= hist && StableFrom(|old(hist)|, [report])
      ensures report == old(report).(wake := wake)
    {
      report := report.(wake := wake);
      Log();
      Bump();
    }

    method Open(ok: bool)
      requires Logged() && seqNo % 2 == 0
      modifies this`seqNo, this`report, this`hist
      ensures Logged() && seqNo == old(seqNo) + 1 && old(hist) <= hist && OddFrom(|old(hist)|)
      ensures report == old(report).(status := NextStatus(old(report).status, ok))
    {
      Bump();
      StoreStatus(ok);
    }
  }
}
