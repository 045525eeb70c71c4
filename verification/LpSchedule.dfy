/**
 * How long the LP core may stay silent: its skip budget over runs of invocations, and the conversions
 * from the configured seconds and minutes to polls.
 */
module LpSchedule {
  import opened Words
  import opened LpCore

  /** The memory after a run of invocations, one per poll. */
  function Run(s: Lp, polls: seq<Inputs>): (t: Lp) {
    if polls == [] then s else Cycle(Run(s, polls[..|polls| - 1]), polls[|polls| - 1])
  }

  /** How many polls of the run did not ask for the main processor. */
  function Unflagged(s: Lp, polls: seq<Inputs>): (n: nat) {
    if polls == [] then 0
    else Unflagged(s, polls[..|polls| - 1]) + if Run(s, polls).report.wake then 0 else 1
  }

  /** Every reading succeeds, the budget stays as configured and no acknowledgement but `ackSeq` is seen. */
  ghost predicate Steady(polls: seq<Inputs>, ackSeq: uint32, maxSkip: uint32) {
    forall i :: i in polls ==> i.reading.Some? && i.config.maxSkip == maxSkip && i.ack.seqNo == ackSeq
  }

  lemma {:induction false} BudgetSpent(s: Lp, polls: seq<Inputs>, maxSkip: uint32)
    requires Steady(polls, s.consumed, maxSkip)
    ensures Run(s, polls).consumed == s.consumed
    ensures Run(s, polls).baseline.t == s.baseline.t && Run(s, polls).baseline.h == s.baseline.h
    ensures Run(s, polls).baseline.skipped == s.baseline.skipped + Unflagged(s, polls)
    ensures Unflagged(s, polls) <= Max(0, maxSkip - s.baseline.skipped)
  {
    if polls != [] {
      var before, last := polls[..|polls| - 1], polls[|polls| - 1];
      BudgetSpent(s, before, maxSkip);
      assert last in polls;
    }
  }

  /** An invocation that finds a new acknowledgement behaves as if it had been consumed before. */
  lemma ConsumedFirst(s: Lp, i: Inputs)
    ensures Cycle(s, i) == Cycle(Consume(s, i.ack), i)
  {
  }

  lemma {:induction false} RunConsumedFirst(s: Lp, polls: seq<Inputs>)
    requires polls != []
    ensures Run(s, polls) == Run(Consume(s, polls[0].ack), polls)
    ensures Unflagged(s, polls) == Unflagged(Consume(s, polls[0].ack), polls)
  {
    var before := polls[..|polls| - 1];
    if before == [] {
      ConsumedFirst(s, polls[0]);
    } else {
      RunConsumedFirst(s, before);
    }
  }

  /**
   * Staleness. From the poll that consumes an acknowledgement until the next one, at most `maxSkip`
   * polls go by unflagged in all, and once that many have, every further poll is flagged.
   */
  lemma StalenessBound(s: Lp, polls: seq<Inputs>, maxSkip: uint32)
    requires polls != [] && polls[0].ack.seqNo != s.consumed && Steady(polls, polls[0].ack.seqNo, maxSkip)
    ensures Unflagged(s, polls) <= maxSkip
    ensures Unflagged(s, polls[..|polls| - 1]) == maxSkip ==> Run(s, polls).report.wake
  {
    RunConsumedFirst(s, polls);
    var t, before := Consume(s, polls[0].ack), polls[..|polls| - 1];
    BudgetSpent(t, polls, maxSkip);
    if before != [] {
      RunConsumedFirst(s, before);
      BudgetSpent(t, before, maxSkip);
    }
  }

  /** So among any maxSkip + 1 polls from an acknowledgement on, one is flagged. */
  lemma FlaggedInTime(s: Lp, polls: seq<Inputs>, maxSkip: uint32)
    requires polls != [] && polls[0].ack.seqNo != s.consumed && Steady(polls, polls[0].ack.seqNo, maxSkip)
    requires |polls| == maxSkip + 1
    ensures exists n :: 0 < n <= |polls| && Run(s, polls[..n]).report.wake
  {
    StalenessBound(s, polls, maxSkip);
    if forall n :: 0 < n <= |polls| ==> !Run(s, polls[..n]).report.wake {
      AllUnflagged(s, polls);
    }
  }

  lemma {:induction false} AllUnflagged(s: Lp, polls: seq<Inputs>)
    requires forall n :: 0 < n <= |polls| ==> !Run(s, polls[..n]).report.wake
    ensures Unflagged(s, polls) == |polls|
  {
    if polls != [] {
      var before := polls[..|polls| - 1];
      assert polls[..|polls|] == polls;
      forall n | 0 < n <= |before|
        ensures !Run(s, before[..n]).report.wake
      {
        assert before[..n] == polls[..n];
      }
      AllUnflagged(s, before);
    }
  }

  /** No acknowledgement but the consumed one is seen; the configuration may change and readings may fail. */
  ghost predicate Unacked(polls: seq<Inputs>, ackSeq: uint32) {
    forall i :: i in polls ==> i.ack.seqNo == ackSeq
  }

  lemma {:induction false} BaselineKept(s: Lp, polls: seq<Inputs>)
    requires Unacked(polls, s.consumed)
    ensures Run(s, polls).consumed == s.consumed
    ensures Run(s, polls).baseline.t == s.baseline.t && Run(s, polls).baseline.h == s.baseline.h
  {
    if polls != [] {
      BaselineKept(s, polls[..|polls| - 1]);
      assert polls[|polls| - 1] in polls;
    }
  }

  /** How many polls of the run measured and asked for nothing: what the skip budget pays for. */
  ghost function Quiet(s: Lp, polls: seq<Inputs>): (n: nat) {
    if polls == [] then 0
    else
      Quiet(s, polls[..|polls| - 1])
      + if polls[|polls| - 1].reading.Some? && !Run(s, polls).report.wake then 1 else 0
  }

  lemma {:induction false} SkippedIsQuiet(s: Lp, polls: seq<Inputs>)
    requires Unacked(polls, s.consumed)
    ensures Run(s, polls).baseline.skipped == s.baseline.skipped + Quiet(s, polls)
  {
    if polls != [] {
      SkippedIsQuiet(s, polls[..|polls| - 1]);
      BaselineKept(s, polls[..|polls| - 1]);
      assert polls[|polls| - 1] in polls;
    }
  }

  /**
   * What a poll publishes, and when it wakes the main processor, in numbers. The published value is the
   * reading plus the offset, kept within the sensor's limits; the flag is up exactly if the budget of
   * quiet polls since the last acknowledgement is used up, or the value is at least a threshold above or
   * below the acknowledged one, in temperature or in humidity: however many publishes are lost, a change
   * is flagged at every poll that still sees it.
   */
  lemma ChangeStaysFlagged(s: Lp, polls: seq<Inputs>, before: Lp, last: Inputs, after: Lp)
    requires polls != [] && Unacked(polls, s.consumed) && polls[|polls| - 1] == last && last.reading.Some?
    requires before == Run(s, polls[..|polls| - 1]) && after == Run(s, polls)
    ensures var r := if HeaterRuns(before, last) && last.maintenance.Some? then last.maintenance.value.clean
                     else last.reading.value;
            var t, h := r.t + last.config.tempOffset, r.h + last.config.rhOffset;
            && after.report.values.rawT == r.t && after.report.values.rawH == r.h
            && after.report.values.calT == (if t < -273.15 then -273.15 else if t > 3000.0 then 3000.0 else t)
            && after.report.values.calH == (if h < 0.0 then 0.0 else if h > 100.0 then 100.0 else h)
    ensures var t, h := after.report.values.calT, after.report.values.calH;
            after.report.wake <==>
              || s.baseline.skipped + Quiet(s, polls[..|polls| - 1]) >= last.config.maxSkip
              || t - s.baseline.t >= last.config.tempMin || s.baseline.t - t >= last.config.tempMin
              || h - s.baseline.h >= last.config.rhMin || s.baseline.h - h >= last.config.rhMin
  {
    var earlier := polls[..|polls| - 1];
    BaselineKept(s, earlier);
    SkippedIsQuiet(s, earlier);
    assert last in polls;
    FlagOfPoll(before, last);
  }

  lemma FlagOfPoll(s: Lp, i: Inputs)
    requires i.reading.Some? && i.ack.seqNo == s.consumed
    ensures var r := if HeaterRuns(s, i) && i.maintenance.Some? then i.maintenance.value.clean else i.reading.value;
            var t, h := r.t + i.config.tempOffset, r.h + i.config.rhOffset;
            var v := Cycle(s, i).report.values;
            && v.rawT == r.t && v.rawH == r.h
            && v.calT == (if t < -273.15 then -273.15 else if t > 3000.0 then 3000.0 else t)
            && v.calH == (if h < 0.0 then 0.0 else if h > 100.0 then 100.0 else h)
            && (Cycle(s, i).report.wake <==>
                  || s.baseline.skipped >= i.config.maxSkip
                  || v.calT - s.baseline.t >= i.config.tempMin || s.baseline.t - v.calT >= i.config.tempMin
                  || v.calH - s.baseline.h >= i.config.rhMin || s.baseline.h - v.calH >= i.config.rhMin)
  {
  }

  /** A failed reading is flagged exactly if the one before it succeeded; it publishes the old values again. */
  lemma FaultFlaggedOnce(s: Lp, polls: seq<Inputs>, n: nat)
    requires n == |polls| > 0 && polls[n - 1].reading.None?
    ensures Run(s, polls).report.wake
            <==> if n > 1 then polls[n - 2].reading.Some? else s.report.status.ok
    ensures Run(s, polls).report.values == Run(s, polls[..n - 1]).report.values
    ensures Run(s, polls).report.heater == Run(s, polls[..n - 1]).report.heater
  {
    if n > 1 {
      StatusCounts(s, polls[..n - 1], 0);
    }
  }

  /**
   * The status is the newest poll's: its number, whether it measured, and how many polls in a row have
   * failed by then, the last `k` of them.
   */
  lemma {:induction false} StatusCounts(s: Lp, polls: seq<Inputs>, k: nat)
    requires k <= |polls| && forall i :: |polls| - k <= i < |polls| ==> polls[i].reading.None?
    ensures Tells(Run(s, polls).report.status, s.report.status, polls, k)
  {
    if polls != [] {
      var before, last := polls[..|polls| - 1], polls[|polls| - 1];
      var less := if k > 0 then k - 1 else 0;
      StatusCounts(s, before, less);
      StatusOfPoll(Run(s, before), last, Cycle(Run(s, before), last));
      TellsMore(Run(s, before).report.status, Run(s, polls).report.status, s.report.status, polls, k, less);
    }
  }

  ghost predicate Tells(status: Status, was: Status, polls: seq<Inputs>, k: nat)
    requires k <= |polls|
  {
    && status.heartbeat == Wrap32(was.heartbeat + |polls|)
    && (polls != [] ==> status.ok == polls[|polls| - 1].reading.Some?)
    && (k < |polls| && polls[|polls| - k - 1].reading.Some? ==> status.fails == Wrap32(k))
    && (k == |polls| ==> status.fails == Wrap32(was.fails + k))
  }

  ghost predicate StatusStep(before: Status, after: Status, ok: bool) {
    && after.heartbeat == Wrap32(before.heartbeat + 1) && after.ok == ok
    && after.fails == if ok then 0 else Wrap32(before.fails + 1)
  }

  lemma StatusOfPoll(s: Lp, i: Inputs, t: Lp)
    requires t == Cycle(s, i)
    ensures StatusStep(s.report.status, t.report.status, i.reading.Some?)
  {
  }

  lemma TellsMore(before: Status, after: Status, was: Status, polls: seq<Inputs>, k: nat, less: nat)
    requires polls != [] && k <= |polls| && less == if k > 0 then k - 1 else 0
    requires k > 0 ==> polls[|polls| - 1].reading.None?
    requires StatusStep(before, after, polls[|polls| - 1].reading.Some?)
    requires Tells(before, was, polls[..|polls| - 1], less)
    ensures Tells(after, was, polls, k)
  {
    WrapSum(was.heartbeat + |polls| - 1, 1);
    if k > 0 {
      WrapSum(k - 1, 1);
      WrapSum(was.fails + k - 1, 1);
    }
  }

  /** Poll `k` of the run heated and measured afterwards. */
  ghost predicate Heated(s: Lp, polls: seq<Inputs>, k: nat) {
    k < |polls| && HeaterRuns(Run(s, polls[..k]), polls[k]) && polls[k].maintenance.Some?
  }

  /** How many of the first `n` polls did, and the latest of them or -1. */
  ghost function HeatedPolls(s: Lp, polls: seq<Inputs>, n: nat): (c: nat)
    requires n <= |polls|
  {
    if n == 0 then 0 else HeatedPolls(s, polls, n - 1) + if Heated(s, polls, n - 1) then 1 else 0
  }

  ghost function LastHeated(s: Lp, polls: seq<Inputs>, n: nat): (k: int)
    requires n <= |polls|
    ensures -1 <= k < n && (k >= 0 ==> Heated(s, polls, k)) && forall j :: k < j < n ==> !Heated(s, polls, j)
  {
    if n == 0 then -1 else if Heated(s, polls, n - 1) then n - 1 else LastHeated(s, polls, n - 1)
  }

  /**
   * The heater's record after any run: it counts every completed maintenance, and holds the number of the
   * poll, the temperature rise and the verdict of the latest one; and no poll leaves the heater marked on.
   */
  lemma {:induction false} HeaterRecord(s: Lp, polls: seq<Inputs>, n: nat)
    requires n <= |polls|
    ensures var k := LastHeated(s, polls, n);
            Records(Run(s, polls[..n]).report.heater, s.report, HeatedPolls(s, polls, n), k,
                    if k < 0 then None else polls[k].maintenance)
  {
    if n > 0 {
      HeaterRecord(s, polls, n - 1);
      assert polls[..n][..n - 1] == polls[..n - 1];
      var before, i, k := Run(s, polls[..n - 1]), polls[n - 1], LastHeated(s, polls, n - 1);
      StatusCounts(s, polls[..n - 1], 0);
      HeaterOfPoll(before, i, Cycle(before, i));
      RecordsMore(before.report.heater, Run(s, polls[..n]).report.heater, s.report, HeatedPolls(s, polls, n - 1),
                  k, if k < 0 then None else polls[k].maintenance, n, before.report.status.heartbeat,
                  if HeaterRuns(before, i) then i.maintenance else None);
    }
  }

  ghost predicate Records(h: Heater, was: Report, count: nat, k: int, m: Option<Maintenance>)
    requires k >= 0 ==> m.Some?
  {
    && h.runs == Wrap32(was.heater.runs + count)
    && (!was.heater.active ==> !h.active)
    && if k < 0 then h.lastRun == was.heater.lastRun && h.delta == was.heater.delta && h.passed == was.heater.passed
       else && h.lastRun == Wrap32(was.status.heartbeat + k + 1)
            && h.delta == m.value.delta && h.passed == m.value.passed
  }

  ghost predicate HeaterStep(h: Heater, t: Heater, beat: uint32, m: Option<Maintenance>) {
    && (!h.active ==> !t.active)
    && if m.Some? then
         && t.runs == Wrap32(h.runs + 1) && t.lastRun == Wrap32(beat + 1)
         && t.delta == m.value.delta && t.passed == m.value.passed
       else t.runs == h.runs && t.lastRun == h.lastRun && t.delta == h.delta && t.passed == h.passed
  }

  lemma HeaterOfPoll(s: Lp, i: Inputs, t: Lp)
    requires t == Cycle(s, i)
    ensures HeaterStep(s.report.heater, t.report.heater, s.report.status.heartbeat,
                       if HeaterRuns(s, i) then i.maintenance else None)
  {
  }

  lemma RecordsMore(h: Heater, t: Heater, was: Report, count: nat, k: int, m: Option<Maintenance>, n: nat,
                    beat: uint32, now: Option<Maintenance>)
    requires n > 0 && beat == Wrap32(was.status.heartbeat + n - 1)
    requires (k >= 0 ==> m.Some?) && Records(h, was, count, k, m) && HeaterStep(h, t, beat, now)
    ensures if now.Some? then Records(t, was, count + 1, n - 1, now) else Records(t, was, count, k, m)
  {
    WrapSum(was.status.heartbeat + n - 1, 1);
    WrapSum(was.heater.runs + count, 1);
  }

  /** The reading counts as humid for the heater's trigger. */
  predicate Humid(i: Inputs) {
    i.reading.Some? && ClampReal(i.reading.value.h + i.config.preOffset, 0.0, 100.0) > HIGH_RH_THRESHOLD
  }

  /** Every reading succeeds and the periodic self-test is on; the trigger is off or meets no humid reading. */
  ghost predicate SelfTestOnly(polls: seq<Inputs>, period: uint32) {
    forall k: nat :: k < |polls| ==> TestsOnly(polls[k], period)
  }

  ghost predicate TestsOnly(i: Inputs, period: uint32) {
    && i.reading.Some? && i.config.periodGate == i.config.heaterPeriod == period > 0
    && (i.config.triggerGate == 0 || (i.config.rhTrigger > 0 && !Humid(i)))
  }

  /** Counting modulo `period`, as the heater's counters do. */
  ghost function Phase(n: nat, period: nat): (k: nat) {
    if n == 0 || Phase(n - 1, period) + 1 == period then 0 else Phase(n - 1, period) + 1
  }

  lemma {:induction false} WholePeriods(n: nat, period: nat) returns (q: nat)
    requires period > 0
    ensures n == q * period + Phase(n, period) && Phase(n, period) < period
  {
    if n == 0 {
      return 0;
    }
    q := WholePeriods(n - 1, period);
    if Phase(n, period) == 0 {
      Multiples(q, period);
      q := q + 1;
    }
  }

  lemma PhaseIsRemainder(n: nat, period: nat)
    requires period > 0
    ensures Phase(n, period) == n % period
  {
    var q := WholePeriods(n, period);
    RemainderIs(n, period, q, Phase(n, period));
  }

  lemma {:induction false} SinceIsPhase(s: Lp, polls: seq<Inputs>, period: uint32)
    requires period > 0 && SelfTestOnly(polls, period) && s.report.heater.since == 0
    ensures Run(s, polls).report.heater.since == Phase(|polls|, period) < period
    ensures polls != []
            ==> (HeaterRuns(Run(s, polls[..|polls| - 1]), polls[|polls| - 1]) <==> Phase(|polls|, period) == 0)
  {
    if polls != [] {
      SinceIsPhase(s, polls[..|polls| - 1], period);
      SinceCounts(Run(s, polls[..|polls| - 1]), polls[|polls| - 1], period);
    }
  }

  lemma SinceCounts(s: Lp, i: Inputs, period: uint32)
    requires TestsOnly(i, period) && s.report.heater.since < period
    ensures HeaterRuns(s, i) <==> s.report.heater.since + 1 == period
    ensures Cycle(s, i).report.heater.since
            == if s.report.heater.since + 1 == period then 0 else s.report.heater.since + 1
  {
  }

  /** Over any run from a fresh start the heater is on in exactly every `period`-th poll, however often it fails. */
  lemma HeaterEveryPeriod(s: Lp, polls: seq<Inputs>, period: uint32)
    requires period > 0 && SelfTestOnly(polls, period) && s.report.heater.since == 0 && polls != []
    ensures HeaterRuns(Run(s, polls[..|polls| - 1]), polls[|polls| - 1]) <==> |polls| % period == 0
  {
    PhaseIsRemainder(|polls|, period);
    SinceIsPhase(s, polls, period);
  }

  /** Every reading is humid and only the sustained-humidity trigger is on. */
  ghost predicate CreepOnly(polls: seq<Inputs>, trigger: uint32) {
    forall k: nat :: k < |polls| ==> CreepsOnly(polls[k], trigger)
  }

  ghost predicate CreepsOnly(i: Inputs, trigger: uint32) {
    Humid(i) && i.config.periodGate == 0 && i.config.triggerGate == i.config.rhTrigger == trigger > 0
  }

  lemma {:induction false} HighRhIsPhase(s: Lp, polls: seq<Inputs>, trigger: uint32)
    requires trigger > 0 && CreepOnly(polls, trigger) && s.report.heater.highRh == 0
    ensures Run(s, polls).report.heater.highRh == Phase(|polls|, trigger) < trigger
    ensures polls != []
            ==> (HeaterRuns(Run(s, polls[..|polls| - 1]), polls[|polls| - 1]) <==> Phase(|polls|, trigger) == 0)
  {
    if polls != [] {
      HighRhIsPhase(s, polls[..|polls| - 1], trigger);
      HumidCounts(Run(s, polls[..|polls| - 1]), polls[|polls| - 1], trigger);
    }
  }

  lemma HumidCounts(s: Lp, i: Inputs, trigger: uint32)
    requires CreepsOnly(i, trigger) && s.report.heater.highRh < trigger
    ensures HeaterRuns(s, i) <==> s.report.heater.highRh + 1 == trigger
    ensures Cycle(s, i).report.heater.highRh
            == if s.report.heater.highRh + 1 == trigger then 0 else s.report.heater.highRh + 1
  {
  }

  /** While it stays humid the heater is on in exactly every `trigger`-th poll. */
  lemma HeaterEveryTrigger(s: Lp, polls: seq<Inputs>, trigger: uint32)
    requires trigger > 0 && CreepOnly(polls, trigger) && s.report.heater.highRh == 0 && polls != []
    ensures HeaterRuns(Run(s, polls[..|polls| - 1]), polls[|polls| - 1]) <==> |polls| % trigger == 0
  {
    PhaseIsRemainder(|polls|, trigger);
    HighRhIsPhase(s, polls, trigger);
  }

  lemma RemainderIs(a: nat, p: nat, q: nat, r: nat)
    requires p > 0 && r < p && a == q * p + r
    ensures a % p == r
  {
    var d := a / p - q;
    assert p * d == r - a % p;
    SmallMultiple(p, d);
  }

  lemma SmallMultiple(p: int, d: int)
    requires -p < p * d < p
    ensures d == 0
  {
  }

  // ---- seconds, minutes and polls -----------------------------------------------------------------------

  /** The whole polls that fit in a number of seconds. */
  function Polls(seconds: uint32, poll: uint32): (n: uint32)
    requires poll > 0
    ensures n * poll <= seconds < n * poll + poll
    ensures n > 0 <==> seconds >= poll
  {
    Quotient(seconds, poll);
    AtLeastOnce(seconds, poll);
    seconds / poll
  }

  lemma AtLeastOnce(a: nat, b: nat)
    requires b > 0
    ensures a / b <= a && (a / b > 0 <==> a >= b)
  {
    Quotient(a, b);
    if a / b > 0 {
      MulLe(1, a / b, b);
    }
    MulLe(1, b, a / b);
  }

  function PublishGapToSkip(gap: uint32, poll: uint32): (n: uint32)
    requires poll > 0
  {
    if gap <= poll then 0 else Polls(gap, poll) - 1
  }

  function MinutesToCycles(minutes: uint32, poll: uint32): (n: uint32)
    requires poll > 0
  {
    if minutes == 0 then 0 else Polls(Wrap32(Wrap32(minutes * 60) + poll - 1), poll)
  }

  function SafeguardWakeSec(poll: uint32, maxSkip: uint32): (sec: uint32) {
    Wrap32(Wrap32(maxSkip + 3) * poll)
  }

  lemma Quotient(a: nat, b: nat)
    requires b > 0
    ensures (a / b) * b <= a < (a / b) * b + b
  {
  }

  /** The promised gap is kept, by the largest skip budget that does, and polling cannot do better than one poll. */
  lemma GapKept(gap: uint32, poll: uint32)
    requires poll > 0
    ensures var skip := PublishGapToSkip(gap, poll);
            (skip + 1) * poll <= Max(gap, poll) < (skip + 2) * poll
  {
    var skip := PublishGapToSkip(gap, poll);
    Multiples(skip + 1, poll);
    if gap > poll {
      assert skip + 1 == Polls(gap, poll);
    }
  }

  /**
   * The safeguard of the main processor is two whole polls longer than the longest silence, and that
   * holds for a budget retuned after boot exactly as long as it is at most the boot's.
   */
  lemma SafeguardIsTwoPollsLater(gap: uint32, poll: uint32, liveSkip: uint32)
    requires poll > 0 && Max(gap, poll) + 2 * poll < 0x1_0000_0000
    ensures var skip := PublishGapToSkip(gap, poll);
            SafeguardWakeSec(poll, skip) == (skip + 1) * poll + 2 * poll <= Max(gap, poll) + 2 * poll
    ensures (liveSkip + 1) * poll + 2 * poll <= SafeguardWakeSec(poll, PublishGapToSkip(gap, poll))
            <==> liveSkip <= PublishGapToSkip(gap, poll)
  {
    var skip := PublishGapToSkip(gap, poll);
    GapKept(gap, poll);
    Multiples(skip, poll);
    Multiples(liveSkip, poll);
    SkipSmall(skip, poll, Max(gap, poll));
    if liveSkip <= skip {
      MulLe(liveSkip, skip, poll);
    } else {
      MulLe(skip + 1, liveSkip, poll);
    }
  }

  lemma SkipSmall(skip: nat, poll: nat, bound: nat)
    requires poll > 0 && (skip + 1) * poll <= bound
    ensures skip + 1 <= bound
  {
    MulLe(1, poll, skip + 1);
  }

  lemma Multiples(n: nat, poll: nat)
    ensures (n + 1) * poll == n * poll + poll && (n + 3) * poll == (n + 1) * poll + 2 * poll
  {
  }

  lemma MulLe(a: nat, b: nat, c: nat)
    requires a <= b
    ensures a * c <= b * c && c * a <= c * b
  {
  }

  lemma CeilingOf(a: nat, poll: nat, n: nat)
    requires poll > 0 && n * poll <= a + poll - 1 < n * poll + poll
    ensures a <= n * poll && (n > 0 ==> (n - 1) * poll < a)
  {
    if n > 0 {
      Multiples(n - 1, poll);
    }
  }

  lemma NoWrapInMinutes(minutes: uint32, poll: uint32)
    requires poll > 0 && 0 < minutes && minutes * 60 + poll <= 0x1_0000_0000
    ensures MinutesToCycles(minutes, poll) == Polls(minutes * 60 + poll - 1, poll)
  {
    assert Wrap32(minutes * 60) == minutes * 60;
    assert Wrap32(minutes * 60 + poll - 1) == minutes * 60 + poll - 1;
  }

  /** A heater interval in polls is the shortest that is not below the configured minutes. */
  lemma MinutesKept(minutes: uint32, poll: uint32)
    requires poll > 0 && minutes * 60 + poll <= 0x1_0000_0000
    ensures var n := MinutesToCycles(minutes, poll);
            (n == 0 <==> minutes == 0) && minutes * 60 <= n * poll && (n > 0 ==> (n - 1) * poll < minutes * 60)
  {
    if minutes > 0 {
      NoWrapInMinutes(minutes, poll);
      CeilingOf(minutes * 60, poll, Polls(minutes * 60 + poll - 1, poll));
    }
  }
}
